/**
 A piece of a shell line as a list of commands joined by `;`, `&&` and `||`, as far as the checks
 on it are concerned (section 2.9.3 of the POSIX.1-2017 Shell Command Language).
 */
module ShellLists {

  datatype Op = Always | IfOk | IfFailed

  /** A check call, which succeeds, or a command with a status of its own. */
  datatype Command = Other | Check(optional: bool, tag: string)

  datatype Part = Part(op: Op, command: Command)

  predicate IsCheck(p: Part, optional: bool) {
    p.command.Check? && p.command.optional == optional
  }

  /** The labels of the required, or of the optional, checks in the order they are written. */
  function TagsOf(line: seq<Part>, optional: bool): seq<string> {
    if line == [] then []
    else (if IsCheck(line[0], optional) then [line[0].command.tag] else []) + TagsOf(line[1..], optional)
  }

  lemma {:induction false} TagsOfConcat(a: seq<Part>, b: seq<Part>, optional: bool)
    ensures TagsOf(a + b, optional) == TagsOf(a, optional) + TagsOf(b, optional)
  {
    if a == [] {
      assert a + b == b;
    } else {
      assert (a + b)[1..] == a[1..] + b;
      TagsOfConcat(a[1..], b, optional);
    }
  }

  /** Whether a command runs after one that succeeded or failed. */
  predicate Executes(op: Op, ok: bool) {
    op.Always? || (op.IfOk? <==> ok)
  }

  function Min(a: nat, b: nat): nat {
    if a < b then a else b
  }

  function Max(a: nat, b: nat): nat {
    if a < b then b else a
  }

  /** The least number of required checks that run, whatever the other commands' statuses. */
  function Least(line: seq<Part>, ok: bool): nat {
    if line == [] then 0
    else if !Executes(line[0].op, ok) then Least(line[1..], ok)
    else if line[0].command.Other? then Min(Least(line[1..], true), Least(line[1..], false))
    else (if line[0].command.optional then 0 else 1) + Least(line[1..], true)
  }

  /** The greatest number. */
  function Most(line: seq<Part>, ok: bool): nat {
    if line == [] then 0
    else if !Executes(line[0].op, ok) then Most(line[1..], ok)
    else if line[0].command.Other? then Max(Most(line[1..], true), Most(line[1..], false))
    else (if line[0].command.optional then 0 else 1) + Most(line[1..], true)
  }

  lemma {:induction false} LeastIsLess(line: seq<Part>, ok: bool)
    ensures Least(line, ok) <= Most(line, ok) <= |TagsOf(line, false)|
  {
    if line != [] {
      LeastIsLess(line[1..], true);
      LeastIsLess(line[1..], false);
    }
  }

  /** The first check of a list can always be reached. */
  lemma {:induction false} FirstIsReached(line: seq<Part>, both: bool)
    requires TagsOf(line, false) != [] && TagsOf(line, true) == []
    requires both || (line != [] && line[0].op.Always?)
    ensures both ==> Max(Most(line, true), Most(line, false)) >= 1
    ensures !both ==> Most(line, true) >= 1 && Most(line, false) >= 1
  {
    if line[0].command.Other? {
      FirstIsReached(line[1..], true);
    }
  }
}
