/**
 Labels written over several physical lines. The lines reach the scan joined by blanks, while the
 shell keeps a newline inside quotes and removes one behind a backslash.
 */
module BrokenLabels {
  import opened ShellQuotes
  import opened ShellLabels
  import opened LabelSafety
  import opened Substitutions
  import opened LogicalLines

  // ----- the two readings ------------------------------------------------------------------------

  /** No backslash at the end of the line, whatever blanks follow it. */
  predicate Plain(p: string) {
    !EndsInBackslash(RStrip(p))
  }

  /** One backslash ends the line. */
  predicate Continued(p: string) {
    EndsInBackslash(p) && Plain(p[..|p| - 1])
  }

  predicate Tidy(p: string) {
    '\n' !in p && (Plain(p) || Continued(p))
  }

  /** What the joined line has of a physical line that goes on. */
  function Body(p: string): string {
    if Plain(p) || p == "" then p else p[..|p| - 1]
  }

  function Held(p: string): string {
    if Plain(p) then p else Body(p) + " "
  }

  /** A label's physical lines as the scan gets them. */
  function Seen(ps: seq<string>): string
    requires ps != []
  {
    if |ps| == 1 then ps[0] else Held(ps[0]) + " " + Seen(ps[1..])
  }

  /** And as the shell does. */
  function Raw(ps: seq<string>): string
    requires ps != []
  {
    if |ps| == 1 then ps[0] else ps[0] + "\n" + Raw(ps[1..])
  }

  /** A label over lines each of which, but the last, ends in one backslash or in none. */
  predicate TidyLines(ps: seq<string>) {
    ps != [] && (forall i :: 0 <= i < |ps| - 1 ==> Tidy(ps[i])) && '\n' !in ps[|ps| - 1]
  }

  // ----- piece by piece ------------------------------------------------------------------------------

  lemma UnescapePair(c: char, rest: string)
    ensures Unescape(['\\', c] + rest) == ShellLabels.Kept(c) + Unescape(rest)
  {
    assert (['\\', c] + rest)[2..] == rest;
  }

  lemma UnescapePlain(c: char, rest: string)
    requires c != '\\'
    ensures Unescape([c] + rest) == [c] + Unescape(rest)
  {
    assert ([c] + rest)[1..] == rest;
  }

  lemma Regroup(a: string, b: string, c: string)
    ensures a + b + c == a + (b + c)
  {
  }

  lemma {:induction false} UnescapeConcat(p: string, more: string)
    requires !EndsInBackslash(p)
    ensures Unescape(p + more) == Unescape(p) + Unescape(more)
    decreases |p|
  {
    if p == "" {
      assert p + more == more;
    } else {
      var k := if p[0] == '\\' then 2 else 1;
      UnescapeConcat(p[k..], more);
      UnescapeFirst(p, more, k);
    }
  }

  lemma UnescapeFirst(p: string, more: string, k: nat)
    requires p != "" && k <= |p| && k == if p[0] == '\\' then 2 else 1
    requires Unescape(p[k..] + more) == Unescape(p[k..]) + Unescape(more)
    ensures Unescape(p + more) == Unescape(p) + Unescape(more)
  {
    hide Unescape, ShellLabels.Kept;
    var head, rest := p[..k], p[k..];
    assert p == head + rest;
    Regroup(head, rest, more);
    if k == 2 {
      assert head == ['\\', p[1]];
      UnescapePair(p[1], rest);
      UnescapePair(p[1], rest + more);
      Regroup(ShellLabels.Kept(p[1]), Unescape(rest), Unescape(more));
    } else {
      assert head == [p[0]];
      UnescapePlain(p[0], rest);
      UnescapePlain(p[0], rest + more);
      Regroup([p[0]], Unescape(rest), Unescape(more));
    }
  }

  lemma ExpandPair(c: char, rest: string, env: Environment)
    requires c != '\n'
    ensures Expand(['\\', c] + rest, env) == ShellLabels.Kept(c) + Expand(rest, env)
  {
    var s := ['\\', c] + rest;
    assert s[2..] == rest && s[1..] == [c] + rest && s[1..][1..] == rest;
  }

  lemma ExpandPlain(c: char, rest: string, env: Environment)
    requires c != '\\' && !Expands(c)
    ensures Expand([c] + rest, env) == [c] + Expand(rest, env)
  {
    assert ([c] + rest)[1..] == rest;
  }

  /** Without an expansion the shell makes of a line what splitting makes of it. */
  lemma {:induction false} ExpandConcat(p: string, more: string, env: Environment)
    requires !Stops(p) && '\n' !in p && !EndsInBackslash(p)
    ensures Expand(p + more, env) == Unescape(p) + Expand(more, env)
    decreases |p|
  {
    if p == "" {
      assert p + more == more;
    } else {
      var k := if p[0] == '\\' then 2 else 1;
      GoesOn(p);
      ExpandConcat(p[k..], more, env);
      ExpandFirst(p, more, k, env);
    }
  }

  lemma GoesOn(p: string)
    requires p != "" && !Stops(p) && !EndsInBackslash(p)
    ensures !Stops(p[if p[0] == '\\' then 2 else 1..])
  {
    assert p[1..] != "" ==> p[1..][1..] == p[2..];
  }

  lemma ExpandFirst(p: string, more: string, k: nat, env: Environment)
    requires p != "" && k <= |p| && k == if p[0] == '\\' then 2 else 1
    requires '\n' !in p && !Stops(p)
    requires Expand(p[k..] + more, env) == Unescape(p[k..]) + Expand(more, env)
    ensures Expand(p + more, env) == Unescape(p) + Expand(more, env)
  {
    assert p[0] != '\\' ==> !Expands(p[0]);
    hide Unescape, Expand, Stops, ShellLabels.Kept;
    var head, rest := p[..k], p[k..];
    assert p == head + rest;
    Regroup(head, rest, more);
    if k == 2 {
      assert head == ['\\', p[1]];
      UnescapePair(p[1], rest);
      ExpandPair(p[1], rest + more, env);
      Regroup(ShellLabels.Kept(p[1]), Unescape(rest), Expand(more, env));
    } else {
      assert head == [p[0]];
      UnescapePlain(p[0], rest);
      ExpandPlain(p[0], rest + more, env);
      Regroup([p[0]], Unescape(rest), Expand(more, env));
    }
  }

  lemma PrefixFirst(head: string, rest: string)
    requires (|head| == 2 && head[0] == '\\' && Escapable(head[1]))
          || (|head| == 1 && !Expands(head[0]) && (head[0] == '\\' ==> rest == "" || !Escapable(rest[0])))
    ensures Prefix(head + rest) == [head[|head| - 1]] + Prefix(rest)
  {
    var s := head + rest;
    assert s[|head|..] == rest && (|head| == 1 && rest != "" ==> s[1] == rest[0]);
  }

  lemma PrefixOfNothing()
    ensures Prefix("") == ""
  {
  }

  lemma StopsLater(u: string, k: nat)
    requires u != "" && !Stops(u) && k == if u[0] == '\\' && |u| > 1 && Escapable(u[1]) then 2 else 1
    ensures !Stops(u[k..]) && (k == 1 ==> !Expands(u[0]))
  {
  }

  /** Extraction goes through a text without an expansion and on behind a blank. */
  lemma {:induction false} PrefixConcat(u: string, more: string)
    requires !Stops(u) && more != "" && more[0] == ' '
    ensures Prefix(u + more) == Prefix(u) + Prefix(more)
    decreases |u|
  {
    hide Prefix, Stops;
    if u == "" {
      PrefixOfNothing();
      assert u + more == more && "" + Prefix(more) == Prefix(more);
    } else {
      var k := if u[0] == '\\' && |u| > 1 && Escapable(u[1]) then 2 else 1;
      var head, rest := u[..k], u[k..];
      StopsLater(u, k);
      PrefixConcat(rest, more);
      assert u == head + rest && (rest != "" ==> (rest + more)[0] == rest[0]) && (rest == "" ==> rest + more == more);
      Regroup(head, rest, more);
      PrefixFirst(head, rest);
      PrefixFirst(head, rest + more);
      Regroup([head[k - 1]], Prefix(rest), Prefix(more));
    }
  }

  lemma {:induction false} PrefixIsShorter(u: string)
    ensures |Prefix(u)| <= |u|
  {
    if u != "" {
      PrefixIsShorter(u[1..]);
      if |u| > 1 {
        PrefixIsShorter(u[2..]);
      }
    }
  }

  /** How extraction begins in a text that it does not stop in, and where no lone backslash ends it. */
  lemma PrefixBegins(w: string)
    requires w != "" && !EndsInBackslash(w) && !Stops(w)
    ensures w[0] != '\\' ==> Prefix(w) != "" && Prefix(w)[0] != '\\'
    ensures w[0] == '\\' && w[1] == '\\' ==> Prefix(w) == "\\" + Prefix(w[2..]) && w[2..] != "" && !Stops(w[2..])
    ensures w[0] == '\\' && w[1] != '\\' ==>
              Prefix(w) != "" && (Prefix(w)[0] == w[1] || (|Prefix(w)| > 1 && Prefix(w)[1] == w[1]))
  {
  }

  lemma SlashesAndPair(n: nat, w: string)
    requires |w| > 1 && w[0] == w[1] == '\\'
    ensures Slashes(n) + w == "\\" + (Slashes(n + 1) + w[2..])
  {
    assert Slashes(n) + w == Slashes(n + 2) + w[2..] by {
      SlashLast(n, w);
      SlashLast(n + 1, w[1..]);
      assert w[1..][1..] == w[2..];
    }
    SlashFirst(n + 1, w[2..]);
  }

  lemma Shifted(c: char, x: string, y: string)
    requires [c] + x <= [c] + y
    ensures x <= y
  {
    assert ([c] + x)[1..] == x && ([c] + y)[1..] == y;
  }

  /** What extraction keeps cannot begin the text with backslashes in front. */
  lemma {:induction false} SlashesInFront(n: nat, w: string)
    requires n > 0 && w != "" && !EndsInBackslash(w) && !Stops(w)
    ensures !(Prefix(w) <= Slashes(n) + w)
    decreases |w|
  {
    hide Prefix, Stops;
    PrefixBegins(w);
    if w[0] == '\\' && w[1] == '\\' {
      SlashesInFront(n + 1, w[2..]);
      SlashesAndPair(n, w);
      if Prefix(w) <= Slashes(n) + w {
        Shifted('\\', Prefix(w[2..]), Slashes(n + 1) + w[2..]);
      }
    } else {
      assert (Slashes(n) + w)[0] == '\\' && (w[0] == '\\' ==> (Slashes(n) + w)[1] == '\\');
    }
  }

  /** Where extraction keeps a beginning of a text without an expansion, it keeps all of it. */
  lemma {:induction false} PrefixIsAll(u: string)
    requires !Stops(u) && !EndsInBackslash(u) && Prefix(u) <= u
    ensures Prefix(u) == u
    decreases |u|
  {
    if u != "" {
      if u[0] == '\\' && Escapable(u[1]) {
        assert Prefix(u)[0] == u[1] && u[1] == '\\';
        assert Prefix(u)[1..] == Prefix(u[2..]) && u[1..] == Slashes(1) + u[2..];
        SlashesInFront(1, u[2..]);
        assert false;
      } else {
        assert Prefix(u)[1..] == Prefix(u[1..]);
        PrefixIsAll(u[1..]);
      }
    }
  }

  lemma {:induction false} LastCharacter(p: string)
    requires !EndsInBackslash(p)
    ensures !EndsInBackslash(Unescape(p))
    decreases |p|
  {
    if p != "" {
      if p[0] == '\\' {
        LastCharacter(p[2..]);
      } else {
        LastCharacter(p[1..]);
      }
    }
  }

  /** Up to the first expansion splitting keeps what extraction from the literal itself keeps. */
  lemma {:induction false} PrefixBeginsUnescape(p: string)
    requires Stops(p)
    ensures Prefix(p) <= Unescape(p)
    decreases |p|
  {
    if p[0] == '\\' && |p| > 1 {
      if Escapable(p[1]) {
        PrefixBeginsUnescape(p[2..]);
      } else {
        assert p[1..][1..] == p[2..];
        PrefixBeginsUnescape(p[2..]);
      }
    } else if !Expands(p[0]) {
      PrefixBeginsUnescape(p[1..]);
    }
  }

  // ----- blanks that push the text out of place ---------------------------------------------------------

  predicate Blanks(b: string) {
    b != "" && forall i :: 0 <= i < |b| ==> b[i] == ' '
  }

  /** Both texts begin with a blank, which can be taken away. */
  lemma TakeBlank(b: string, x: string, y: string)
    requires Blanks(b) && b + ([' '] + x) <= [' '] + y
    ensures b + x <= y
  {
    var l, r := b + ([' '] + x), [' '] + y;
    assert b + x == l[1..] by {
      assert l[1..] == b[1..] + [' '] + x;
      assert b[1..] + [' '] == b;
    }
    assert y == r[1..] && l[1..] <= r[1..];
  }

  /** With blanks in front, what is kept of a line begins what the shell makes of it only if the line is blank. */
  lemma {:induction false} ShiftThrough(b: string, p: string, m: string, n: string)
    requires Blanks(b) && '\n' !in p && (EndsInBackslash(p) ==> m == n == "")
    requires b + Prefix(Unescape(p + m)) <= Expand(p + n, SILENT)
    ensures b + Prefix(Unescape(m)) <= Expand(n, SILENT)
    decreases |p|
  {
    hide Prefix, Unescape, Expand;
    if p == "" {
      assert p + m == m && p + n == n;
    } else {
      BeginsBlank(b, Prefix(Unescape(p + m)), Expand(p + n, SILENT));
      FirstIsBlank(p, n);
      var rest := p[1..];
      assert p == [' '] + rest;
      Regroup([' '], rest, m);
      Regroup([' '], rest, n);
      BlankRead(rest + m, rest + n);
      TakeBlank(b, Prefix(Unescape(rest + m)), Expand(rest + n, SILENT));
      ShiftThrough(b, rest, m, n);
    }
  }

  lemma BeginsBlank(b: string, x: string, v: string)
    requires Blanks(b) && b + x <= v
    ensures v != "" && v[0] == ' '
  {
    assert (b + x)[0] == ' ';
  }

  lemma FirstIsBlank(p: string, n: string)
    requires p != "" && '\n' !in p && (EndsInBackslash(p) ==> n == "")
    requires var v := Expand(p + n, SILENT); v != "" && v[0] == ' '
    ensures p[0] == ' '
  {
    var s := p + n;
    assert s[0] == p[0];
    if |p| > 1 {
      assert s[1] == p[1] && p[1] in p;
    }
  }

  lemma BlankRead(x: string, y: string)
    ensures Prefix(Unescape([' '] + x)) == [' '] + Prefix(Unescape(x))
    ensures Expand([' '] + y, SILENT) == [' '] + Expand(y, SILENT)
  {
    UnescapePlain(' ', x);
    hide Unescape;
    assert ([' '] + Unescape(x))[1..] == Unescape(x) && ([' '] + y)[1..] == y;
  }

  lemma {:induction false} PushedOut(b: string, ps: seq<string>)
    requires Blanks(b) && TidyLines(ps)
    ensures !(b + Prefix(Unescape(Seen(ps))) <= Expand(Raw(ps), SILENT))
    decreases |ps|
  {
    hide Prefix, Unescape, Expand, Plain, Body;
    if b + Prefix(Unescape(Seen(ps))) <= Expand(Raw(ps), SILENT) {
      if |ps| == 1 {
        assert ps[0] + "" == ps[0];
        ShiftThrough(b, ps[0], "", "");
        NothingIsShorter(b);
      } else {
        FirstLine(ps);
        var p, rest := ps[0], ps[1..];
        ShiftThrough(b, Body(p), Gap(p) + Seen(rest), Break(p) + Raw(rest));
        BlankLead(b, Gap(p), Seen(rest));
        if Plain(p) {
          NewlineFirst(Raw(rest), SILENT);
          BlankNotNewline(b, Prefix(Unescape(Gap(p) + Seen(rest))), Expand(Raw(rest), SILENT));
        } else {
          NewlineRemoved(Raw(rest), SILENT);
          PushedOut(b + Gap(p), rest);
        }
      }
    }
  }

  lemma BlankNotNewline(b: string, x: string, y: string)
    requires Blanks(b)
    ensures !(b + x <= "\n" + y)
  {
    assert (b + x)[0] == ' ';
  }

  lemma NothingIsShorter(b: string)
    requires Blanks(b)
    ensures !(b + Prefix(Unescape("")) <= Expand("", SILENT))
  {
  }

  /** What stands for the end of a line in the scan, and for the shell. */
  function Gap(p: string): string {
    if Plain(p) then " " else "  "
  }

  function Break(p: string): string {
    if Plain(p) then "\n" else "\\\n"
  }

  /** The first physical line in front of the rest of the label, in both readings. */
  lemma FirstLine(ps: seq<string>)
    requires TidyLines(ps) && |ps| > 1
    ensures TidyLines(ps[1..]) && '\n' !in Body(ps[0]) && !EndsInBackslash(Body(ps[0]))
    ensures Seen(ps) == Body(ps[0]) + (Gap(ps[0]) + Seen(ps[1..]))
    ensures Raw(ps) == Body(ps[0]) + (Break(ps[0]) + Raw(ps[1..]))
  {
    hide Body, Held, Gap, Break;
    var p := ps[0];
    EndOfLine(p);
    Regroup(Body(p), Gap(p), Seen(ps[1..]));
    Regroup(Body(p), Break(p), Raw(ps[1..]));
  }

  lemma EndOfLine(p: string)
    requires Tidy(p)
    ensures '\n' !in Body(p) && !EndsInBackslash(Body(p))
    ensures Held(p) + " " == Body(p) + Gap(p) && p + "\n" == Body(p) + Break(p)
  {
    PlainEnd(if Plain(p) then p else Body(p));
    hide Plain;
    assert Plain(p) || p == Body(p) + "\\";
  }

  lemma PlainEnd(p: string)
    requires Plain(p)
    ensures !EndsInBackslash(p)
  {
  }

  lemma BlankLead(b: string, gap: string, seen: string)
    requires Blanks(b) && (gap == " " || gap == "  ")
    ensures Blanks(b + gap) && b + Prefix(Unescape(gap + seen)) == b + gap + Prefix(Unescape(seen))
    ensures Prefix(Unescape(gap + seen)) == gap + Prefix(Unescape(seen))
  {
    BlankRead(seen, "");
    BlankRead(" " + seen, "");
    hide Prefix, Unescape;
    assert " " + (" " + seen) == "  " + seen && " " + (" " + Prefix(Unescape(seen))) == "  " + Prefix(Unescape(seen));
    Regroup(b, gap, Prefix(Unescape(seen)));
  }

  lemma NewlineFirst(raw: string, env: Environment)
    ensures Expand("\n" + raw, env) == "\n" + Expand(raw, env)
  {
    assert ("\n" + raw)[1..] == raw;
  }

  lemma NewlineRemoved(raw: string, env: Environment)
    ensures Expand("\\\n" + raw, env) == Expand(raw, env)
  {
    assert ("\\\n" + raw)[2..] == raw;
  }

  // ----- the exact condition --------------------------------------------------------------------------------

  lemma {:induction false} SilentFromExpansion(p: string, more: string)
    requires Stops(p) && '\n' !in p
    ensures Expand(p + more, SILENT) == Prefix(p)
    decreases |p|
  {
    var s := p + more;
    assert s[0] == p[0] && s[1..] == p[1..] + more;
    if |p| > 1 {
      assert p[1] in p && s[1] == p[1] && s[2..] == p[2..] + more;
    }
    if p[0] == '\\' && |p| > 1 && Escapable(p[1]) {
      SilentFromExpansion(p[2..], more);
    } else if !Expands(p[0]) {
      assert p[1..] != "";
      SilentFromExpansion(p[1..], more);
    }
  }

  /** Where splitting leaves an expansion in the first line, what is kept is decided there. */
  lemma DecidedInFirstLine(p: string, m: string, n: string)
    requires '\n' !in p && !EndsInBackslash(p) && Stops(Unescape(p))
    ensures FixedPart(Prefix(Unescape(p + m)), p + n) <==> SafeEscapes(p)
  {
    UnescapeConcat(p, m);
    PrefixStops(Unescape(p), Unescape(m));
    var kept := Prefix(Unescape(p));
    forall env: Environment
      ensures kept <= Expand(p + n, env) <==> SafeEscapes(p)
    {
      if Stops(p) {
        ExpandStops(p, n, env);
        SplitPrefixIsExact(p, (x: string) => env(x + n));
      } else {
        ExpandConcat(p, n, env);
        ExpandConcat(p, "", env);
        assert p + "" == p;
        hide Expand, Unescape, Prefix, Stops;
        assert Unescape(p) + Expand("", env) == Unescape(p) by { ExpandOfNothing(env); }
        SplitPrefixIsExact(p, env);
        PrefixIsShorter(Unescape(p));
        BeginsFront(kept, Unescape(p), Expand(n, env));
      }
    }
    assert kept <= Expand(p + n, SILENT) <==> SafeEscapes(p);
  }

  lemma ExpandOfNothing(env: Environment)
    ensures Expand("", env) == ""
  {
  }

  lemma BeginsFront(kept: string, u: string, w: string)
    requires |kept| <= |u|
    ensures kept <= u + w <==> kept <= u
  {
  }

  lemma Cancel(u: string, x: string, w: string)
    requires u + x <= u + w
    ensures x <= w
  {
    assert (u + x)[|u|..] == x && (u + w)[|u|..] == w;
  }

  /** Otherwise the blank that stands for the end of the line is kept, and never printed there. */
  lemma BlankIsWrong(p: string, gap: string, seen: string, n: string)
    requires '\n' !in p && !EndsInBackslash(p) && !Stops(Unescape(p)) && (gap == " " || gap == "  ")
    requires !(gap + Prefix(Unescape(seen)) <= Expand(n, SILENT))
    ensures !(Prefix(Unescape(p + (gap + seen))) <= Expand(p + n, SILENT))
  {
    hide Unescape, Prefix, Expand, Stops, SafeEscapes;
    var u, m := Unescape(p), gap + seen;
    UnescapeConcat(p, m);
    BlankLead(" ", gap, seen);
    UnescapeOfBlank(gap, seen);
    PrefixConcat(u, Unescape(m));
    LastCharacter(p);
    PrefixIsShorter(u);
    if Stops(p) {
      SilentFromExpansion(p, n);
      PrefixBeginsUnescape(p);
    } else {
      ExpandConcat(p, n, SILENT);
    }
    var tail := gap + Prefix(Unescape(seen));
    var v := Expand(p + n, SILENT);
    if Prefix(u) + tail <= v {
      assert Prefix(u) <= v;
      BeginsFront(Prefix(u), u, Expand(n, SILENT));
      assert Prefix(u) <= u;
      PrefixIsAll(u);
      assert v == u + Expand(n, SILENT);
      Cancel(u, tail, Expand(n, SILENT));
    }
  }

  lemma UnescapeOfBlank(gap: string, seen: string)
    requires gap == " " || gap == "  "
    ensures Unescape(gap + seen) != "" && Unescape(gap + seen)[0] == ' '
  {
    assert (gap + seen)[0] == ' ';
  }

  /** The label is on one line and safe, or splitting leaves an expansion in its first line, which is safe. */
  predicate SafeLines(ps: seq<string>)
    requires ps != []
  {
    if |ps| == 1 then SafeEscapes(ps[0]) else Stops(Unescape(Body(ps[0]))) && SafeEscapes(Body(ps[0]))
  }

  /**
   A label over any number of lines, each ending in one backslash or in none: what is kept of it
   begins what the shell prints, in every environment, if and only if its lines are safe.
   */
  lemma LabelOverLines(ps: seq<string>)
    requires TidyLines(ps)
    ensures FixedPart(Prefix(Unescape(Seen(ps))), Raw(ps)) <==> SafeLines(ps)
  {
    if |ps| == 1 {
      forall env: Environment
        ensures Prefix(Unescape(ps[0])) <= Expand(ps[0], env) <==> SafeEscapes(ps[0])
      {
        SplitPrefixIsExact(ps[0], env);
      }
      assert Prefix(Unescape(ps[0])) <= Expand(ps[0], SILENT) <==> SafeEscapes(ps[0]);
    } else {
      SeveralLines(ps);
    }
  }

  lemma SeveralLines(ps: seq<string>)
    requires TidyLines(ps) && |ps| > 1
    ensures FixedPart(Prefix(Unescape(Seen(ps))), Raw(ps)) <==> SafeLines(ps)
  {
    hide Unescape, Prefix, Expand, Stops, SafeEscapes, Plain, Body, Seen, Raw, TidyLines;
    FirstLine(ps);
    var p, rest := Body(ps[0]), ps[1..];
    var gap, n := Gap(ps[0]), Break(ps[0]) + Raw(rest);
    if Stops(Unescape(p)) {
      DecidedInFirstLine(p, gap + Seen(rest), n);
    } else {
      assert Blanks(gap);
      if Plain(ps[0]) {
        NewlineFirst(Raw(rest), SILENT);
        BlankNotNewline(gap, Prefix(Unescape(Seen(rest))), Expand(Raw(rest), SILENT));
      } else {
        NewlineRemoved(Raw(rest), SILENT);
        PushedOut(gap, rest);
      }
      BlankIsWrong(p, gap, Seen(rest), n);
    }
  }

  // ----- the joiner gives the scan this reading --------------------------------------------------------------

  lemma {:induction false} RStripConcat(a: string, b: string)
    ensures RStrip(a + b) == if RStrip(b) == "" then RStrip(a) else a + RStrip(b)
    decreases |b|
  {
    if b == "" {
      assert a + b == a;
    } else if Space(b[|b| - 1]) {
      var front := b[..|b| - 1];
      assert (a + b)[..|a + b| - 1] == a + front && (a + b)[|a + b| - 1] == b[|b| - 1];
      RStripConcat(a, front);
    } else {
      assert (a + b)[|a + b| - 1] == b[|b| - 1];
    }
  }

  lemma PlainConcat(a: string, b: string)
    requires Plain(a) && Plain(b)
    ensures Plain(a + b)
  {
    RStripConcat(a, b);
    hide RStrip;
    if RStrip(b) != "" {
      assert (a + RStrip(b))[|a + RStrip(b)| - 1] == RStrip(b)[|RStrip(b)| - 1];
    }
  }

  lemma PlainBlank()
    ensures Plain(" ")
  {
  }

  /** The line taken into the buffer goes on: no here-document begins, and a backslash or an open quote ends it. */
  ghost predicate KeepsOn(buf: string, p: string, consumed: nat, heredocs: Heredocs) {
    |heredocs(buf)| <= consumed && (Continued(p) || OpenAt(buf, |buf|) != Outside)
  }

  /** All these lines go on. */
  ghost predicate KeepOn(acc: string, ps: seq<string>, consumed: nat, heredocs: Heredocs)
    decreases |ps|
  {
    ps != [] ==> KeepsOn(acc + " " + ps[0], ps[0], consumed, heredocs)
                 && KeepOn(acc + " " + Held(ps[0]), ps[1..], consumed, heredocs)
  }

  /** What the buffer holds after one more line that ends like `p`. */
  lemma LineHeld(j: Joiner, front: string, p: string, heredocs: Heredocs)
    requires j.buf == front + p && j.buf != "" && Plain(front) && Tidy(p)
    requires KeepsOn(j.buf, p, j.consumed, heredocs)
    ensures j.Settle(heredocs) == j.(buf := front + Held(p)) && Plain(front + Held(p))
  {
    if Plain(p) {
      PlainConcat(front, p);
    } else {
      var q := Body(p);
      assert p == q + "\\";
      Regroup(front, q, "\\");
      StripsNothing(front + q);
      PlainBlank();
      PlainConcat(q, " ");
      PlainConcat(front, q + " ");
      hide RStrip, StateAt;
      Regroup(front, q, " ");
      assert (front + q + "\\")[..|front + q|] == front + q;
    }
  }

  lemma StripsNothing(a: string)
    ensures RStrip(a + "\\") == a + "\\" && EndsInBackslash(a + "\\")
  {
  }

  function Buffer(acc: string, ps: seq<string>): string
    decreases |ps|
  {
    if ps == [] then acc else Buffer(acc + " " + Held(ps[0]), ps[1..])
  }

  lemma {:induction false} LinesHeld(lines: seq<string>, k: nat, ps: seq<string>, heredocs: Heredocs)
    requires k + |ps| <= |lines| && forall i :: 0 <= i < |ps| ==> lines[k + i] == ps[i] && Tidy(ps[i])
    requires var j := After(lines, k, heredocs);
             j.terminator.None? && j.buf != "" && Plain(j.buf) && KeepOn(j.buf, ps, j.consumed, heredocs)
    ensures var j, r := After(lines, k, heredocs), After(lines, k + |ps|, heredocs);
            r.buf == Buffer(j.buf, ps) != "" && r.terminator.None? && r.out == j.out && r.pending == j.pending
    decreases |ps|
  {
    hide After, Joiner.Settle, Plain, Tidy, KeepsOn, Held;
    if ps != [] {
      var j, p := After(lines, k, heredocs), ps[0];
      OneMore(lines, k + 1, heredocs);
      assert lines[k + 0] == p;
      NextTakes(j, k + 1, p, heredocs);
      var t := j.Take(k + 1, p);
      BlankAfter(j.buf);
      LineHeld(t, j.buf + " ", p, heredocs);
      assert After(lines, k + 1, heredocs) == t.(buf := j.buf + " " + Held(p));
      var rest := ps[1..];
      forall i | 0 <= i < |rest|
        ensures lines[k + 1 + i] == rest[i] && Tidy(rest[i])
      {
        assert rest[i] == ps[i + 1] && lines[k + (i + 1)] == ps[i + 1];
      }
      LinesHeld(lines, k + 1, rest, heredocs);
    }
  }

  lemma NextTakes(j: Joiner, n: nat, line: string, heredocs: Heredocs)
    requires j.terminator.None? && j.buf != ""
    ensures j.Next(n, line, heredocs) == j.Take(n, line).Settle(heredocs)
    ensures j.Take(n, line) == j.(buf := j.buf + " " + line, members := j.members + [n])
  {
    hide Strip, Joiner.Settle;
  }

  lemma BlankAfter(a: string)
    requires Plain(a)
    ensures Plain(a + " ")
  {
    PlainBlank();
    PlainConcat(a, " ");
  }

  lemma {:induction false} BufferIsSeen(front: string, ps: seq<string>, last: string)
    requires ps != []
    ensures Buffer(front + Held(ps[0]), ps[1..]) + " " + last == front + Seen(ps + [last])
    decreases |ps|
  {
    hide Held;
    var all := ps + [last];
    assert all[0] == ps[0] && all[1..] == ps[1..] + [last];
    var next := front + Held(ps[0]) + " ";
    if |ps| == 1 {
      assert Seen(all[1..]) == last;
    } else {
      BufferIsSeen(next, ps[1..], last);
    }
    assert Buffer(front + Held(ps[0]), ps[1..]) + " " + last == next + Seen(all[1..]);
    hide Seen;
    FourParts(front, Held(ps[0]), " ", Seen(all[1..]));
  }

  lemma FourParts(a: string, b: string, c: string, d: string)
    ensures a + b + c + d == a + (b + c + d)
  {
  }

  /** A label that begins behind the opening quote on a line of its own call reaches the scan as one text. */
  lemma LabelIsJoined(lines: seq<string>, k: nat, lead: string, ps: seq<string>, last: string, tail: string, heredocs: Heredocs)
    requires ps != [] && k + |ps| < |lines| && forall i :: 0 <= i < |ps| ==> Tidy(ps[i])
    requires lines[k] == lead + "\"" + ps[0] && forall i :: 1 <= i < |ps| ==> lines[k + i] == ps[i]
    requires lines[k + |ps|] == last + ("\"" + tail)
    requires var j := After(lines, k, heredocs); j.buf == "" && !j.Skips(lines[k])
    requires KeepsOn(lines[k], ps[0], 0, heredocs) && KeepOn(lead + "\"" + Held(ps[0]), ps[1..], 0, heredocs)
    ensures var j := After(lines, k + |ps|, heredocs);
            && j.terminator.None? && j.buf != "" && j.pending == k + 1
            && j.Take(k + |ps| + 1, lines[k + |ps|]).buf == lead + "\"" + Seen(ps + [last]) + ("\"" + tail)
  {
    hide After, Joiner.Settle, Joiner.Skips, Plain, Tidy, KeepsOn, Held, Seen, Buffer;
    var j, front := After(lines, k, heredocs), lead + "\"";
    OneMore(lines, k + 1, heredocs);
    NextShape(j, k + 1, lines[k], heredocs);
    var t := j.Take(k + 1, lines[k]);
    QuoteIsPlain(lead);
    LineHeld(t, front, ps[0], heredocs);
    var held := After(lines, k + 1, heredocs);
    assert held == t.(buf := front + Held(ps[0])) by { SkipsOrNot(j, lines[k]); }
    var rest := ps[1..];
    forall i | 0 <= i < |rest|
      ensures lines[k + 1 + i] == rest[i] && Tidy(rest[i])
    {
      assert rest[i] == ps[i + 1] && lines[k + (i + 1)] == ps[i + 1];
    }
    LinesHeld(lines, k + 1, rest, heredocs);
    BufferIsSeen(front, ps, last);
    Regroup(Buffer(front + Held(ps[0]), ps[1..]) + " ", last, "\"" + tail);
  }

  lemma SkipsOrNot(j: Joiner, line: string)
    requires !j.Skips(line)
    ensures j.terminator.None?
  {
    hide Strip;
  }

  lemma QuoteIsPlain(lead: string)
    ensures Plain(lead + "\"")
  {
  }
}
