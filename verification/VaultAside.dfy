/** Setting an existing vault aside before a forced restore, without losing a file. */
module VaultAside {
  import opened Wrappers

  const VAULT_NAME := "vault.db"
  const LAST_PROBE := 10_000

  datatype Error = VaultExists | NoFreeName

  function Decimal(n: nat): string {
    var last := [(n % 10) as char + '0'];
    if n < 10 then last else Decimal(n / 10) + last
  }

  function Stem(timestamp: string, n: nat): string {
    VAULT_NAME + ".replaced-" + timestamp + if n == 0 then "" else "-" + Decimal(n)
  }

  /** A database and the two files that belong to it by name. */
  datatype Names = Names(db: string, wal: string, shm: string)

  function NamesOf(stem: string): Names {
    Names(stem, stem + "-wal", stem + "-shm")
  }

  const VAULT_FILES := NamesOf(VAULT_NAME)

  predicate Taken<C>(files: map<string, C>, n: Names) {
    n.db in files || n.wal in files || n.shm in files
  }

  function NewName(name: string, aside: Names): string {
    if name == VAULT_FILES.db then aside.db
    else if name == VAULT_FILES.wal then aside.wal
    else if name == VAULT_FILES.shm then aside.shm
    else name
  }

  /** The file found under a name after the move: none under the vault's own names. */
  function OldName(name: string, aside: Names): Option<string> {
    if name == aside.db then Some(VAULT_FILES.db)
    else if name == aside.wal then Some(VAULT_FILES.wal)
    else if name == aside.shm then Some(VAULT_FILES.shm)
    else if name == VAULT_FILES.db || name == VAULT_FILES.wal || name == VAULT_FILES.shm then None
    else Some(name)
  }

  /** What every name holds once the vault's files have moved to another stem. */
  ghost predicate MovedTo<C>(files: map<string, C>, after: map<string, C>, aside: Names) {
    forall name ::
      var was := OldName(name, aside);
      if was.Some? && was.value in files then name in after && after[name] == files[was.value] else name !in after
  }

  /** Six different names. */
  predicate Apart(a: Names, b: Names) {
    && a.db != a.wal && a.db != a.shm && a.wal != a.shm
    && b.db != b.wal && b.db != b.shm && b.wal != b.shm
    && a.db != b.db && a.db != b.wal && a.db != b.shm
    && a.wal != b.db && a.wal != b.wal && a.wal != b.shm
    && a.shm != b.db && a.shm != b.wal && a.shm != b.shm
  }

  lemma StemsApart(timestamp: string, n: nat)
    ensures Apart(VAULT_FILES, NamesOf(Stem(timestamp, n)))
  {
    var base := Stem(timestamp, n);
    assert base[8] == '.' && |base| > 12;
    assert VAULT_FILES.wal[8] == '-' && VAULT_FILES.shm[8] == '-' && |VAULT_FILES.wal| == |VAULT_FILES.shm| == 12;
    assert (base + "-wal")[|base| + 1] == 'w' && (base + "-shm")[|base| + 1] == 's';
    assert VAULT_FILES.wal[9] == 'w' && VAULT_FILES.shm[9] == 's';
  }

  /** The data directory. */
  class Folder<C> {
    var files: map<string, C>

    constructor ()
      ensures files == map[]
    {
      files := map[];
    }

    method Rename(source: string, target: string)
      requires source in files && source != target
      modifies this
      ensures files == (old(files) - {source})[target := old(files)[source]]
    {
      files := (files - {source})[target := files[source]];
    }

    /** The first free stem among those probed. */
    method FreeStem(timestamp: string) returns (r: Result<string, Error>)
      ensures r.Failure? <==> forall n :: 0 <= n <= LAST_PROBE ==> Taken(files, NamesOf(Stem(timestamp, n)))
      ensures r.Failure? ==> r.error == NoFreeName
      ensures r.Success? ==> !Taken(files, NamesOf(r.value))
                             && exists n :: 0 <= n <= LAST_PROBE && r.value == Stem(timestamp, n)
                                  && forall k :: 0 <= k < n ==> Taken(files, NamesOf(Stem(timestamp, k)))
    {
      hide Stem, Taken, NamesOf;
      var n := 0;
      while Taken(files, NamesOf(Stem(timestamp, n)))
        invariant 0 <= n <= LAST_PROBE
        invariant forall k :: 0 <= k < n ==> Taken(files, NamesOf(Stem(timestamp, k)))
        decreases LAST_PROBE - n
      {
        n := n + 1;
        if n > LAST_PROBE {
          return Failure(NoFreeName);
        }
      }
      r := Success(Stem(timestamp, n));
    }

    /**
     Make room for a restore. Without an existing vault nothing moves; with one it is refused
     unless forced, and then moved to the first free stem.
     */
    method SetAside(force: bool, timestamp: string) returns (r: Result<Option<string>, Error>)
      modifies this
      ensures r == Failure(VaultExists) <==> VAULT_NAME in old(files) && !force
      ensures r == Success(None) <==> VAULT_NAME !in old(files)
      ensures r == Failure(NoFreeName) <==>
                && VAULT_NAME in old(files) && force
                && forall n :: 0 <= n <= LAST_PROBE ==> Taken(old(files), NamesOf(Stem(timestamp, n)))
      ensures r.Failure? || r.value.None? ==> files == old(files)
      ensures r.Success? && r.value.Some? ==>
                && !Taken(old(files), NamesOf(r.value.value)) && MovedTo(old(files), files, NamesOf(r.value.value))
                && exists n :: 0 <= n <= LAST_PROBE && r.value.value == Stem(timestamp, n)
    {
      hide Stem, Taken, MovedTo, NamesOf;
      if VAULT_NAME !in files {
        return Success(None);
      }
      if !force {
        return Failure(VaultExists);
      }
      var stem := FreeStem(timestamp);
      if stem.Failure? {
        return Failure(stem.error);
      }
      ghost var n: nat :| stem.value == Stem(timestamp, n);
      StemsApart(timestamp, n);
      VaultName();
      MoveTo(NamesOf(stem.value));
      r := Success(Some(stem.value));
    }

    method MoveTo(aside: Names)
      requires VAULT_FILES.db in files && !Taken(files, aside) && Apart(VAULT_FILES, aside)
      modifies this
      ensures MovedTo(old(files), files, aside)
    {
      hide VAULT_FILES, MovedTo;
      ThreeMoves(files, aside);
      Rename(VAULT_FILES.db, aside.db);
      if VAULT_FILES.wal in files {
        Rename(VAULT_FILES.wal, aside.wal);
      }
      if VAULT_FILES.shm in files {
        Rename(VAULT_FILES.shm, aside.shm);
      }
    }
  }

  function Moved<C>(files: map<string, C>, source: string, target: string): map<string, C> {
    if source in files then (files - {source})[target := files[source]] else files
  }

  lemma ThreeMoves<C>(files: map<string, C>, aside: Names)
    requires !Taken(files, aside) && Apart(VAULT_FILES, aside)
    ensures MovedTo(files, Moved(Moved(Moved(files, VAULT_FILES.db, aside.db), VAULT_FILES.wal, aside.wal), VAULT_FILES.shm, aside.shm), aside)
  {
    hide VAULT_FILES, Moved;
    var one := Moved(files, VAULT_FILES.db, aside.db);
    var two := Moved(one, VAULT_FILES.wal, aside.wal);
    MovedNames(files, VAULT_FILES.db, aside.db);
    MovedNames(one, VAULT_FILES.wal, aside.wal);
    MovedNames(two, VAULT_FILES.shm, aside.shm);
  }

  /** One move, name by name. */
  lemma MovedNames<C>(files: map<string, C>, source: string, target: string)
    requires target !in files && source != target
    ensures var after := Moved(files, source, target);
            && (forall name :: name in after <==> (name in files && name != source) || (name == target && source in files))
            && (forall name :: name in files && name != source ==> after[name] == files[name])
            && (source in files ==> after[target] == files[source])
  {
  }

  lemma VaultName()
    ensures VAULT_FILES.db == VAULT_NAME
  {
  }

  // ----- where everything goes -----------------------------------------------------------------

  lemma {:induction false} DecimalsDiffer(m: nat, n: nat)
    requires Decimal(m) == Decimal(n)
    ensures m == n
  {
    LastDigit(m);
    LastDigit(n);
    if m >= 10 && n >= 10 {
      var a, b := Decimal(m), Decimal(n);
      assert a[..|a| - 1] == Decimal(m / 10) && b[..|b| - 1] == Decimal(n / 10);
      DecimalsDiffer(m / 10, n / 10);
    }
  }

  lemma LastDigit(n: nat)
    ensures var d := Decimal(n);
            && d != "" && d[|d| - 1] as int == '0' as int + n % 10 && d[..|d| - 1] == (if n < 10 then "" else Decimal(n / 10))
  {
  }

  /** Each probe is another name: the plain one first, then numbered ones. */
  lemma StemsDiffer(timestamp: string, m: nat, n: nat)
    ensures Stem(timestamp, 0) == "vault.db.replaced-" + timestamp
    ensures n > 0 ==> Stem(timestamp, n) == "vault.db.replaced-" + timestamp + "-" + Decimal(n)
    ensures Stem(timestamp, m) == Stem(timestamp, n) ==> m == n
  {
    assert VAULT_NAME + ".replaced-" == "vault.db.replaced-";
    var base := "vault.db.replaced-" + timestamp;
    assert forall k: nat :: Stem(timestamp, k) == base + if k == 0 then "" else "-" + Decimal(k);
    hide Stem, Decimal;
    if m > 0 && n > 0 && base + ("-" + Decimal(m)) == base + ("-" + Decimal(n)) {
      assert (base + ("-" + Decimal(m)))[|base| + 1..] == Decimal(m) && (base + ("-" + Decimal(n)))[|base| + 1..] == Decimal(n);
      DecimalsDiffer(m, n);
    }
  }

  /** The database and each sidecar go to the stem with their own suffix; every other file stays. */
  lemma SidecarsFollow<C>(files: map<string, C>, after: map<string, C>, stem: string)
    requires Apart(VAULT_FILES, NamesOf(stem)) && !Taken(files, NamesOf(stem)) && MovedTo(files, after, NamesOf(stem))
    ensures "vault.db" in files ==> stem in after && after[stem] == files["vault.db"]
    ensures "vault.db-wal" in files <==> stem + "-wal" in after
    ensures "vault.db-wal" in files ==> after[stem + "-wal"] == files["vault.db-wal"]
    ensures "vault.db-shm" in files <==> stem + "-shm" in after
    ensures "vault.db-shm" in files ==> after[stem + "-shm"] == files["vault.db-shm"]
    ensures "vault.db" !in after && "vault.db-wal" !in after && "vault.db-shm" !in after
    ensures forall name ::
              name !in {"vault.db", "vault.db-wal", "vault.db-shm", stem, stem + "-wal", stem + "-shm"} ==>
                (name in files <==> name in after) && (name in files ==> after[name] == files[name])
  {
    assert VAULT_FILES == Names("vault.db", "vault.db-wal", "vault.db-shm");
  }

  // ----- nothing is lost ------------------------------------------------------------------------

  lemma NamesInvert(name: string, aside: Names)
    requires Apart(VAULT_FILES, aside)
    ensures OldName(name, aside).Some? ==> NewName(OldName(name, aside).value, aside) == name
    ensures name != aside.db && name != aside.wal && name != aside.shm ==> OldName(NewName(name, aside), aside) == Some(name)
  {
    hide VAULT_FILES;
  }

  /** Every file survives, under its own name or its new one, and nothing else appears. */
  lemma FilesAreConserved<C>(files: map<string, C>, after: map<string, C>, aside: Names)
    requires !Taken(files, aside) && Apart(VAULT_FILES, aside) && MovedTo(files, after, aside)
    ensures forall name :: name in files ==> NewName(name, aside) in after && after[NewName(name, aside)] == files[name]
    ensures forall name :: name in after ==> exists was :: was in files && NewName(was, aside) == name
    ensures |after| == |files|
  {
    hide VAULT_FILES;
    forall name | name in files
      ensures OldName(NewName(name, aside), aside) == Some(name)
      ensures NewName(name, aside) in after && after[NewName(name, aside)] == files[name]
    {
      NamesInvert(name, aside);
    }
    forall name | name in after
      ensures exists was :: was in files && NewName(was, aside) == name
    {
      NamesInvert(name, aside);
      assert OldName(name, aside).value in files;
    }
    hide MovedTo, NewName, OldName;
    SameCount(files.Keys, after.Keys, name => NewName(name, aside));
  }

  lemma {:induction false} SameCount(a: set<string>, b: set<string>, f: string -> string)
    requires forall x :: x in a ==> f(x) in b
    requires forall y :: y in b ==> exists x :: x in a && f(x) == y
    requires forall x, y :: x in a && y in a && f(x) == f(y) ==> x == y
    ensures |a| == |b|
  {
    if a != {} {
      var x :| x in a;
      forall y | y in b - {f(x)}
        ensures exists z :: z in a - {x} && f(z) == y
      {
        var z :| z in a && f(z) == y;
        assert z in a - {x};
      }
      SameCount(a - {x}, b - {f(x)}, f);
    } else {
      assert b == {};
    }
  }

  /** A vault set aside earlier, even within the same second, is not touched by a later one. */
  lemma EarlierAsidesSurvive<C>(files: map<string, C>, after: map<string, C>, timestamp: string, n: nat, name: string)
    requires !Taken(files, NamesOf(Stem(timestamp, n))) && MovedTo(files, after, NamesOf(Stem(timestamp, n)))
    requires name in files && name != VAULT_FILES.db && name != VAULT_FILES.wal && name != VAULT_FILES.shm
    ensures name in after && after[name] == files[name]
  {
    StemsApart(timestamp, n);
    hide VAULT_FILES, Stem, NamesOf;
    FilesAreConserved(files, after, NamesOf(Stem(timestamp, n)));
    assert NewName(name, NamesOf(Stem(timestamp, n))) == name;
  }

  /** The database opened next finds no sidecar of the old one, unless there was one without its database. */
  lemma NoStaleSidecar<C>(files: map<string, C>, after: map<string, C>, aside: Names)
    requires if VAULT_FILES.db in files then MovedTo(files, after, aside) && Apart(VAULT_FILES, aside) else after == files
    ensures VAULT_FILES.wal !in after && VAULT_FILES.shm !in after <==>
              VAULT_FILES.db in files || (VAULT_FILES.wal !in files && VAULT_FILES.shm !in files)
  {
    hide VAULT_FILES;
    if VAULT_FILES.db in files {
      assert OldName(VAULT_FILES.wal, aside) == None && OldName(VAULT_FILES.shm, aside) == None;
    }
  }
}
