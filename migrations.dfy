/**
 * The migration runner: Migrate discovers the scripts under "migration/",
 * sorts their names and runs each through migrateFile, which records a script
 * in the migrations table and executes it in one transaction. The database is
 * abstracted to the names recorded in that table and the log of scripts whose
 * statements were executed; the SQL engine is an oracle that may fail at any
 * stage of a script's transaction.
 */
module Migrations {
  import opened Wrappers
  import opened Errors
  import opened StringOrder

  /**
   * What the database holds as far as migrations go: whether the migrations
   * table exists, the names recorded in it, and the scripts whose statements
   * took effect, in the order they ran.
   */
  datatype Store = Store(hasTable: bool, applied: set<string>, executed: seq<string>)

  /** The stages of migrateFile's transaction, in order. */
  datatype Stage =
    | Begin   // rwDB.Begin
    | Count   // SELECT COUNT(*) FROM migrations WHERE name = ?
    | Read    // fs.ReadFile of the script
    | Exec    // tx.Exec of the script's text
    | Record  // INSERT INTO migrations
    | Commit  // tx.Commit

  /** The first stage at which the engine or file system fails a script, and its error. */
  datatype Fault = Fault(stage: Stage, cause: Error)

  /** What the engine does with each script: no fault, or the first fault. */
  type Faults = string -> Option<Fault>

  // ---------------------------------------------------------------------------
  // Discovery: fs.Glob over the migration directory, then sort.Strings
  // ---------------------------------------------------------------------------

  const Directory := "migration/"
  const Extension := ".sql"

  /** path.Match of the pattern Directory, then a star, then Extension: the star matches any run of characters other than a slash. */
  predicate MatchesPattern(p: string) {
    |p| >= |Directory| + |Extension|
    && p[..|Directory|] == Directory
    && p[|p| - |Extension|..] == Extension
    && '/' !in p[|Directory|..|p| - |Extension|]
  }

  /** The matching paths are the directory, then a name with no slash, then the extension. */
  lemma MatchesPatternOf(name: string)
    ensures MatchesPattern(Directory + name + Extension) <==> '/' !in name
  {
    var p := Directory + name + Extension;
    assert p[..|Directory|] == Directory;
    assert p[|p| - |Extension|..] == Extension;
    assert p[|Directory|..|p| - |Extension|] == name;
  }

  /** The paths of the file system that match the pattern, in listing order. */
  function Glob(paths: seq<string>): (names: seq<string>)
    ensures forall p :: p in names <==> p in paths && MatchesPattern(p)
    ensures |names| <= |paths|
  {
    if paths == [] then []
    else if MatchesPattern(paths[0]) then [paths[0]] + Glob(paths[1..])
    else Glob(paths[1..])
  }

  /** Each matching path appears among the names as often as in the listing; no other path appears. */
  lemma {:induction false} GlobCount(paths: seq<string>, p: string)
    ensures multiset(Glob(paths))[p] == if MatchesPattern(p) then multiset(paths)[p] else 0
    decreases |paths|
  {
    if paths != [] {
      GlobCount(paths[1..], p);
      assert paths == [paths[0]] + paths[1..];
    }
  }

  // ---------------------------------------------------------------------------
  // migrateFile
  // ---------------------------------------------------------------------------

  /**
   * Whether a script's transaction ends in an error: failing to begin or to
   * count fails whatever is recorded; the later stages are reached only by a
   * name not yet recorded.
   */
  predicate Fails(applied: set<string>, name: string, fault: Option<Fault>) {
    fault.Some? && (fault.value.stage == Begin || fault.value.stage == Count || name !in applied)
  }

  /**
   * migrateFile: skip a recorded name, otherwise execute the script and
   * record its name; the deferred rollback undoes both on any error.
   */
  function MigrateFile(st: Store, name: string, fault: Option<Fault>): (r: (Store, Option<Error>))
    ensures r.1.Some? <==> Fails(st.applied, name, fault)
    ensures r.1.Some? ==> r.0 == st && r.1.value == fault.value.cause
    ensures r.1.None? && name in st.applied ==> r.0 == st
    ensures r.1.None? && name !in st.applied ==>
              r.0 == st.(applied := st.applied + {name}, executed := st.executed + [name])
  {
    if fault.Some? && (fault.value.stage == Begin || fault.value.stage == Count) then
      (st, Some(fault.value.cause))
    else if name in st.applied then
      (st, None)
    else if fault.Some? then
      (st, Some(fault.value.cause))
    else
      (st.(applied := st.applied + {name}, executed := st.executed + [name]), None)
  }

  // ---------------------------------------------------------------------------
  // The loop of Migrate, and a closed form for it
  // ---------------------------------------------------------------------------

  /** The scripts a run over names executes when nothing fails: each name not recorded before it. */
  function NewScripts(applied: set<string>, names: seq<string>): (run: seq<string>)
    ensures forall x :: x in run ==> x in names && x !in applied
    ensures forall x :: x in names && x !in applied ==> x in run
    decreases |names|
  {
    if names == [] then []
    else if names[0] in applied then NewScripts(applied, names[1..])
    else [names[0]] + NewScripts(applied + {names[0]}, names[1..])
  }

  /** The store after every script of names went through without error. */
  function Advance(st: Store, names: seq<string>): Store {
    st.(applied := st.applied + (set x | x in names), executed := st.executed + NewScripts(st.applied, names))
  }

  /**
   * The position of the first script whose transaction fails, each script
   * seeing the names recorded before it; None when every script goes through.
   */
  function FirstFailure(applied: set<string>, names: seq<string>, faults: Faults): (k: Option<nat>)
    ensures k.Some? ==> k.value < |names| && faults(names[k.value]).Some?
    decreases |names|
  {
    if names == [] then None
    else if Fails(applied, names[0], faults(names[0])) then Some(0)
    else match FirstFailure(applied + {names[0]}, names[1..], faults)
      case None => None
      case Some(j) => Some(j + 1)
  }

  /** The loop of Migrate: run each script in turn, stopping at the first error, which is wrapped with its name. */
  function Run(st: Store, names: seq<string>, faults: Faults): (r: (Store, Option<Error>))
    ensures FirstFailure(st.applied, names, faults).None? ==> r == (Advance(st, names), None)
    ensures FirstFailure(st.applied, names, faults).Some? ==>
              var k := FirstFailure(st.applied, names, faults).value;
              r == (Advance(st, names[..k]), Some(MigrationFailed(names[k], faults(names[k]).value.cause)))
    decreases |names|
  {
    if names == [] then
      AdvanceNone(st);
      (st, None)
    else
      var step := MigrateFile(st, names[0], faults(names[0]));
      if step.1.Some? then
        AdvanceNone(st);
        assert names[..0] == [];
        (step.0, Some(MigrationFailed(names[0], step.1.value)))
      else
        assert step.0 == MigrateFile(st, names[0], None).0;
        assert step.0.applied == st.applied + {names[0]};
        AdvanceCons(st, names);
        if FirstFailure(st.applied, names, faults).Some? then
          AdvancePrefix(st, names, faults);
          Run(step.0, names[1..], faults)
        else Run(step.0, names[1..], faults)
  }

  /** When the first script goes through, the prefix before a later failure is that script, then the rest's prefix. */
  lemma AdvancePrefix(st: Store, names: seq<string>, faults: Faults)
    requires names != [] && !Fails(st.applied, names[0], faults(names[0]))
    requires FirstFailure(st.applied, names, faults).Some?
    ensures var k := FirstFailure(st.applied, names, faults).value;
            k >= 1 && FirstFailure(st.applied + {names[0]}, names[1..], faults) == Some(k - 1) &&
            Advance(st, names[..k]) == Advance(MigrateFile(st, names[0], None).0, names[1..][..k - 1])
  {
    var k := FirstFailure(st.applied, names, faults).value;
    assert names[..k][1..] == names[1..][..k - 1];
    AdvanceCons(st, names[..k]);
  }

  /** One step of a run: the first script, then the rest only if it succeeded. */
  lemma RunCons(st: Store, names: seq<string>, faults: Faults)
    requires names != []
    ensures var step := MigrateFile(st, names[0], faults(names[0]));
      Run(st, names, faults)
        == if step.1.Some? then (step.0, Some(MigrationFailed(names[0], step.1.value)))
           else Run(step.0, names[1..], faults)
  {
  }

  lemma RunNil(st: Store, faults: Faults)
    ensures Run(st, [], faults) == (st, None)
  {
  }

  lemma AdvanceNone(st: Store)
    ensures Advance(st, []) == st
  {
    assert (set x: string | x in []) == {};
  }

  /** Advancing over a non-empty list is one step, then the rest. */
  lemma AdvanceCons(st: Store, names: seq<string>)
    requires names != []
    ensures Advance(st, names) == Advance(MigrateFile(st, names[0], None).0, names[1..])
  {
    var next := MigrateFile(st, names[0], None).0;
    assert next.applied == st.applied + {names[0]};
    assert (set x | x in names) == {names[0]} + set x | x in names[1..];
  }

  // ---------------------------------------------------------------------------
  // Properties of a run
  // ---------------------------------------------------------------------------

  /** The scripts a run executes were not recorded before, run at most once each, in the order of names. */
  lemma {:induction false} NewScriptsSubsequence(applied: set<string>, names: seq<string>)
    ensures IsSubsequence(NewScripts(applied, names), names)
    ensures forall i, j :: 0 <= i < j < |NewScripts(applied, names)| ==>
              NewScripts(applied, names)[i] != NewScripts(applied, names)[j]
    decreases |names|
  {
    if names != [] {
      if names[0] in applied {
        NewScriptsSubsequence(applied, names[1..]);
      } else {
        NewScriptsSubsequence(applied + {names[0]}, names[1..]);
        var rest := NewScripts(applied + {names[0]}, names[1..]);
        assert NewScripts(applied, names) == [names[0]] + rest;
      }
    }
  }

  /** s is s' with some elements dropped, order kept. */
  predicate IsSubsequence(s: seq<string>, t: seq<string>)
    decreases |t|
  {
    if s == [] then true
    else if t == [] then false
    else if s[0] == t[0] then IsSubsequence(s[1..], t[1..])
    else IsSubsequence(s, t[1..])
  }

  /** A subsequence of a sorted list is sorted. */
  lemma {:induction false} SubsequenceSorted(s: seq<string>, t: seq<string>)
    requires IsSubsequence(s, t) && Sorted(t)
    ensures Sorted(s)
    ensures forall x :: x in s ==> x in t
    decreases |t|
  {
    if s != [] && t != [] {
      SortedTail(t);
      if s[0] == t[0] {
        SubsequenceSorted(s[1..], t[1..]);
        forall z | z in s[1..]
          ensures LessEq(s[0], z)
        {
          SortedHeadLeast(t, z);
        }
        SortedCons(s[0], s[1..]);
        assert s == [s[0]] + s[1..];
      } else {
        SubsequenceSorted(s, t[1..]);
      }
    }
  }

  /** Over sorted names, the scripts of a run execute in sorted order. */
  lemma RunsInOrder(applied: set<string>, names: seq<string>)
    requires Sorted(names)
    ensures Sorted(NewScripts(applied, names))
  {
    NewScriptsSubsequence(applied, names);
    SubsequenceSorted(NewScripts(applied, names), names);
  }

  /** A run over names that are all recorded executes nothing. */
  lemma {:induction false} NothingNew(applied: set<string>, names: seq<string>)
    requires forall x :: x in names ==> x in applied
    ensures NewScripts(applied, names) == []
    decreases |names|
  {
    if names != [] {
      NothingNew(applied, names[1..]);
    }
  }

  /**
   * Recording more names never makes a run fail earlier: stages after the
   * count are reached by fewer scripts.
   */
  lemma {:induction false} FirstFailureMonotone(a: set<string>, b: set<string>, names: seq<string>, faults: Faults)
    requires a <= b && FirstFailure(a, names, faults).None?
    ensures FirstFailure(b, names, faults).None?
    decreases |names|
  {
    if names != [] {
      FirstFailureMonotone(a + {names[0]}, b + {names[0]}, names[1..], faults);
    }
  }

  /**
   * Running the same scripts against the same engine a second time succeeds,
   * executes no script and changes nothing.
   */
  lemma RunIdempotent(st: Store, names: seq<string>, faults: Faults)
    requires Run(st, names, faults).1.None?
    ensures Run(Run(st, names, faults).0, names, faults) == (Run(st, names, faults).0, None)
  {
    var after := Run(st, names, faults).0;
    assert FirstFailure(st.applied, names, faults).None?;
    assert after == Advance(st, names);
    FirstFailureMonotone(st.applied, after.applied, names, faults);
    NothingNew(after.applied, names);
    assert after.applied + (set x | x in names) == after.applied;
    assert Advance(after, names) == after;
  }

  /**
   * Once every script is recorded, a run succeeds and changes nothing for any
   * engine that can begin a transaction and count.
   */
  lemma {:induction false} RunAllRecorded(st: Store, names: seq<string>, faults: Faults)
    requires forall x :: x in names ==> x in st.applied
    requires forall x :: x in names && faults(x).Some? ==>
               faults(x).value.stage != Begin && faults(x).value.stage != Count
    ensures Run(st, names, faults) == (st, None)
    decreases |names|
  {
    if names != [] {
      RunAllRecorded(st, names[1..], faults);
    }
  }

  /** After a failure at position k, no script after k was attempted. */
  lemma StopsAtFirstFailure(st: Store, names: seq<string>, faults: Faults)
    requires Run(st, names, faults).1.Some?
    ensures exists k :: 0 <= k < |names| && faults(names[k]).Some? &&
              Run(st, names, faults).1 == Some(MigrationFailed(names[k], faults(names[k]).value.cause)) &&
              Run(st, names, faults).0 == Run(st, names[..k], faults).0 &&
              Run(st, names[..k], faults).1.None?
  {
    var k := FirstFailure(st.applied, names, faults).value;
    FirstFailurePrefix(st.applied, names, faults);
    assert Run(st, names[..k], faults) == (Advance(st, names[..k]), None);
  }

  /**
   * The script at the first failure does fail, given the names the scripts
   * before it recorded.
   */
  lemma {:induction false} FirstFailureFails(applied: set<string>, names: seq<string>, faults: Faults)
    requires FirstFailure(applied, names, faults).Some?
    ensures var k := FirstFailure(applied, names, faults).value;
            Fails(applied + (set x | x in names[..k]), names[k], faults(names[k]))
    decreases |names|
  {
    var k := FirstFailure(applied, names, faults).value;
    if k == 0 {
      assert (set x | x in names[..0]) == {};
    } else {
      FirstFailureFails(applied + {names[0]}, names[1..], faults);
      var before := names[1..][..k - 1];
      assert names[..k] == [names[0]] + before;
      assert (set x | x in names[..k]) == {names[0]} + set x | x in before;
    }
  }

  /**
   * A script that fails after its count leaves its name unrecorded: the
   * deferred rollback undoes the INSERT, so the next Migrate retries it.
   */
  lemma FailedScriptNotRecorded(st: Store, names: seq<string>, faults: Faults)
    requires FirstFailure(st.applied, names, faults).Some?
    requires var k := FirstFailure(st.applied, names, faults).value;
             faults(names[k]).value.stage != Begin && faults(names[k]).value.stage != Count
    ensures names[FirstFailure(st.applied, names, faults).value] !in Run(st, names, faults).0.applied
  {
    var k := FirstFailure(st.applied, names, faults).value;
    FirstFailureFails(st.applied, names, faults);
    assert Run(st, names, faults).0 == Advance(st, names[..k]);
  }

  /** The scripts before the first failure go through on their own. */
  lemma {:induction false} FirstFailurePrefix(applied: set<string>, names: seq<string>, faults: Faults)
    requires FirstFailure(applied, names, faults).Some?
    ensures FirstFailure(applied, names[..FirstFailure(applied, names, faults).value], faults).None?
    decreases |names|
  {
    var k := FirstFailure(applied, names, faults).value;
    if k > 0 {
      FirstFailurePrefix(applied + {names[0]}, names[1..], faults);
      assert names[..k][1..] == names[1..][..k - 1];
    }
  }

  // ---------------------------------------------------------------------------
  // Migrate
  // ---------------------------------------------------------------------------

  /**
   * Migrate: create the migrations table, then run the sorted matching
   * scripts. createErr is the outcome of CREATE TABLE IF NOT EXISTS.
   */
  function Migrate(st: Store, createErr: Option<Error>, paths: seq<string>, faults: Faults): (r: (Store, Option<Error>))
    ensures createErr.Some? ==> r == (st, Some(CannotCreateMigrationsTable(createErr.value)))
    ensures createErr.None? ==> r.0.hasTable
    ensures createErr.None? && r.1.None? ==>
              r.0.applied == st.applied + set p | p in paths && MatchesPattern(p)
  {
    if createErr.Some? then (st, Some(CannotCreateMigrationsTable(createErr.value)))
    else
      SortedNames(paths);
      Run(st.(hasTable := true), SortStrings(Glob(paths)), faults)
  }

  /** The sorted names are exactly the matching paths. */
  lemma SortedNames(paths: seq<string>)
    ensures forall x :: x in SortStrings(Glob(paths)) <==> x in paths && MatchesPattern(x)
  {
    var names := SortStrings(Glob(paths));
    forall x
      ensures x in names <==> x in Glob(paths)
    {
      assert x in names <==> multiset(names)[x] > 0;
      assert x in Glob(paths) <==> multiset(Glob(paths))[x] > 0;
    }
  }

  /**
   * The order in which the file system lists its entries does not matter:
   * the names are sorted before any script runs.
   */
  lemma ListingOrderIrrelevant(st: Store, createErr: Option<Error>, paths1: seq<string>, paths2: seq<string>, faults: Faults)
    requires multiset(paths1) == multiset(paths2)
    ensures Migrate(st, createErr, paths1, faults) == Migrate(st, createErr, paths2, faults)
  {
    forall p
      ensures multiset(Glob(paths1))[p] == multiset(Glob(paths2))[p]
    {
      GlobCount(paths1, p);
      GlobCount(paths2, p);
    }
    assert multiset(Glob(paths1)) == multiset(Glob(paths2));
    SortedPermutationUnique(SortStrings(Glob(paths1)), SortStrings(Glob(paths2)));
  }

  /** Migrating twice over the same files succeeds the second time and changes nothing. */
  lemma MigrateIdempotent(st: Store, paths: seq<string>, faults: Faults)
    requires Migrate(st, None, paths, faults).1.None?
    ensures Migrate(Migrate(st, None, paths, faults).0, None, paths, faults) == (Migrate(st, None, paths, faults).0, None)
  {
    var names := SortStrings(Glob(paths));
    var after := Migrate(st, None, paths, faults).0;
    RunIdempotent(st.(hasTable := true), names, faults);
    assert after.(hasTable := true) == after;
  }

  /**
   * Once a Migrate succeeded, migrating again over the same files succeeds
   * and changes nothing for any engine that can begin and count, whatever
   * it would do with the later stages.
   */
  lemma MigrateAgainAnyEngine(st: Store, paths: seq<string>, faults: Faults, later: Faults)
    requires Migrate(st, None, paths, faults).1.None?
    requires forall x :: x in paths && MatchesPattern(x) && later(x).Some? ==>
               later(x).value.stage != Begin && later(x).value.stage != Count
    ensures Migrate(Migrate(st, None, paths, faults).0, None, paths, later) == (Migrate(st, None, paths, faults).0, None)
  {
    var names := SortStrings(Glob(paths));
    var after := Migrate(st, None, paths, faults).0;
    SortedNames(paths);
    assert after.(hasTable := true) == after;
    RunAllRecorded(after, names, later);
  }

  /** A successful Migrate appends to the log the scripts of its sorted names that were not recorded. */
  lemma MigrateExecutes(st: Store, paths: seq<string>, faults: Faults)
    requires Migrate(st, None, paths, faults).1.None?
    ensures Migrate(st, None, paths, faults).0.executed
            == st.executed + NewScripts(st.applied, SortStrings(Glob(paths)))
  {
    var names := SortStrings(Glob(paths));
    var start := st.(hasTable := true);
    assert Migrate(st, None, paths, faults) == Run(start, names, faults);
    assert FirstFailure(start.applied, names, faults).None?;
  }

  /** The scripts a Migrate over a listing would execute: sorted, matching, not recorded before. */
  lemma NewScriptsOfListing(applied: set<string>, paths: seq<string>)
    ensures Sorted(NewScripts(applied, SortStrings(Glob(paths))))
    ensures forall x :: x in NewScripts(applied, SortStrings(Glob(paths))) <==>
              MatchesPattern(x) && x in paths && x !in applied
  {
    RunsInOrder(applied, SortStrings(Glob(paths)));
    SortedNames(paths);
  }

  /** A successful Migrate executes the new scripts in sorted order, each once. */
  lemma MigrateRunsNewScriptsInOrder(st: Store, paths: seq<string>, faults: Faults)
    requires Migrate(st, None, paths, faults).1.None?
    ensures var log := Migrate(st, None, paths, faults).0.executed;
            |st.executed| <= |log| && log[..|st.executed|] == st.executed &&
            Sorted(log[|st.executed|..]) &&
            (forall x :: x in log[|st.executed|..] <==> MatchesPattern(x) && x in paths && x !in st.applied)
  {
    var log := Migrate(st, None, paths, faults).0.executed;
    MigrateExecutes(st, paths, faults);
    NewScriptsOfListing(st.applied, paths);
    assert log[|st.executed|..] == NewScripts(st.applied, SortStrings(Glob(paths)));
  }
}
