/**
 * `seededPropertyTestFactory`: the `[generated examples]` block. At collection time it
 * loads the known seeds; then its tests run in declaration order: `new seed` (one trial
 * with a seed the checker picks), one `seed <n>` replay per known seed, and `add new seed to
 * list if any`, which stores the failed list.
 *
 * The phases are first given as functions of the store and the collaborators, then as the
 * methods of `Suite`, whose fields are the closure variables the tests share.
 */
module SeededSuite {
  import opened Wrappers
  import opened Js
  import opened KeyPattern
  import opened SpecSeeds
  import opened Serialisation
  import opened Snapshots

  /** What the block is built from. */
  datatype Env = Env(
    describePath: string,                 // full name of the block, as the runner joins it
    check: Option<int> -> CheckResult,    // checkPropertyFn: `{}` is None, `{ seed }` is Some(seed)
    parse: string -> Option<Value>,       // JSON.parse, None where it throws
    serialise: Value -> string,           // the snapshot serialiser
    format: Value -> string)              // prettyFormat(_, { min: true })

  const NewSeedTitle: string := "new seed"
  const TeardownTitle: string := "add new seed to list if any"

  /** Line 114. */
  function SeedTitle(seed: int): string {
    "seed " + IntToString(seed)
  }

  /** The full name the runner gives a test of the block: the block's name, a space, the title. */
  function FullName(env: Env, title: string): string {
    env.describePath + " " + title
  }

  /** The outcome of one test of the block. */
  datatype SubTest = SubTest(title: string, passed: bool)

  /** Line 112: `getSpecSeedsInfo` called with the `new seed` test. */
  function Load(env: Env, keys: seq<string>, file: Store): (r: Result<SeedsInfo, LoadError>)
    requires IsKeyOrder(keys, file)
    ensures r.Ok? <==> FailedListSeeds(file, SeedsName(ParentName(FullName(env, NewSeedTitle), NewSeedTitle)), env.parse).Ok?
    ensures r.Ok? ==> r.value.snapshotSeedsName == SeedsName(ParentName(FullName(env, NewSeedTitle), NewSeedTitle))
  {
    GetSpecSeedsInfo(FullName(env, NewSeedTitle), NewSeedTitle, keys, file, env.parse)
  }

  // ------------------------------------------------------------------ new seed

  /** Line 106: the snapshot name the fresh trial records a failing seed under. */
  function SeedSnapshotName(seedsName: string, seed: int): string {
    seedsName + " " + IntToString(seed)
  }

  /** What the `new seed` test leaves behind. */
  datatype Fresh = Fresh(newSeed: Option<int>, snapshotName: Option<string>, store: Store, passed: bool)

  /**
   * Lines 98-109. Nothing changes unless the trial fails; then `newSeed` is the failing seed
   * and the only record that can be written is the one named `<seeds name> <seed>`.
   */
  function FreshTrial(env: Env, info: SeedsInfo, store: Store): (r: Fresh)
    ensures env.check(None).Passed() ==> r == Fresh(None, None, store, true)
    ensures !env.check(None).Passed() ==>
      var seed := env.check(None).seed;
      var name := SeedSnapshotName(info.snapshotSeedsName, seed);
      && r.newSeed == Some(seed)
      && r.snapshotName == Some(name)
      && Extends(store, r.store)
      && r.store.Keys <= store.Keys + {SnapshotKey(name)}
  {
    var result := env.check(None);
    if result.Passed() then Fresh(None, None, store, true)
    else
      var name := SeedSnapshotName(info.snapshotSeedsName, result.seed);
      match TransformResultForSerialisation(env.format, result.AsValue().fields)
      case None => Fresh(Some(result.seed), Some(name), store, false)
      case Some(out) =>
        var a := MatchSnapshot(store, SnapshotKey(name), env.serialise(Obj(out)));
        Fresh(Some(result.seed), Some(name), a.store, a.passed)
  }

  /**
   * Lines 104-108: after a failing trial the record of the failing seed is compared or written
   * like any snapshot. When the result has no shrunk input the transform throws, the test
   * fails and nothing is written.
   */
  lemma FreshTrialRecord(env: Env, info: SeedsInfo, store: Store)
    requires !env.check(None).Passed()
    ensures var r := FreshTrial(env, info, store);
      var key := SnapshotKey(SeedSnapshotName(info.snapshotSeedsName, env.check(None).seed));
      match TransformResultForSerialisation(env.format, env.check(None).AsValue().fields)
      case None => r.store == store && !r.passed
      case Some(out) =>
        && key in r.store
        && (key !in store ==> r.store[key] == env.serialise(Obj(out)) && r.passed)
        && (key in store ==> r.store == store && (r.passed <==> store[key] == env.serialise(Obj(out))))
  {
  }

  // ------------------------------------------------------------------ seed <n>

  /** Line 120: the key under which the replay of `seed` finds its record. */
  function ReplayKey(env: Env, seed: int): string {
    SnapshotKey(FullName(env, SeedTitle(seed)))
  }

  /** Lines 143-151: the `toEqual` check, which expects `result: true`. */
  predicate ReplayExpectationHolds(result: CheckResult, seed: int, input: Value) {
    Obj(map["result" := Field(result.AsValue(), "result"), "seed" := Num(result.seed), "input" := input])
    == Obj(map["result" := Bool(true), "seed" := Num(seed), "input" := input])
  }

  /** What the `seed <n>` test leaves behind, with the record it compared against. */
  datatype Replayed = Replayed(baseline: Value, store: Store, passed: bool)

  /**
   * Lines 114-154. The baseline is the stored record, parsed, or the fresh result when that
   * record is missing or does not parse. A replay that still fails always fails its test (the
   * check expects `result: true`); one that passes fails only on a snapshot mismatch.
   */
  function Replay(env: Env, info: SeedsInfo, store: Store, seed: int): (r: Replayed)
    ensures var result := env.check(Some(seed));
      && (!result.Passed() ==> !r.passed)
      && (result.Passed() ==> (r.passed <==> MatchSnapshot(store, ReplayKey(env, seed), env.serialise(r.baseline)).passed))
    ensures var text := if ReplayKey(env, seed) in info.snapshotExports then info.snapshotExports[ReplayKey(env, seed)] else "";
      && (env.parse(text).None? ==> r.baseline == env.check(Some(seed)).AsValue())
      && (env.parse(text).Some? ==> r.baseline == env.parse(text).value)
    ensures Extends(store, r.store) && r.store.Keys == store.Keys + {ReplayKey(env, seed)}
  {
    var result := env.check(Some(seed));
    var key := ReplayKey(env, seed);
    var text := if key in info.snapshotExports then info.snapshotExports[key] else "";
    var baseline := match env.parse(text) case Some(v) => v case None => result.AsValue();
    var a := MatchSnapshot(store, key, env.serialise(baseline));
    if !a.passed then Replayed(baseline, a.store, false)
    else if result.Passed() then Replayed(baseline, a.store, true)
    else
      var input := Field(baseline, "fail");
      assert !ReplayExpectationHolds(result, seed, input) by {
        assert Field(result.AsValue(), "result") != Bool(true);
        var m := map["result" := Field(result.AsValue(), "result"), "seed" := Num(result.seed), "input" := input];
        assert m["result"] != Bool(true);
      }
      Replayed(baseline, a.store, ReplayExpectationHolds(result, seed, input))
  }

  /** The keys the replays of `seeds` look up and assert. */
  function ReplayKeys(env: Env, seeds: seq<int>): set<string>
    decreases |seeds|
  {
    if seeds == [] then {}
    else
      ReplayKeys(env, seeds[..|seeds| - 1]) + {ReplayKey(env, seeds[|seeds| - 1])}
  }

  /**
   * Lines 128-137: a record the block wrote itself, read back and serialised again, matches
   * itself, so the replay of a seed with such a record passes exactly when the property now
   * holds for that seed, and the store stays as it was.
   */
  lemma ReplayAgainstOwnRecord(env: Env, info: SeedsInfo, store: Store, seed: int, v: Value)
    requires ReplayKey(env, seed) in info.snapshotExports && ReplayKey(env, seed) in store
    requires store[ReplayKey(env, seed)] == info.snapshotExports[ReplayKey(env, seed)]
    requires env.parse(store[ReplayKey(env, seed)]) == Some(v) && env.serialise(v) == store[ReplayKey(env, seed)]
    ensures Replay(env, info, store, seed).passed <==> env.check(Some(seed)).Passed()
    ensures Replay(env, info, store, seed).store == store
  {
  }

  /**
   * A seed without a record (for instance one only the failed list names) is replayed
   * against its own fresh result, which is written as its record; the test passes exactly
   * when the property now holds.
   */
  lemma ReplayWithoutRecord(env: Env, info: SeedsInfo, store: Store, seed: int)
    requires ReplayKey(env, seed) !in info.snapshotExports && ReplayKey(env, seed) !in store
    requires env.parse("") == None
    ensures Replay(env, info, store, seed).passed <==> env.check(Some(seed)).Passed()
    ensures Replay(env, info, store, seed).store
            == store[ReplayKey(env, seed) := env.serialise(env.check(Some(seed)).AsValue())]
  {
  }

  /** The store and the outcomes after the replays of `seeds`, run in order. */
  datatype Replays = Replays(store: Store, tests: seq<SubTest>)

  /** Line 113: one replay per seed, in the order of the seeds. */
  function ReplayAll(env: Env, info: SeedsInfo, store: Store, seeds: seq<int>): (r: Replays)
    ensures |r.tests| == |seeds| && Extends(store, r.store)
    decreases |seeds|
  {
    if seeds == [] then Replays(store, [])
    else
      var prev := ReplayAll(env, info, store, seeds[..|seeds| - 1]);
      var one := Replay(env, info, prev.store, seeds[|seeds| - 1]);
      ExtendsTransitive(store, prev.store, one.store);
      Replays(one.store, prev.tests + [SubTest(SeedTitle(seeds[|seeds| - 1]), one.passed)])
  }

  /** Each replay's test is titled with its seed, in the order of the seeds. */
  lemma {:induction false} ReplayAllTitles(env: Env, info: SeedsInfo, store: Store, seeds: seq<int>)
    ensures var r := ReplayAll(env, info, store, seeds);
      forall i :: 0 <= i < |seeds| ==> r.tests[i].title == SeedTitle(seeds[i])
    decreases |seeds|
  {
    if seeds != [] {
      var init := seeds[..|seeds| - 1];
      ReplayAllTitles(env, info, store, init);
      var prev := ReplayAll(env, info, store, init);
      var tests := ReplayAll(env, info, store, seeds).tests;
      SplitLast(seeds);
      assert forall i :: 0 <= i < |init| ==> tests[i] == prev.tests[i] && seeds[i] == init[i];
    }
  }

  /** One more seed: the replays of `seeds + [seed]` are those of `seeds`, then that seed's. */
  lemma ReplayAllSnoc(env: Env, info: SeedsInfo, store: Store, seeds: seq<int>, seed: int)
    ensures var prev := ReplayAll(env, info, store, seeds);
      var one := Replay(env, info, prev.store, seed);
      ReplayAll(env, info, store, seeds + [seed]) == Replays(one.store, prev.tests + [SubTest(SeedTitle(seed), one.passed)])
  {
    assert (seeds + [seed])[..|seeds|] == seeds;
  }

  /** The replays of the first `i + 1` seeds are those of the first `i`, then the replay of
      seed `i`. */
  lemma ReplayAllStep(env: Env, info: SeedsInfo, store: Store, seeds: seq<int>, i: nat)
    requires i < |seeds|
    ensures var prev := ReplayAll(env, info, store, seeds[..i]);
      var one := Replay(env, info, prev.store, seeds[i]);
      ReplayAll(env, info, store, seeds[..i + 1]) == Replays(one.store, prev.tests + [SubTest(SeedTitle(seeds[i]), one.passed)])
  {
    TakeSnoc(seeds, i);
    ReplayAllSnoc(env, info, store, seeds[..i], seeds[i]);
  }

  /** A replay test passes only for a seed on which the property now holds. */
  lemma {:induction false} ReplayAllPassedOnlyIfFixed(env: Env, info: SeedsInfo, store: Store, seeds: seq<int>)
    ensures var r := ReplayAll(env, info, store, seeds);
      forall i :: 0 <= i < |seeds| && r.tests[i].passed ==> env.check(Some(seeds[i])).Passed()
    decreases |seeds|
  {
    if seeds != [] {
      var init := seeds[..|seeds| - 1];
      ReplayAllPassedOnlyIfFixed(env, info, store, init);
      ReplayAllSnoc(env, info, store, init, seeds[|seeds| - 1]);
      SplitLast(seeds);
    }
  }

  /** The replays add exactly the records they look up: one per seed, none other. */
  lemma {:induction false} ReplayAllKeys(env: Env, info: SeedsInfo, store: Store, seeds: seq<int>)
    ensures ReplayAll(env, info, store, seeds).store.Keys == store.Keys + ReplayKeys(env, seeds)
    decreases |seeds|
  {
    if seeds != [] {
      var init := seeds[..|seeds| - 1];
      var seed := seeds[|seeds| - 1];
      SplitLast(seeds);
      ReplayAllKeys(env, info, store, init);
    }
  }

  // ------------------------------------------------------------------ add new seed to list if any

  /**
   * Lines 158-165: the list to store is the loaded seeds, followed by `newSeed` when that
   * is truthy, and nothing else; it is not deduplicated here.
   */
  function TeardownList(seeds: seq<int>, newSeed: Option<int>): (r: seq<int>)
    ensures seeds <= r
    ensures |r| == |seeds| + 1 <==> newSeed.Some? && newSeed.value != 0
    ensures |r| == |seeds| + 1 ==> r[|seeds|] == newSeed.value
    ensures |r| != |seeds| + 1 ==> r == seeds
  {
    if newSeed.Some? && Truthy(Num(newSeed.value)) then seeds + [newSeed.value] else seeds
  }

  /** Spreading the array a list of seeds is stored as gives the list back. */
  lemma SpreadSeedListValue(seeds: seq<int>)
    ensures SpreadSeeds(SeedListValue(seeds)) == Ok(seeds)
  {
    var v := SeedListValue(seeds);
    assert Integers(v.items).Some?;
    assert Integers(v.items).value == seeds;
  }

  /** Line 166: the key the failed list is stored under. */
  function TeardownKey(info: SeedsInfo): string {
    SnapshotKey(info.snapshotSeedsName + " failed list")
  }

  /** Lines 157-167. */
  function Teardown(env: Env, info: SeedsInfo, newSeed: Option<int>, store: Store): (r: Assertion)
    ensures Extends(store, r.store) && r.store.Keys == store.Keys + {TeardownKey(info)}
    ensures TeardownKey(info) !in store ==>
      r.passed && r.store[TeardownKey(info)] == env.serialise(SeedListValue(TeardownList(info.snapshotSeeds, newSeed)))
    ensures TeardownKey(info) in store ==>
      r.store == store
      && (r.passed <==> store[TeardownKey(info)] == env.serialise(SeedListValue(TeardownList(info.snapshotSeeds, newSeed))))
  {
    MatchSnapshot(store, TeardownKey(info), env.serialise(SeedListValue(TeardownList(info.snapshotSeeds, newSeed))))
  }

  /**
   * Reading the stored list back (lines 53-57 on a list the teardown stored) gives the
   * loaded seeds, plus `newSeed` at the end when it is truthy and was not among them.
   */
  lemma {:induction false} ReloadTeardownList(seeds: seq<int>, newSeed: Option<int>)
    requires NoDuplicates(seeds)
    ensures var extra := if newSeed.Some? && newSeed.value != 0 && newSeed.value !in seeds then [newSeed.value] else [];
      Distinct(TeardownList(seeds, newSeed)) == seeds + extra
    ensures forall n :: n in Distinct(TeardownList(seeds, newSeed)) <==>
      n in seeds || (newSeed.Some? && newSeed.value != 0 && n == newSeed.value)
  {
    DistinctOfUnique(seeds);
    var list := TeardownList(seeds, newSeed);
    if list != seeds {
      assert list == seeds + [newSeed.value];
      assert list[..|list| - 1] == seeds;
    }
  }

  /** The steps of a block whose load succeeds, one after the other. */
  lemma RunSuiteSteps(env: Env, keys: seq<string>, file: Store)
    requires IsKeyOrder(keys, file) && Load(env, keys, file).Ok?
    ensures var info := Load(env, keys, file).value;
      var trial := FreshTrial(env, info, file);
      var replays := ReplayAll(env, info, trial.store, info.snapshotSeeds);
      var last := Teardown(env, info, trial.newSeed, replays.store);
      RunSuite(env, keys, file)
      == Ok(Run(info, trial.newSeed, last.store,
                [SubTest(NewSeedTitle, trial.passed)] + replays.tests + [SubTest(TeardownTitle, last.passed)]))
  {
  }

  // ------------------------------------------------------------------ how the records meet

  /** The teardown stores its list under the very key the next load reads the failed list from. */
  lemma TeardownKeyIsFailedListKey(info: SeedsInfo)
    ensures TeardownKey(info) == FailedListKey(info.snapshotSeedsName)
  {
    assert (info.snapshotSeedsName + " failed list") + " 1" == info.snapshotSeedsName + " failed list 1";
  }

  /** The record the fresh trial writes for `seed` is the one the replay of `seed` reads. */
  lemma FreshKeyIsReplayKey(env: Env, seed: int)
    ensures SnapshotKey(SeedSnapshotName(SeedsName(env.describePath), seed)) == ReplayKey(env, seed)
  {
    var p, d := env.describePath, IntToString(seed);
    assert ((p + " seed") + " " + d) + " 1" == (p + " " + ("seed " + d)) + " 1";
  }

  /** A seed's record never takes the failed list's key: they differ right after the seeds name,
      where a number begins with a digit or a minus sign and the other key with `f`. */
  lemma SeedKeyIsNotFailedListKey(seedsName: string, seed: int)
    ensures SnapshotKey(SeedSnapshotName(seedsName, seed)) != FailedListKey(seedsName)
  {
    var k := SnapshotKey(SeedSnapshotName(seedsName, seed));
    var i := |seedsName| + 1;
    assert k[i] == IntToString(seed)[0];
    assert FailedListKey(seedsName)[i] == 'f';
  }

  /** Loading finds the seed a record was written for again, when the seed is truthy and
      positive and the seeds name is one line. */
  lemma SeedKeyNamesSeed(seedsName: string, seed: int)
    requires seedsName != [] && NoLineTerminator(seedsName) && seed > 0
    ensures SeedOfKey(SnapshotKey(SeedSnapshotName(seedsName, seed)), seedsName) == Some(seed)
  {
    SeedsNameBeginsSeedKey(seedsName, seed);
    CapturedSeedOfKey(seedsName, seed);
  }

  /** A seed's record key begins with the seeds name. */
  lemma SeedsNameBeginsSeedKey(seedsName: string, seed: int)
    ensures seedsName <= SnapshotKey(SeedSnapshotName(seedsName, seed))
  {
    var k := SnapshotKey(SeedSnapshotName(seedsName, seed));
    assert k[..|seedsName|] == seedsName;
  }

  /**
   * The block's own name is what line 15 recovers from the `new seed` test when it has no white
   * space at either end and `new seed` does not occur in it (nor across its end).
   */
  predicate WellNamed(env: Env) {
    && IsTrimmed(env.describePath)
    && IndexOf(FullName(env, NewSeedTitle), NewSeedTitle) == Some(|env.describePath| + 1)
  }

  /** For a well-named block the seeds are kept under `<block name> seed`. */
  lemma LoadedSeedsName(env: Env, keys: seq<string>, file: Store)
    requires IsKeyOrder(keys, file) && WellNamed(env) && Load(env, keys, file).Ok?
    ensures Load(env, keys, file).value.parentName == env.describePath
    ensures Load(env, keys, file).value.snapshotSeedsName == SeedsName(env.describePath)
  {
    ParentNameOfTest(env.describePath, NewSeedTitle);
  }

  // ------------------------------------------------------------------ the whole block

  /** One execution of the block: what was loaded, the new seed, the store afterwards and the
      outcomes of its tests in the order they ran. */
  datatype Run = Run(info: SeedsInfo, newSeed: Option<int>, store: Store, tests: seq<SubTest>)

  /** The titles of the block's tests, `new seed` first and the teardown last. */
  lemma BlockTitles(first: SubTest, mid: seq<SubTest>, last: SubTest, seeds: seq<int>)
    requires |mid| == |seeds| && forall i :: 0 <= i < |seeds| ==> mid[i].title == SeedTitle(seeds[i])
    ensures var tests := [first] + mid + [last];
      && |tests| == |seeds| + 2 && tests[0] == first && tests[|seeds| + 1] == last
      && forall i :: 0 <= i < |seeds| ==> tests[i + 1].title == SeedTitle(seeds[i])
  {
    MiddleOfThree(first, mid, last);
  }

  /**
   * The block from collection to its last test, for a block whose load succeeds. A load error
   * is returned as it is; what the test runner then still runs is not part of this function.
   */
  function RunSuite(env: Env, keys: seq<string>, file: Store): (r: Result<Run, LoadError>)
    requires IsKeyOrder(keys, file)
    ensures r.Ok? <==> Load(env, keys, file).Ok?
    ensures r.Ok? ==> r.value.info == Load(env, keys, file).value
  {
    match Load(env, keys, file)
    case Err(e) => Err(e)
    case Ok(info) =>
      var trial := FreshTrial(env, info, file);
      var replays := ReplayAll(env, info, trial.store, info.snapshotSeeds);
      var last := Teardown(env, info, trial.newSeed, replays.store);
      Ok(Run(info, trial.newSeed, last.store,
             [SubTest(NewSeedTitle, trial.passed)] + replays.tests + [SubTest(TeardownTitle, last.passed)]))
  }

  /**
   * Every known seed has a test of its own, between `new seed` and the teardown, and the
   * store only gains records.
   */
  lemma RunSuiteTests(env: Env, keys: seq<string>, file: Store)
    requires IsKeyOrder(keys, file) && RunSuite(env, keys, file).Ok?
    ensures var run := RunSuite(env, keys, file).value;
      var seeds := run.info.snapshotSeeds;
      && |run.tests| == |seeds| + 2
      && run.tests[0].title == NewSeedTitle
      && (forall i :: 0 <= i < |seeds| ==> run.tests[i + 1].title == SeedTitle(seeds[i]))
      && run.tests[|seeds| + 1].title == TeardownTitle
      && Extends(file, run.store)
  {
    var info := Load(env, keys, file).value;
    var trial := FreshTrial(env, info, file);
    var replays := ReplayAll(env, info, trial.store, info.snapshotSeeds);
    var last := Teardown(env, info, trial.newSeed, replays.store);
    RunSuiteSteps(env, keys, file);
    ExtendsTransitive(file, trial.store, replays.store);
    ExtendsTransitive(file, replays.store, last.store);
    ReplayAllTitles(env, info, trial.store, info.snapshotSeeds);
    BlockTitles(SubTest(NewSeedTitle, trial.passed), replays.tests, SubTest(TeardownTitle, last.passed), info.snapshotSeeds);
  }

  // ------------------------------------------------------------------ from one run to the next

  /** The serialiser writes a list of seeds as text that `JSON.parse` reads back as that list
      (the snapshot serialiser prints arrays as JSON). */
  ghost predicate ReadsBackSeedLists(env: Env) {
    forall seeds: seq<int> :: env.parse(env.serialise(SeedListValue(seeds))) == Some(SeedListValue(seeds))
  }

  /** A replay never looks up a failed list's key, whatever the names: before the final ` 1`
      the replay key ends in a digit of the seed and the failed list's key in `t`. */
  lemma ReplayKeyIsNotFailedListKey(env: Env, seed: int, seedsName: string)
    ensures ReplayKey(env, seed) != FailedListKey(seedsName)
  {
    var d := IntToString(seed);
    var k := ReplayKey(env, seed);
    var f := FailedListKey(seedsName);
    IntToStringEndsInDigit(seed);
    if |k| == |f| {
      assert k[|k| - 3] == d[|d| - 1];
      assert f[|f| - 3] == 't';
    }
  }

  /** None of the replays of a block touches a failed list's record. */
  lemma {:induction false} FailedListNotReplayed(env: Env, seeds: seq<int>, seedsName: string)
    ensures FailedListKey(seedsName) !in ReplayKeys(env, seeds)
    decreases |seeds|
  {
    if seeds != [] {
      FailedListNotReplayed(env, seeds[..|seeds| - 1], seedsName);
      ReplayKeyIsNotFailedListKey(env, seeds[|seeds| - 1], seedsName);
    }
  }

  /** A seed named by a key is still named by it in a store that keeps every record. */
  lemma KeySeedKept(keys: seq<string>, store: Store, keys': seq<string>, store': Store, seedsName: string, n: int)
    requires IsKeyOrder(keys, store) && IsKeyOrder(keys', store') && Extends(store, store')
    requires n in KeySeeds(keys, seedsName)
    ensures n in KeySeeds(keys', seedsName)
  {
    KeySeedsExactly(keys, seedsName, n);
    var k :| k in keys && SeedOfKey(k, seedsName) == Some(n);
    assert k in store';
    KeySeedsExactly(keys', seedsName, n);
  }

  /** The teardown's list, written where there was none, reads back as that list. */
  lemma TeardownWritesList(env: Env, info: SeedsInfo, newSeed: Option<int>, store: Store)
    requires ReadsBackSeedLists(env) && FailedListKey(info.snapshotSeedsName) !in store
    ensures FailedListSeeds(Teardown(env, info, newSeed, store).store, info.snapshotSeedsName, env.parse)
            == Ok(TeardownList(info.snapshotSeeds, newSeed))
  {
    TeardownKeyIsFailedListKey(info);
    var list := TeardownList(info.snapshotSeeds, newSeed);
    assert env.parse(env.serialise(SeedListValue(list))) == Some(SeedListValue(list));
    SpreadSeedListValue(list);
  }

  /** Where a failed list is stored already, the teardown leaves it as it was. */
  lemma TeardownKeepsList(env: Env, info: SeedsInfo, newSeed: Option<int>, store: Store)
    requires FailedListKey(info.snapshotSeedsName) in store
    ensures Teardown(env, info, newSeed, store).store[FailedListKey(info.snapshotSeedsName)]
            == store[FailedListKey(info.snapshotSeedsName)]
  {
    TeardownKeyIsFailedListKey(info);
  }

  /** Before the teardown, the new seed's test and the replays leave the failed list's record
      as they found it: absent or unchanged. */
  lemma FailedListBeforeTeardown(env: Env, info: SeedsInfo, file: Store)
    ensures var trial := FreshTrial(env, info, file);
      var replays := ReplayAll(env, info, trial.store, info.snapshotSeeds);
      var key := FailedListKey(info.snapshotSeedsName);
      (key in replays.store <==> key in file) && (key in file ==> replays.store[key] == file[key])
  {
    var trial := FreshTrial(env, info, file);
    var replays := ReplayAll(env, info, trial.store, info.snapshotSeeds);
    var key := FailedListKey(info.snapshotSeedsName);
    if !env.check(None).Passed() {
      SeedKeyIsNotFailedListKey(info.snapshotSeedsName, env.check(None).seed);
    }
    ReplayAllKeys(env, info, trial.store, info.snapshotSeeds);
    FailedListNotReplayed(env, info.snapshotSeeds, info.snapshotSeedsName);
    ExtendsTransitive(file, trial.store, replays.store);
  }

  /**
   * What the next load reads as the failed list after a run: the list the teardown wrote when
   * there was none, and otherwise the old list, which the teardown only compares against and
   * never overwrites.
   */
  lemma FailedListAfterRun(env: Env, keys: seq<string>, file: Store)
    requires IsKeyOrder(keys, file) && ReadsBackSeedLists(env)
    requires RunSuite(env, keys, file).Ok?
    ensures var run := RunSuite(env, keys, file).value;
      var seedsName := run.info.snapshotSeedsName;
      && (FailedListKey(seedsName) in file ==>
            FailedListSeeds(run.store, seedsName, env.parse) == FailedListSeeds(file, seedsName, env.parse))
      && (FailedListKey(seedsName) !in file ==>
            FailedListSeeds(run.store, seedsName, env.parse) == Ok(TeardownList(run.info.snapshotSeeds, run.newSeed)))
  {
    var info := Load(env, keys, file).value;
    var trial := FreshTrial(env, info, file);
    var replays := ReplayAll(env, info, trial.store, info.snapshotSeeds);
    var run := RunSuite(env, keys, file).value;
    assert run.store == Teardown(env, info, trial.newSeed, replays.store).store;
    assert run.newSeed == trial.newSeed;
    FailedListBeforeTeardown(env, info, file);
    if FailedListKey(info.snapshotSeedsName) in file {
      TeardownKeepsList(env, info, trial.newSeed, replays.store);
    } else {
      TeardownWritesList(env, info, trial.newSeed, replays.store);
    }
  }



  /** The seeds name of a one-line parent name is one line. */
  lemma SeedsNameOneLine(parentName: string)
    requires NoLineTerminator(parentName)
    ensures SeedsName(parentName) != [] && NoLineTerminator(SeedsName(parentName))
  {
    var p := parentName;
    assert forall i :: |p| <= i < |p| + 5 ==> SeedsName(p)[i] == " seed"[i - |p|];
  }

  /** Every load of a block keeps its seeds under the same name. */
  lemma LoadsShareSeedsName(env: Env, keys: seq<string>, file: Store, keys': seq<string>, file': Store)
    requires IsKeyOrder(keys, file) && IsKeyOrder(keys', file')
    requires Load(env, keys, file).Ok? && Load(env, keys', file').Ok?
    ensures Load(env, keys, file).value.snapshotSeedsName == Load(env, keys', file').value.snapshotSeedsName
    ensures Load(env, keys, file).value.parentName == Load(env, keys', file').value.parentName
  {
  }

  /**
   * The seed corpus never shrinks: loading the store a run leaves behind gives back every seed
   * that run loaded. Where the block had no failed list yet, the reloaded seeds even begin with
   * the loaded seeds, in their order, followed by the new seed when it is truthy and new.
   */
  lemma CorpusNeverShrinks(env: Env, keys: seq<string>, file: Store, keys': seq<string>)
    requires IsKeyOrder(keys, file) && ReadsBackSeedLists(env)
    requires RunSuite(env, keys, file).Ok? && IsKeyOrder(keys', RunSuite(env, keys, file).value.store)
    ensures var run := RunSuite(env, keys, file).value;
      var next := Load(env, keys', run.store);
      && next.Ok?
      && (forall n :: n in run.info.snapshotSeeds ==> n in next.value.snapshotSeeds)
    ensures var run := RunSuite(env, keys, file).value;
      var next := Load(env, keys', run.store);
      var seeds := run.info.snapshotSeeds;
      var extra := if run.newSeed.Some? && run.newSeed.value != 0 && run.newSeed.value !in seeds
                   then [run.newSeed.value] else [];
      FailedListKey(run.info.snapshotSeedsName) !in file ==> next.Ok? && seeds + extra <= next.value.snapshotSeeds
  {
    var run := RunSuite(env, keys, file).value;
    var seeds := run.info.snapshotSeeds;
    var seedsName := run.info.snapshotSeedsName;
    RunSuiteTests(env, keys, file);
    FailedListAfterRun(env, keys, file);
    var next := Load(env, keys', run.store);
    assert next.Ok?;
    LoadsShareSeedsName(env, keys, file, keys', run.store);
    forall n | n in seeds
      ensures n in next.value.snapshotSeeds
    {
      if n in KeySeeds(keys, seedsName) {
        KeySeedKept(keys, file, keys', run.store, seedsName, n);
      }
    }
    if FailedListKey(seedsName) !in file {
      ReloadTeardownList(seeds, run.newSeed);
    }
  }

  /** The new seed of a run is the trial's, and every record the trial left is kept to the end. */
  lemma RunKeepsTrial(env: Env, keys: seq<string>, file: Store)
    requires IsKeyOrder(keys, file) && Load(env, keys, file).Ok?
    ensures var trial := FreshTrial(env, Load(env, keys, file).value, file);
      && RunSuite(env, keys, file).value.newSeed == trial.newSeed
      && Extends(trial.store, RunSuite(env, keys, file).value.store)
  {
    var info := Load(env, keys, file).value;
    var trial := FreshTrial(env, info, file);
    var replays := ReplayAll(env, info, trial.store, info.snapshotSeeds);
    var last := Teardown(env, info, trial.newSeed, replays.store);
    RunSuiteSteps(env, keys, file);
    ExtendsTransitive(trial.store, replays.store, last.store);
  }

  /** A store holding the record of a positive seed names that seed through its keys. */
  lemma SeedRecordNamesSeed(keys: seq<string>, store: Store, seedsName: string, n: int)
    requires IsKeyOrder(keys, store) && seedsName != [] && NoLineTerminator(seedsName) && n > 0
    requires SnapshotKey(SeedSnapshotName(seedsName, n)) in store
    ensures n in KeySeeds(keys, seedsName)
  {
    SeedKeyNamesSeed(seedsName, n);
    KeySeedsExactly(keys, seedsName, n);
  }

  /**
   * A truthy, positive new seed is in the corpus the next run loads: through the failed list
   * when the block had none, and otherwise through the record the fresh trial wrote for it
   * (the failed list, already stored, is only compared against).
   */
  lemma NewSeedPersisted(env: Env, keys: seq<string>, file: Store, keys': seq<string>)
    requires IsKeyOrder(keys, file) && ReadsBackSeedLists(env)
    requires RunSuite(env, keys, file).Ok? && IsKeyOrder(keys', RunSuite(env, keys, file).value.store)
    requires RunSuite(env, keys, file).value.newSeed.Some? && RunSuite(env, keys, file).value.newSeed.value > 0
    requires FailedListKey(RunSuite(env, keys, file).value.info.snapshotSeedsName) !in file
             || (NoLineTerminator(RunSuite(env, keys, file).value.info.parentName)
                 && TransformResultForSerialisation(env.format, env.check(None).AsValue().fields).Some?)
    ensures var run := RunSuite(env, keys, file).value;
      var next := Load(env, keys', run.store);
      next.Ok? && run.newSeed.value in next.value.snapshotSeeds
  {
    var run := RunSuite(env, keys, file).value;
    var n := run.newSeed.value;
    var seedsName := run.info.snapshotSeedsName;
    CorpusNeverShrinks(env, keys, file, keys');
    var next := Load(env, keys', run.store);
    if FailedListKey(seedsName) in file {
      var info := Load(env, keys, file).value;
      RunKeepsTrial(env, keys, file);
      FreshTrialRecord(env, info, file);
      SeedsNameOneLine(info.parentName);
      SeedRecordNamesSeed(keys', run.store, seedsName, n);
      LoadsShareSeedsName(env, keys, file, keys', run.store);
    } else if n !in run.info.snapshotSeeds {
      var seeds := run.info.snapshotSeeds;
      assert (seeds + [n])[|seeds|] == n;
    }
  }
}
