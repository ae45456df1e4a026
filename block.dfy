/**
 * The `[generated examples]` block as the test runner executes it: the variables its tests
 * share become the fields of `Block`, and each phase a method that updates them. Each method
 * is proved against the function of `SeededSuite` that describes the same phase.
 */
module GeneratedExamples {
  import opened Wrappers
  import opened SpecSeeds
  import opened Snapshots
  import opened SeededSuite

  class Block {
    /** The checker, the parser and the serialisers the block was built with. */
    const env: Env
    /** The snapshot file as it was when the block was collected, and its keys in order. */
    const file: Store
    const keys: seq<string>

    /** The closure variables of lines 94-96. */
    var specSeedsInfo: Option<SeedsInfo>
    var newSeed: Option<int>
    var newSeedSnapshotName: Option<string>

    /** The snapshot records as the tests have left them so far. */
    var snapshots: Store
    /** The outcomes of the tests that have run, in order. */
    var tests: seq<SubTest>

    /** The keys are those of the file, and the records only ever gain entries. */
    predicate Valid()
      reads this`snapshots
    {
      IsKeyOrder(keys, file) && Extends(file, snapshots)
    }

    constructor(env: Env, keys: seq<string>, file: Store)
      requires IsKeyOrder(keys, file)
      ensures Valid()
      ensures this.env == env && this.keys == keys && this.file == file
      ensures specSeedsInfo == None && newSeed == None && newSeedSnapshotName == None
      ensures snapshots == file && tests == []
    {
      this.env := env;
      this.keys := keys;
      this.file := file;
      specSeedsInfo := None;
      newSeed := None;
      newSeedSnapshotName := None;
      snapshots := file;
      tests := [];
    }

    /** Line 112, run while the block is collected; a load error is returned and leaves the
        seeds info unset. */
    method Collect() returns (err: Option<LoadError>)
      requires Valid() && specSeedsInfo.None?
      modifies this`specSeedsInfo
      ensures match Load(env, keys, file)
        case Ok(info) => err == None && specSeedsInfo == Some(info)
        case Err(e) => err == Some(e) && specSeedsInfo == None
    {
      var loaded := Load(env, keys, file);
      match loaded
      case Ok(info) =>
        specSeedsInfo := Some(info);
        err := None;
      case Err(e) =>
        err := Some(e);
    }

    /** Lines 98-109: the `new seed` test. A passing trial leaves every field as it was. */
    method RunNewSeed()
      requires Valid() && specSeedsInfo.Some?
      modifies this`newSeed, this`newSeedSnapshotName, this`snapshots, this`tests
      ensures Valid()
      ensures var f := FreshTrial(env, specSeedsInfo.value, old(snapshots));
        && newSeed == (if f.newSeed.Some? then f.newSeed else old(newSeed))
        && newSeedSnapshotName == (if f.snapshotName.Some? then f.snapshotName else old(newSeedSnapshotName))
        && snapshots == f.store
        && tests == old(tests) + [SubTest(NewSeedTitle, f.passed)]
    {
      var info := specSeedsInfo.value;
      var result := env.check(None);
      var passed := true;
      if !result.Passed() {
        newSeed := Some(result.seed);
        var name := SeedSnapshotName(info.snapshotSeedsName, result.seed);
        newSeedSnapshotName := Some(name);
        match Serialisation.TransformResultForSerialisation(env.format, result.AsValue().fields)
        case None =>
          passed := false;
        case Some(out) =>
          var a := MatchSnapshot(snapshots, SnapshotKey(name), env.serialise(Js.Obj(out)));
          snapshots := a.store;
          passed := a.passed;
      }
      tests := tests + [SubTest(NewSeedTitle, passed)];
    }

    /** Lines 114-154: the `seed <n>` test. */
    method RunSeed(seed: int) returns (passed: bool)
      requires Valid() && specSeedsInfo.Some?
      modifies this`snapshots, this`tests
      ensures Valid()
      ensures var r := Replay(env, specSeedsInfo.value, old(snapshots), seed);
        && snapshots == r.store && passed == r.passed
        && tests == old(tests) + [SubTest(SeedTitle(seed), passed)]
    {
      var r := Replay(env, specSeedsInfo.value, snapshots, seed);
      ExtendsTransitive(file, snapshots, r.store);
      snapshots := r.store;
      passed := r.passed;
      tests := tests + [SubTest(SeedTitle(seed), passed)];
    }

    /** Line 113: one replay per loaded seed, in the order of the seeds. */
    method RunSeeds()
      requires Valid() && specSeedsInfo.Some?
      modifies this`snapshots, this`tests
      ensures Valid()
      ensures var rs := ReplayAll(env, specSeedsInfo.value, old(snapshots), specSeedsInfo.value.snapshotSeeds);
        snapshots == rs.store && tests == old(tests) + rs.tests
    {
      var info := specSeedsInfo.value;
      var seeds := info.snapshotSeeds;
      ghost var store0, tests0 := snapshots, tests;
      var i := 0;
      while i < |seeds|
        invariant 0 <= i <= |seeds|
        invariant Valid()
        invariant snapshots == ReplayAll(env, info, store0, seeds[..i]).store
        invariant tests == tests0 + ReplayAll(env, info, store0, seeds[..i]).tests
      {
        ghost var prev := ReplayAll(env, info, store0, seeds[..i]);
        ReplayAllStep(env, info, store0, seeds, i);
        var passed := RunSeed(seeds[i]);
        Js.ConcatAssoc(tests0, prev.tests, [SubTest(SeedTitle(seeds[i]), passed)]);
        i := i + 1;
      }
      Js.TakeAll(seeds);
    }

    /** Lines 157-167: the `add new seed to list if any` test. */
    method RunTeardown()
      requires Valid() && specSeedsInfo.Some?
      modifies this`snapshots, this`tests
      ensures Valid()
      ensures var a := Teardown(env, specSeedsInfo.value, newSeed, old(snapshots));
        snapshots == a.store && tests == old(tests) + [SubTest(TeardownTitle, a.passed)]
    {
      var info := specSeedsInfo.value;
      var list := info.snapshotSeeds;
      if newSeed.Some? && Js.Truthy(Js.Num(newSeed.value)) {
        list := info.snapshotSeeds + [newSeed.value];
      }
      var a := MatchSnapshot(snapshots, TeardownKey(info), env.serialise(SeedListValue(list)));
      ExtendsTransitive(file, snapshots, a.store);
      snapshots := a.store;
      tests := tests + [SubTest(TeardownTitle, a.passed)];
    }

    /**
     * Lines 98-167: the tests of a collected block, run in the order they were declared.
     * Collecting and then running the tests of a freshly built block gives exactly the run
     * `RunSuite` describes (`RunSuiteSteps`).
     */
    method RunTests()
      requires Valid() && specSeedsInfo.Some? && newSeed.None? && newSeedSnapshotName.None? && tests == []
      modifies this`newSeed, this`newSeedSnapshotName, this`snapshots, this`tests
      ensures Valid()
      ensures var info := specSeedsInfo.value;
        var trial := FreshTrial(env, info, old(snapshots));
        var replays := ReplayAll(env, info, trial.store, info.snapshotSeeds);
        var last := Teardown(env, info, trial.newSeed, replays.store);
        && newSeed == trial.newSeed && newSeedSnapshotName == trial.snapshotName
        && snapshots == last.store
        && tests == [SubTest(NewSeedTitle, trial.passed)] + replays.tests + [SubTest(TeardownTitle, last.passed)]
    {
      var info := specSeedsInfo.value;
      ghost var trial := FreshTrial(env, info, snapshots);
      ghost var replays := ReplayAll(env, info, trial.store, info.snapshotSeeds);
      ghost var last := Teardown(env, info, trial.newSeed, replays.store);
      RunNewSeed();
      assert tests == [SubTest(NewSeedTitle, trial.passed)];
      assert newSeed == trial.newSeed && newSeedSnapshotName == trial.snapshotName;
      assert snapshots == trial.store;
      RunSeeds();
      assert snapshots == replays.store;
      ghost var before := tests;
      assert Teardown(env, info, newSeed, snapshots) == last;
      RunTeardown();
      assert tests == before + [SubTest(TeardownTitle, last.passed)];
    }
  }
}
