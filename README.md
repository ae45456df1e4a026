# Seed corpus for property-based tests, in Dafny

`property-test-util-testcheck.js` turns the failing seeds of a property-based test into a
growing set of example-based regression tests. The tests of a `[generated examples]` block
run in this order:

- **`new seed`**: one trial with a seed the property checker chooses. When the trial fails, the
  failing seed is remembered as `newSeed`, and the serialised result is recorded as the snapshot
  `<parent name> seed <seed>`. The parent name is what line 15 recovers from the test's full
  name; for most blocks it is the block name.
- **`seed <n>`**: one replay for each seed the snapshot file already knows. The seeds come from
  the record keys and from a separately stored "failed list".
- **`add new seed to list if any`**: stores the known seeds, plus the new one, as the failed list.

The model covers how the block finds its seeds (`getSpecSeedsInfo`), how a checker result is
prepared for the snapshot (`transformResultForSerialisation`), and the phases of the block
(`seededPropertyTestFactory`). It also covers what one run of the block leaves behind for the
next run.

Modules:

- `Wrappers`: `Option` and `Result`.
- `Js`: the JavaScript built-ins the code relies on. These are values as JSON sees them,
  truthiness, `\s`, `indexOf`, `replace` with a string pattern, `trim`, `parseInt(_, 10)`, the
  template-literal text of an integer, and `[...new Set(xs)]`.
- `KeyPattern`: the regular expression `/.+\s(\d+)\s(\d+)/`. It is run as a backtracking matcher:
  the leftmost start wins, and from there the greedy `.+` takes the longest prefix that still
  lets the rest match. It is proved against a declarative description of a match.
- `SpecSeeds`: `getSpecSeedsInfo`.
- `Serialisation`: the checker's result and `transformResultForSerialisation`.
- `Snapshots`: the snapshot store as a map from key to text. It also holds
  `toMatchSnapshot`, which writes an absent record and otherwise only compares against it.
- `SeededSuite`: each phase of the block as a function of the store, the whole run of a
  block, and lemmas relating one run to the next.
- `GeneratedExamples`: class `Block`. Its fields are the closure variables the tests share
  (`specSeedsInfo`, `newSeed`, `newSeedSnapshotName`), the snapshot records, and the outcomes so
  far. It has one method per phase, each proved against the `SeededSuite` function for that
  phase.

The property checker, `JSON.parse`, the snapshot serialiser and `pretty-format` are parameters
of the block (`SeededSuite.Env`). The snapshot file is the map the block starts from, and its
key order is a parameter too.

Details of the code that the model keeps:

- A replayed seed that still fails always fails its test, because the test expects
  `result: true` (lines 143-151). A seed that now passes fails its test only when its record
  does not match.
- The merge of seeds keeps each seed once, in first-occurrence order. Seeds are the only
  index: the shrunk inputs are stored inside the records and never looked up.
- The teardown list is not deduplicated against the new seed. Only the next load removes
  duplicates.
- Seed 0 is dropped when keys are scanned (`!!seed`), and a zero `newSeed` is ignored by the
  teardown.
- Once a failed list is stored, the teardown only compares against it and never rewrites
  it. After that, a new seed reaches the next load only through its own record.
- The block's own failed-list key can itself yield a seed. The key scan (lines 31-33) checks
  only that a key begins with the seeds name and matches the pattern. A block named
  `issue 12 3` therefore reads seed 12 from `issue 12 3 [generated examples] seed failed list 1`.
  For this reason `SeededSuite.CorpusNeverShrinks` states that the next load begins with the
  loaded seeds and the new seed, not that it equals them.
- The trial and the replays name their records differently. The trial uses the seeds name
  derived at line 15 (line 106), and a replay uses its own full name (line 120). The two agree
  when the parent name is the block name. They differ for a block whose name begins with white
  space or contains `new seed`. For the block `new seed tests [generated examples]`, the
  parent name is `tests [generated examples] new seed`. The trial then writes
  `tests [generated examples] new seed seed 42 1`, but the replay of 42 reads
  `new seed tests [generated examples] seed 42 1`. The next load still finds 42 in the
  trial's key, but its replay never reads that record: it writes the fresh result under its
  own key.

## Model

| member | source | states |
|---|---|---|
| Js.IndexOf | property-test-util-testcheck.js:31 | `indexOf` finds a position exactly when the text occurs, and the position found is the first one |
| Js.IndexOfZero | property-test-util-testcheck.js:31 | `key.indexOf(name) === 0` holds exactly when `name` is a prefix of `key` |
| Js.Truthy | property-test-util-testcheck.js:43 | a value is falsy exactly when it is `undefined`, `null`, `false`, `0` or the empty string |
| Js.RemoveFirst | property-test-util-testcheck.js:15 | `replace` with a string pattern leaves the text unchanged when the pattern does not occur, and otherwise makes it shorter by exactly the pattern's length |
| Js.RemoveFirstOfOccurrence | property-test-util-testcheck.js:15 | when the first occurrence of the pattern in `a + pattern + b` is right after `a`, `replace` gives `a + b` |
| Js.Trim | property-test-util-testcheck.js:15 | `trim` yields a slice of its input that neither begins nor ends with white space |
| Js.TrimStartDropsWhiteSpace | property-test-util-testcheck.js:15 | everything `trim` removes at the front is white space |
| Js.TrimEndDropsWhiteSpace | property-test-util-testcheck.js:15 | everything `trim` removes at the end is white space |
| Js.TrimTrimmedWithSpace | property-test-util-testcheck.js:15 | trimming a trimmed string followed by one space gives the string back |
| Js.IntToString | property-test-util-testcheck.js:106 | the template-literal text of an integer is non-empty and begins with a digit or `-`; it is all digits exactly when the integer is not negative |
| Js.IntToStringEndsInDigit | property-test-util-testcheck.js:106 | the template-literal text of an integer ends in a digit |
| Js.ParseInt | property-test-util-testcheck.js:37 | `parseInt` of text that starts with a digit gives a non-negative number; a negative number comes only from text whose trimmed start is `-` |
| Js.ParseIntOfIntToString | property-test-util-testcheck.js:37 | `parseInt` reads the template-literal text of any integer back as that integer |
| Js.Distinct | property-test-util-testcheck.js:53-57 | `[...new Set(xs)]` has no duplicates and holds exactly the elements of `xs` |
| Js.DistinctFirstOccurrenceOrder | property-test-util-testcheck.js:53-57 | the elements of `[...new Set(xs)]` stand in the order of their first occurrence in `xs` |
| Js.DistinctPrefix | property-test-util-testcheck.js:53-57 | deduplicating `a + b` begins with the deduplication of `a` |
| Js.DistinctOfUnique | property-test-util-testcheck.js:53-57 | a sequence without duplicates is unchanged by the spread of a `Set` |
| KeyPattern.Match | property-test-util-testcheck.js:33 | finds no match exactly when the pattern matches nowhere; otherwise finds the match with the leftmost start and, from there, the longest `.+` |
| KeyPattern.CapturedSeed | property-test-util-testcheck.js:33-41 | a key yields a seed exactly when it matches; the seed is the number spelled by the first group, which is a non-empty digit run |
| KeyPattern.CapturedSeedOfKey | property-test-util-testcheck.js:33-41 | the key `<prefix> <n> 1` (one-line prefix, `n >= 0`) yields `n` |
| SpecSeeds.ParentName | property-test-util-testcheck.js:14-15 | the parent name is trimmed and no longer than the full name |
| SpecSeeds.ParentNameOfTest | property-test-util-testcheck.js:14-15 | for a full name `<path> <title>` whose title first occurs after the path, the parent name is the path |
| SpecSeeds.SeedOfKey | property-test-util-testcheck.js:31-43 | a key contributes a seed exactly when it begins with the seeds name, matches the pattern and names a non-zero seed; the seed is positive and is the captured one |
| SpecSeeds.KeySeeds | property-test-util-testcheck.js:30-43 | the key seeds are all positive, and there are no more seeds than keys |
| SpecSeeds.KeySeedsExactly | property-test-util-testcheck.js:30-43 | a seed comes from the keys exactly when some key contributes it |
| SpecSeeds.Integers | property-test-util-testcheck.js:53-56 | a parsed list is read as seeds exactly when every item is a number, and then item by item |
| SpecSeeds.SpreadSeeds | property-test-util-testcheck.js:53-56 | a value spreads to seeds exactly when it is an array of numbers, and is then the list of those seeds |
| SpecSeeds.FailedListSeeds | property-test-util-testcheck.js:44-51 | a missing or unparsable failed list gives `[]`; a list that parses gives seeds exactly when it is an array of numbers, and then those numbers in order |
| SpecSeeds.GetSpecSeedsInfo | property-test-util-testcheck.js:12-69 | the parent name is the trimmed full name minus the description, and the seeds name is the parent name plus ` seed`; the merged seeds have no duplicates, are exactly the union of the failed list and the key seeds, and begin with the failed list in first-occurrence order |
| Serialisation.TransformResultForSerialisation | property-test-util-testcheck.js:80-88 | the transform throws exactly when `shrunk` is undefined or null |
| Serialisation.TransformCopiesResult | property-test-util-testcheck.js:80-88 | every property except `fail` and `shrunk` is copied, every property of `shrunk` except `smallest` is copied, and those two are replaced by their rendered text |
| Serialisation.TransformKeepsSeedAndVerdict | property-test-util-testcheck.js:80-88 | the transformed result keeps the seed and the `result` flag |
| Snapshots.MatchSnapshot | property-test-util-testcheck.js:107 | an absent record is written with the given text and passes; a present record is never changed and passes exactly when it is equal |
| SeededSuite.FreshTrial | property-test-util-testcheck.js:98-109 | a passing trial changes nothing; a failing one sets `newSeed` to its seed and the snapshot name to `<seeds name> <seed>`, and adds no record but that one |
| SeededSuite.FreshTrialRecord | property-test-util-testcheck.js:104-108 | after a failing trial, a result without `shrunk` fails the test and writes nothing; otherwise the trial's record is written if absent, or compared if present |
| SeededSuite.Replay | property-test-util-testcheck.js:114-154 | the baseline is the parsed record, or the fresh result when the record is missing or unparsable; a seed that still fails always fails its test; one that passes fails only on a snapshot mismatch; the store gains only the seed's own record |
| SeededSuite.ReplayAgainstOwnRecord | property-test-util-testcheck.js:128-137 | against a record that reads back and re-serialises to itself, a replay passes exactly when the property holds, and the store is unchanged |
| SeededSuite.ReplayWithoutRecord | property-test-util-testcheck.js:120-137 | without a record, a replay writes the fresh result and passes exactly when the property holds |
| SeededSuite.ReplayAll | property-test-util-testcheck.js:113-155 | one test per seed, and every record kept |
| SeededSuite.ReplayAllTitles | property-test-util-testcheck.js:113-114 | the replay tests are titled `seed <n>` in the order of the seeds |
| SeededSuite.ReplayAllPassedOnlyIfFixed | property-test-util-testcheck.js:139-152 | a replay test passes only for a seed on which the property now holds |
| SeededSuite.ReplayAllKeys | property-test-util-testcheck.js:120-137 | the replays add exactly the records they look up |
| SeededSuite.TeardownList | property-test-util-testcheck.js:158-165 | the list has the loaded seeds as a prefix; it is one longer, by `newSeed`, exactly when `newSeed` is truthy, and is otherwise identical |
| SeededSuite.SpreadSeedListValue | property-test-util-testcheck.js:53-56 | a stored seed list spreads back to the same list |
| SeededSuite.Teardown | property-test-util-testcheck.js:157-167 | an absent failed list is written with the teardown list and passes; a present one is left as it is and passes exactly when it equals the serialised teardown list; no other record changes |
| SeededSuite.ReloadTeardownList | property-test-util-testcheck.js:52-57 | reloading the teardown list gives the loaded seeds followed by `newSeed` when it is truthy and new; as a set, the loaded seeds together with `newSeed` |
| SeededSuite.TeardownKeyIsFailedListKey | property-test-util-testcheck.js:45 | the teardown writes under the key the next load reads the failed list from |
| SeededSuite.FreshKeyIsReplayKey | property-test-util-testcheck.js:106 | under the seeds name `<block name> seed`, the record the trial writes for a seed is the one the replay of that seed reads |
| SeededSuite.ReplayKeyIsNotFailedListKey | property-test-util-testcheck.js:120 | whatever the block is called, a replay never reads the key of a failed list |
| SeededSuite.SeedKeyIsNotFailedListKey | property-test-util-testcheck.js:45 | a seed's record never has the failed list's key |
| SeededSuite.SeedKeyNamesSeed | property-test-util-testcheck.js:31-43 | for a non-empty one-line seeds name, the next load finds a positive seed again from the key of its record |
| SeededSuite.LoadedSeedsName | property-test-util-testcheck.js:112 | for a well-named block, the seeds are kept under `<block name> seed` |
| SeededSuite.Load | property-test-util-testcheck.js:112 | the load succeeds exactly when the failed list can be read, and keeps the seeds under `<parent name> seed` for the parent name of the `new seed` test |
| SeededSuite.LoadsShareSeedsName | property-test-util-testcheck.js:112 | every load of a block, whatever the file, has the same parent name and seeds name |
| SeededSuite.RunSuite | property-test-util-testcheck.js:92-169 | the block runs its tests exactly when the load succeeds, with the loaded seeds |
| SeededSuite.RunSuiteTests | property-test-util-testcheck.js:98-167 | `new seed` comes first, then one `seed <n>` test per loaded seed in order, then the teardown; the store only gains records |
| SeededSuite.FailedListBeforeTeardown | property-test-util-testcheck.js:98-155 | neither the trial nor the replays touch the failed list's record |
| SeededSuite.FailedListAfterRun | property-test-util-testcheck.js:157-167 | after a run, the next load reads the teardown's list where there was none, and otherwise the old list |
| SeededSuite.CorpusNeverShrinks | property-test-util-testcheck.js:44-57 | every seed a run loaded is loaded again by the next run; with no prior failed list, the next load begins with the loaded seeds followed by the new seed |
| SeededSuite.NewSeedPersisted | property-test-util-testcheck.js:105-107 | a positive new seed is among the seeds the next run loads when the failed list is new, or when the trial's record was written under a one-line parent name |
| GeneratedExamples.Block.constructor | property-test-util-testcheck.js:94-96 | a new block has no seeds info, no new seed and no outcomes |
| GeneratedExamples.Block.Collect | property-test-util-testcheck.js:112 | stores the loaded seeds info, or reports the load error and leaves it unset |
| GeneratedExamples.Block.RunNewSeed | property-test-util-testcheck.js:98-109 | updates `newSeed`, `newSeedSnapshotName` and the records as `FreshTrial` says, and appends the test's outcome |
| GeneratedExamples.Block.RunSeed | property-test-util-testcheck.js:114-154 | updates the records as `Replay` says and appends the test's outcome |
| GeneratedExamples.Block.RunSeeds | property-test-util-testcheck.js:113-155 | replays the loaded seeds in order, ending in the state `ReplayAll` describes |
| GeneratedExamples.Block.RunTeardown | property-test-util-testcheck.js:157-167 | builds the list and stores or compares it as `Teardown` says |
| GeneratedExamples.Block.RunTests | property-test-util-testcheck.js:98-167 | running the tests in order gives the new seed, records and outcomes of the run `SeededSuite.RunSuite` describes for the loaded seeds info |

## Left out

- Loading the snapshot file with `require`, and building its path (lines 16-29), are file
  I/O. The store is the map the block is given; a missing file is the empty map. The file
  name is not part of `SpecSeeds.SeedsInfo`.
- Jest's `describe`, `it`, `expect`, `toMatchSnapshot` and `toEqual` are modelled only as
  outcomes and store writes, with the tests run in declaration order. Jest's `--ci` and
  `--updateSnapshot` modes are not modelled. Snapshot keys follow the `<name> 1` rule for the
  first snapshot under a name.
- `pretty-format`, `JSON.parse`, the snapshot serialiser (serialise-js-object.js) and the
  property checker are opaque functions. The checker is taken to be deterministic for a
  seed. The serialiser appears only through `SeededSuite.ReadsBackSeedLists`: a seed list it
  writes is read back as that list by `JSON.parse`.
- Numbers are unbounded integers. Floating point, `NaN`, and precision above 2^53 are not
  modelled, so a failed list cannot hold a non-integer number.
- `SpecSeeds.SpreadSeeds`: a failed list that parses to a string is a `LoadError`. The source
  spreads the string's characters into the seed list and replays them.
- `SpecSeeds.GetSpecSeedsInfo`: `spec` and `snapShotFileName` are not returned. Both are
  unused by the modelled phases.
- `Serialisation.TransformResultForSerialisation`: a `shrunk` that is an array, a string, a
  number or a boolean is copied as having no own properties. `Object.assign` would copy the
  indices of an array or a string.
- The spread of a `Set` and the regular-expression engine are modelled only as far as the
  code uses them. Only the first group's value is read, and `matches.length !== 3` cannot
  hold for a match.
- `GeneratedExamples.Block` has no single method for collection plus tests. Collection is
  `Collect`, the tests are `RunTests`, and `SeededSuite.RunSuite` states what the two give
  together.
- `SeededSuite.LoadedSeedsName` assumes a well-named block: its name has no white space at
  either end, and `new seed` does not occur in it. Under that assumption line 15 recovers the
  block name. Other names are not characterised.
- `SeededSuite.NewSeedPersisted` states persistence only when the failed list is new or the
  trial's record was written. A new seed whose result has no `shrunk` input is lost once a
  failed list exists, as the code does. When the parent name has a line break, the key
  pattern may read the record key as another number, so the lemma assumes a one-line parent
  name in that case.
- `SpecSeeds.Integers`: a parsed failed list that is an array with items that are not numbers
  (`[null]`, `["7"]`, `[{"seed": 7}]`) is a `LoadError`. The source spreads such items into the
  seed list as they are and replays them.
- Exceptions thrown by the property checker, `pretty-format` or the snapshot serialiser are
  not modelled. In the source they fail the test before it writes anything.
- `SeededSuite.ReplayAllKeys`: does not describe a trial whose failing seed equals a loaded
  seed. Jest counts snapshots per name across the file, so that seed's replay is stored under
  `<name> 2`, not `<name> 1`. The model uses `<name> 1` for both.
- `SeededSuite.RunSuite`: returns only the error when the load fails. The source throws at
  line 112 inside the describe body, and the test runner (Jasmine) still runs the `new seed`
  test declared at line 98. That test passes when the trial passes. When the trial fails, it
  sets `newSeed` and then fails on `specSeedsInfo.snapshotSeedsName` at line 106, before
  anything is written. The runner adds one more test for the declaration error, which always
  fails. The store is unchanged either way. `GeneratedExamples.Block.RunNewSeed` requires
  loaded seeds info, so it does not describe this state.
