/**
 * `getSpecSeedsInfo`: from the full name of a test, the name under which its seeds are kept,
 * and the seeds already recorded in the snapshot store, gathered from the store's keys and
 * from the separately stored failed list.
 */
module SpecSeeds {
  import opened Wrappers
  import opened Js
  import opened KeyPattern

  /** What `getSpecSeedsInfo` hands back (the snapshot file's path is not part of the model). */
  datatype SeedsInfo = SeedsInfo(
    fullName: string,
    parentName: string,
    snapshotSeedsName: string,
    snapshotSeeds: seq<int>,
    snapshotExports: map<string, string>)

  /** The failed list parsed to something the model does not carry as seeds: a value that
      cannot be spread (the source throws a TypeError) or one holding other than integers. */
  datatype LoadError = FailedListNotSeeds(parsed: Value)

  /** `Object.keys(store)`: every key of the store exactly once, in the store's own order. */
  predicate IsKeyOrder(keys: seq<string>, store: map<string, string>) {
    NoDuplicates(keys) && (forall k :: k in keys ==> k in store) && (forall k :: k in store ==> k in keys)
  }

  /** Line 15: the full name with the test's own title cut out, trimmed. */
  function ParentName(fullName: string, description: string): (r: string)
    ensures IsTrimmed(r) && |r| <= |fullName|
  {
    Trim(RemoveFirst(fullName, description))
  }

  /** Line 20. */
  function SeedsName(parentName: string): string {
    parentName + " seed"
  }

  /**
   * For a test whose full name is the describe path, a space and its title, where the title
   * does not occur earlier, line 15 gives back the describe path (when that has no white
   * space at either end).
   */
  lemma ParentNameOfTest(describePath: string, title: string)
    requires IsTrimmed(describePath)
    requires IndexOf(describePath + " " + title, title) == Some(|describePath| + 1)
    ensures ParentName(describePath + " " + title, title) == describePath
  {
    var full := describePath + " " + title;
    assert full == (describePath + " ") + title + [];
    RemoveFirstOfOccurrence(full, describePath + " ", title, []);
    assert (describePath + " ") + [] == describePath + [' '];
    TrimTrimmedWithSpace(describePath, ' ');
  }

  /**
   * Lines 31-43 for one key: the key must begin with the seeds name (`indexOf(...) === 0`),
   * match the pattern, and name a truthy seed (`!!seed` drops 0).
   */
  function SeedOfKey(key: string, seedsName: string): (r: Option<int>)
    ensures r.Some? <==> seedsName <= key && CapturedSeed(key).Some? && CapturedSeed(key).value != 0
    ensures r.Some? ==> r.value > 0 && r == CapturedSeed(key)
  {
    IndexOfZero(key, seedsName);
    if IndexOf(key, seedsName) != Some(0) then None
    else
      match CapturedSeed(key)
      case None => None
      case Some(seed) => if Truthy(Num(seed)) then Some(seed) else None
  }

  /** Lines 30-43: the seeds the store's keys name, in key order. */
  function KeySeeds(keys: seq<string>, seedsName: string): (r: seq<int>)
    ensures |r| <= |keys| && forall i :: 0 <= i < |r| ==> r[i] > 0
    decreases |keys|
  {
    if keys == [] then []
    else
      match SeedOfKey(keys[0], seedsName)
      case None => KeySeeds(keys[1..], seedsName)
      case Some(seed) => [seed] + KeySeeds(keys[1..], seedsName)
  }

  /** A seed comes from the keys exactly when some key names it. */
  lemma {:induction false} KeySeedsExactly(keys: seq<string>, seedsName: string, n: int)
    ensures n in KeySeeds(keys, seedsName) <==> exists k :: k in keys && SeedOfKey(k, seedsName) == Some(n)
    decreases |keys|
  {
    if keys != [] {
      KeySeedsExactly(keys[1..], seedsName, n);
      assert forall k :: k in keys <==> k == keys[0] || k in keys[1..];
    }
  }

  /** Line 45: the key of the failed-list record. */
  function FailedListKey(seedsName: string): string {
    seedsName + " failed list 1"
  }

  /** The integers of an array whose items are all numbers. */
  function Integers(items: seq<Value>): (r: Option<seq<int>>)
    ensures r.Some? <==> forall i :: 0 <= i < |items| ==> items[i].Num?
    ensures r.Some? ==> |r.value| == |items| && forall i :: 0 <= i < |items| ==> r.value[i] == items[i].n
    decreases |items|
  {
    if items == [] then Some([])
    else if !items[0].Num? then None
    else
      match Integers(items[1..])
      case None => None
      case Some(rest) => Some([items[0].n] + rest)
  }

  /** A list of seeds as the array value that holds them. */
  function SeedListValue(seeds: seq<int>): (v: Value)
    ensures v.Arr? && |v.items| == |seeds|
    ensures forall i :: 0 <= i < |seeds| ==> v.items[i] == Num(seeds[i])
  {
    Arr(seq(|seeds|, i requires 0 <= i < |seeds| => Num(seeds[i])))
  }

  /**
   * `...list` for a parsed failed list that the model carries: an array of integers, which
   * spreads to those integers in order.
   */
  function SpreadSeeds(v: Value): (r: Result<seq<int>, LoadError>)
    ensures r.Ok? <==> v.Arr? && forall i :: 0 <= i < |v.items| ==> v.items[i].Num?
    ensures r.Ok? ==> v == SeedListValue(r.value)
  {
    if v.Arr? then
      match Integers(v.items)
      case Some(seeds) =>
        assert v.items == SeedListValue(seeds).items;
        Ok(seeds)
      case None => Err(FailedListNotSeeds(v))
    else Err(FailedListNotSeeds(v))
  }

  /**
   * Lines 44-51: the failed list. A missing record (`JSON.parse(undefined)` throws) or one
   * that does not parse gives the empty list, never an error; an error comes only from a
   * record that parses to something other than an array of integers.
   */
  function FailedListSeeds(store: map<string, string>, seedsName: string, parse: string -> Option<Value>)
    : (r: Result<seq<int>, LoadError>)
    ensures FailedListKey(seedsName) !in store ==> r == Ok([])
    ensures FailedListKey(seedsName) in store && parse(store[FailedListKey(seedsName)]).None? ==> r == Ok([])
    ensures r.Err? ==> FailedListKey(seedsName) in store && parse(store[FailedListKey(seedsName)]).Some?
    ensures FailedListKey(seedsName) in store && parse(store[FailedListKey(seedsName)]).Some? ==>
      var v := parse(store[FailedListKey(seedsName)]).value;
      && (r.Ok? <==> v.Arr? && forall i :: 0 <= i < |v.items| ==> v.items[i].Num?)
      && (r.Ok? ==> v == SeedListValue(r.value))
  {
    var key := FailedListKey(seedsName);
    if key !in store then Ok([])
    else
      match parse(store[key])
      case None => Ok([])
      case Some(v) => SpreadSeeds(v)
  }

  /**
   * Lines 12-69. The merged seeds (lines 53-57) hold no duplicates, are exactly the failed
   * list's seeds together with the keys' seeds, and begin with the failed list's seeds in
   * the order they first occur there.
   */
  function GetSpecSeedsInfo(
    fullName: string, description: string,
    keys: seq<string>, store: map<string, string>, parse: string -> Option<Value>)
    : (r: Result<SeedsInfo, LoadError>)
    requires IsKeyOrder(keys, store)
    ensures r.Ok? <==> FailedListSeeds(store, SeedsName(ParentName(fullName, description)), parse).Ok?
    ensures r.Ok? ==>
      && r.value.fullName == fullName
      && r.value.parentName == ParentName(fullName, description)
      && r.value.snapshotSeedsName == r.value.parentName + " seed"
      && r.value.snapshotExports == store
    ensures r.Ok? ==>
      var failed := FailedListSeeds(store, r.value.snapshotSeedsName, parse).value;
      var fromKeys := KeySeeds(keys, r.value.snapshotSeedsName);
      && NoDuplicates(r.value.snapshotSeeds)
      && (forall n :: n in r.value.snapshotSeeds <==> n in failed || n in fromKeys)
      && Distinct(failed) <= r.value.snapshotSeeds
  {
    var parentName := ParentName(fullName, description);
    var seedsName := SeedsName(parentName);
    var fromKeys := KeySeeds(keys, seedsName);
    match FailedListSeeds(store, seedsName, parse)
    case Err(e) => Err(e)
    case Ok(failed) =>
      DistinctPrefix(failed, fromKeys);
      Ok(SeedsInfo(fullName, parentName, seedsName, Distinct(failed + fromKeys), store))
  }

}
