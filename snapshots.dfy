/**
 * The snapshot store as the seed-corpus code uses it: serialised records by key, and the
 * `toMatchSnapshot` assertion, which writes a record that is absent and otherwise compares.
 */
module Snapshots {

  /** Snapshot records: key to serialised text. */
  type Store = map<string, string>

  /** The key of the first snapshot taken under `name` (the runner appends a counter). */
  function SnapshotKey(name: string): string {
    name + " 1"
  }

  /** `after` holds every record of `before`, unchanged. */
  predicate Extends(before: Store, after: Store) {
    forall k :: k in before ==> k in after && after[k] == before[k]
  }

  lemma ExtendsTransitive(a: Store, b: Store, c: Store)
    requires Extends(a, b) && Extends(b, c)
    ensures Extends(a, c)
  {
  }

  /** The outcome of one snapshot assertion: the store afterwards and whether it passed. */
  datatype Assertion = Assertion(store: Store, passed: bool)

  /**
   * `expect(value).toMatchSnapshot()` with `text` the serialised value: an absent record is
   * written and the assertion passes; a present one is never changed, and the assertion
   * passes exactly when it equals `text`.
   */
  function MatchSnapshot(store: Store, key: string, text: string): (r: Assertion)
    ensures Extends(store, r.store) && r.store.Keys == store.Keys + {key}
    ensures key !in store ==> r.store[key] == text && r.passed
    ensures key in store ==> r.store == store && (r.passed <==> store[key] == text)
  {
    if key in store then Assertion(store, store[key] == text)
    else Assertion(store[key := text], true)
  }

}
