/**
 * The result store of the /predict handler (`resultados`): an
 * insertion-ordered dictionary from submission ID to the stored result,
 * bounded at MaxResults entries. Storing under a new ID puts it last; when
 * the size then exceeds the bound, the first-inserted entry is dropped
 * (first in, first out). Reading an entry never reorders the keys.
 */
module Cache {
  import opened Wrappers
  import opened Seqs

  /** MAX_RESULTADOS. */
  const MaxResults: nat := 5000

  /** One stored result: the probability, the severity level, its
      interpretation and the time the result was made. */
  datatype Entry = Entry(probability: real, level: string, interpretation: string, timestamp: string)

  /** The content of the store: the keys oldest first, and the entry of
      each key. */
  datatype Store = Store(keys: seq<string>, entries: map<string, Entry>)

  /** The store's invariant: within capacity, each key once, and the map
      holds exactly the listed keys. */
  ghost predicate Wellformed(s: Store, capacity: nat) {
    && |s.keys| <= capacity
    && Distinct(s.keys)
    && (forall i :: 0 <= i < |s.keys| ==> s.keys[i] in s.entries)
    && (forall k :: k in s.entries ==> k in s.keys)
  }

  /** A sequence has at least as many positions as distinct elements. */
  lemma {:induction false} ElementsWithinLength(keys: seq<string>)
    ensures |(set k | k in keys)| <= |keys|
  {
    if keys != [] {
      var rest := keys[1..];
      ElementsWithinLength(rest);
      assert (set k | k in keys) == (set k | k in rest) + {keys[0]};
    }
  }

  /** A subset is no larger than its superset. */
  lemma {:induction false} SubsetCard(a: set<string>, b: set<string>)
    requires a <= b
    ensures |a| <= |b|
    decreases |b|
  {
    if b != {} {
      var x :| x in b;
      SubsetCard(a - {x}, b - {x});
    }
  }

  /** len(resultados): a well formed store holds at most capacity entries. */
  lemma EntriesWithinCapacity(s: Store, capacity: nat)
    requires Wellformed(s, capacity)
    ensures |s.entries| <= capacity
  {
    var elems := set k | k in s.keys;
    ElementsWithinLength(s.keys);
    assert s.entries.Keys <= elems;
    SubsetCard(s.entries.Keys, elems);
  }

  /** An assignment resultados[id] = e followed by the size check: an ID
      already present keeps its place, a new one goes last, and when the
      size exceeds capacity the oldest key is dropped. */
  function Inserted(s: Store, id: string, e: Entry, capacity: nat): (r: Store)
    requires Wellformed(s, capacity) && capacity > 0
    ensures Wellformed(r, capacity)
    ensures id in r.entries && r.entries[id] == e
    ensures id in s.entries ==> r.keys == s.keys
    ensures id !in s.entries && |s.keys| < capacity ==> r.keys == s.keys + [id]
    ensures id !in s.entries && |s.keys| == capacity ==> r.keys == s.keys[1..] + [id] && s.keys[0] !in r.entries
  {
    if id in s.entries then
      // the ID keeps its place and the size is unchanged: nothing to evict
      Store(s.keys, s.entries[id := e])
    else
      DistinctAppend(s.keys, id);
      var keys := s.keys + [id];
      var entries := s.entries[id := e];
      if |keys| > capacity then
        DistinctTail(keys);
        Store(keys[1..], entries - {keys[0]})
      else
        Store(keys, entries)
  }

  /** Storing under id leaves every other surviving entry as it was, and
      brings back no key that was not already stored. */
  lemma InsertedKeepsOthers(s: Store, id: string, e: Entry, capacity: nat, k: string)
    requires Wellformed(s, capacity) && capacity > 0
    requires k != id && k in Inserted(s, id, e, capacity).entries
    ensures k in s.entries && Inserted(s, id, e, capacity).entries[k] == s.entries[k]
  {
  }

  /** The IDs of a series of assignments. */
  function Ids(batch: seq<(string, Entry)>): (r: seq<string>)
    ensures |r| == |batch| && forall i :: 0 <= i < |batch| ==> r[i] == batch[i].0
  {
    seq(|batch|, i requires 0 <= i < |batch| => batch[i].0)
  }

  function Max(a: int, b: int): int {
    if a < b then b else a
  }

  /** The last element of a duplicate-free sequence is not in the window
      of the elements before it. */
  lemma LastNotInWindow(ids: seq<string>, lo: nat)
    requires Distinct(ids) && lo < |ids|
    ensures ids[|ids| - 1] !in ids[lo..|ids| - 1]
  {
    forall j | lo <= j < |ids| - 1
      ensures ids[j] != ids[|ids| - 1]
    {
    }
  }

  /** Sliding the window of the newest capacity elements over one more
      element: it grows while short, and otherwise loses its first element. */
  lemma WindowStep(ids: seq<string>, capacity: nat)
    requires |ids| > 0 && capacity > 0
    ensures var n := |ids|;
      var w := ids[Max(0, n - 1 - capacity)..n - 1];
      (n - 1 < capacity ==> w + [ids[n - 1]] == ids[Max(0, n - capacity)..])
      && (n - 1 >= capacity ==> |w| == capacity && w[1..] + [ids[n - 1]] == ids[Max(0, n - capacity)..])
  {
  }

  /** One more distinct ID stored into a store holding the window of the
      newest capacity IDs before it gives the window that ends with it. */
  lemma InsertedSlides(s: Store, ids: seq<string>, e: Entry, capacity: nat)
    requires Wellformed(s, capacity) && capacity > 0
    requires Distinct(ids) && |ids| > 0
    requires s.keys == ids[Max(0, |ids| - 1 - capacity)..|ids| - 1]
    ensures Inserted(s, ids[|ids| - 1], e, capacity).keys == ids[Max(0, |ids| - capacity)..]
  {
    var n := |ids|;
    LastNotInWindow(ids, Max(0, n - 1 - capacity));
    WindowStep(ids, capacity);
  }

  /** The induction step of first in, first out: if the store built from
      all but the last assignment holds the newest capacity IDs of those,
      storing the last one gives the newest capacity IDs of them all. */
  lemma SlideStep(prev: Store, batch: seq<(string, Entry)>, capacity: nat)
    requires Wellformed(prev, capacity) && capacity > 0 && |batch| > 0
    requires Distinct(Ids(batch[..|batch| - 1])) ==>
      prev.keys == Ids(batch[..|batch| - 1])[Max(0, |batch| - 1 - capacity)..]
    ensures Distinct(Ids(batch)) ==>
      Inserted(prev, batch[|batch| - 1].0, batch[|batch| - 1].1, capacity).keys == Ids(batch)[Max(0, |batch| - capacity)..]
  {
    var n := |batch|;
    var ids := Ids(batch);
    if Distinct(ids) {
      assert Ids(batch[..n - 1]) == ids[..n - 1];
      var lo := Max(0, n - 1 - capacity);
      assert ids[..n - 1][lo..] == ids[lo..n - 1];
      InsertedSlides(prev, ids, batch[n - 1].1, capacity);
    }
  }

  /** The store after a series of assignments, in order, starting empty.
      First in, first out: when the IDs are distinct, the store holds
      exactly the last capacity of them, oldest first, whatever was read in
      between. */
  function InsertedAll(batch: seq<(string, Entry)>, capacity: nat): (r: Store)
    requires capacity > 0
    ensures Wellformed(r, capacity)
    ensures Distinct(Ids(batch)) ==> r.keys == Ids(batch)[Max(0, |batch| - capacity)..]
  {
    if batch == [] then Store([], map[])
    else
      var last := batch[|batch| - 1];
      var prev := InsertedAll(batch[..|batch| - 1], capacity);
      SlideStep(prev, batch, capacity);
      Inserted(prev, last.0, last.1, capacity)
  }

  /** The worked example: with capacity 3, storing four distinct IDs a, b,
      c and d leaves exactly b, c and d, and a's entry is gone. */
  lemma EvictionScenario(a: string, b: string, c: string, d: string, e: Entry)
    requires a != b && a != c && a != d && b != c && b != d && c != d
    ensures var s := InsertedAll([(a, e), (b, e), (c, e), (d, e)], 3);
      s.keys == [b, c, d] && a !in s.entries
  {
    var batch := [(a, e), (b, e), (c, e), (d, e)];
    assert Ids(batch) == [a, b, c, d];
    var s := InsertedAll(batch, 3);
    assert s.keys == [a, b, c, d][1..];
  }

  /** The in-memory store, updated in place. */
  class ResultCache {
    var keys: seq<string>
    var entries: map<string, Entry>
    const capacity: nat

    ghost predicate Valid()
      reads this
    {
      capacity > 0 && Wellformed(Store(keys, entries), capacity)
    }

    function Content(): Store
      reads this
    {
      Store(keys, entries)
    }

    /** An empty store with room for capacity entries (line 46). */
    constructor (capacity: nat)
      requires capacity > 0
      ensures Valid() && this.capacity == capacity && Content() == Store([], map[])
    {
      this.capacity := capacity;
      keys := [];
      entries := map[];
    }

    /** `id in resultados` and `resultados[id]`: the stored entry, if any;
        the order of the keys is not touched. */
    method Get(id: string) returns (r: Option<Entry>)
      requires Valid()
      ensures r.Some? <==> id in keys
      ensures r.Some? ==> id in entries && r.value == entries[id]
    {
      if id in entries {
        r := Some(entries[id]);
      } else {
        r := None;
      }
    }

    /** Lines 277-287: store e under id, then evict the oldest entry when
        the size exceeds capacity. */
    method Put(id: string, e: Entry)
      requires Valid()
      modifies this
      ensures Valid()
      ensures Content() == Inserted(old(Content()), id, e, capacity)
    {
      if id !in entries {
        keys := keys + [id];
      }
      entries := entries[id := e];
      if |keys| > capacity {
        var oldest := keys[0];
        keys := keys[1..];
        entries := entries - {oldest};
      }
      assert Content() == Inserted(old(Content()), id, e, capacity);
    }
  }
}
