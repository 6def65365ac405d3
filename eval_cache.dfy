/**
 * The agent's cache of rewritten `eval` sources: source text to the
 * rewritten text and the time it was last used. When a new entry takes
 * the cache past its limit, the ten least recently used entries are to
 * be dropped.
 */
module EvalCaching {
  import opened Sequences

  /** `{ e, ts }`: the rewritten text and the time of its last use. */
  datatype CacheEntry = CacheEntry(e: string, ts: int)

  /** `EVAL_CACHE_LIMIT`. */
  const EvalCacheLimit: nat := 100

  /** How many entries one trim drops (`items.slice(0, 10)`). */
  const TrimCount: nat := 10

  function Min(a: nat, b: nat): nat {
    if a <= b then a else b
  }

  /** The cache's keys in insertion order, which is the order `Map.forEach` visits them. */
  ghost predicate WellFormed(order: seq<string>, entries: map<string, CacheEntry>) {
    Distinct(order) && forall k :: k in entries <==> k in order
  }

  /** The iteration order after the keys `dels` are deleted. */
  function Without(order: seq<string>, dels: set<string>): (r: seq<string>)
    ensures forall k :: k in r <==> k in order && k !in dels
  {
    if order == [] then []
    else if order[0] in dels then Without(order[1..], dels)
    else [order[0]] + Without(order[1..], dels)
  }

  /** The elements of a list, as a set. */
  function Elems(s: seq<string>): set<string> {
    set x | x in s
  }

  /** Deleting keys that are all present shortens a list without repeats by their number. */
  lemma WithoutSize(order: seq<string>, dels: set<string>)
    requires Distinct(order) && dels <= Elems(order)
    ensures |Without(order, dels)| == |order| - |dels|
  {
    var kept := Without(order, dels);
    WithoutDistinct(order, dels);
    DistinctCardinality(kept);
    DistinctCardinality(order);
    var all := Elems(order);
    assert Elems(kept) == all - dels;
    assert all == (all - dels) + dels;
  }

  lemma {:induction false} WithoutDistinct(order: seq<string>, dels: set<string>)
    requires Distinct(order)
    ensures Distinct(Without(order, dels))
  {
    if order != [] {
      WithoutDistinct(order[1..], dels);
    }
  }

  lemma {:induction false} WithoutUnion(order: seq<string>, a: set<string>, b: set<string>)
    ensures Without(Without(order, a), b) == Without(order, a + b)
  {
    if order != [] {
      WithoutUnion(order[1..], a, b);
      if order[0] !in a {
        assert ([order[0]] + Without(order[1..], a))[1..] == Without(order[1..], a);
      }
    }
  }

  lemma {:induction false} WithoutNothing(order: seq<string>, dels: set<string>)
    requires forall k :: k in order ==> k !in dels
    ensures Without(order, dels) == order
  {
    if order != [] {
      WithoutNothing(order[1..], dels);
    }
  }

  /** `a.ts`, for the sort comparator `(a, b) => a.ts - b.ts`. */
  function Timestamp(entries: map<string, CacheEntry>): string -> int {
    k => if k in entries then entries[k].ts else 0
  }

  /**
   * The keys of the entries `trimEvalCache` picks: the entries in
   * insertion order, stably sorted by timestamp, first ten.
   */
  function Victims(order: seq<string>, entries: map<string, CacheEntry>): (r: seq<string>)
    ensures |r| == Min(TrimCount, |order|)
    ensures forall v :: v in r ==> v in order
  {
    var sorted := SortBy(order, Timestamp(entries));
    assert |sorted| == |multiset(sorted)| == |order|;
    var r := sorted[..Min(TrimCount, |order|)];
    assert forall v :: v in r ==> v in multiset(sorted);
    r
  }

  function VictimSet(order: seq<string>, entries: map<string, CacheEntry>): set<string> {
    Elems(Victims(order, entries))
  }

  /**
   * What the code as written deletes: `EVAL_CACHE.delete(i.e)` is given
   * each picked entry's rewritten text, not its key.
   */
  function VictimTextsAsWritten(order: seq<string>, entries: map<string, CacheEntry>): set<string>
    requires forall k :: k in order ==> k in entries
  {
    set v | v in Victims(order, entries) :: entries[v].e
  }

  /**
   * When no rewritten text is itself a cached source (a rewrite changes
   * its input), the trim as written deletes nothing: the cache keeps
   * growing past its limit.
   */
  lemma TrimAsWrittenKeepsEverything(order: seq<string>, entries: map<string, CacheEntry>)
    requires WellFormed(order, entries)
    requires forall k :: k in entries ==> entries[k].e !in entries
    ensures entries - VictimTextsAsWritten(order, entries) == entries
    ensures Without(order, VictimTextsAsWritten(order, entries)) == order
  {
    var texts := VictimTextsAsWritten(order, entries);
    assert forall k :: k in order ==> k !in texts;
    WithoutNothing(order, texts);
  }

  /**
   * The trim as corrected: the picked entries are deleted by key, which
   * removes `min(10, n)` entries, none of them used more recently than
   * any entry kept.
   */
  lemma TrimEvictsOldest(order: seq<string>, entries: map<string, CacheEntry>)
    requires WellFormed(order, entries)
    ensures var v := VictimSet(order, entries);
      |Without(order, v)| == |order| - Min(TrimCount, |order|)
      && WellFormed(Without(order, v), entries - v)
      && forall x, k :: x in v && k in entries - v ==> entries[x].ts <= entries[k].ts
  {
    var v := VictimSet(order, entries);
    VictimsDistinct(order, entries);
    DistinctCardinality(Victims(order, entries));
    WithoutSize(order, v);
    WithoutDistinct(order, v);
    VictimsOldest(order, entries);
  }

  lemma VictimsDistinct(order: seq<string>, entries: map<string, CacheEntry>)
    requires Distinct(order)
    ensures Distinct(Victims(order, entries))
  {
    var sorted := SortBy(order, Timestamp(entries));
    PermutationDistinct(order, sorted);
  }

  lemma VictimsOldest(order: seq<string>, entries: map<string, CacheEntry>)
    requires WellFormed(order, entries)
    ensures forall x, k :: x in VictimSet(order, entries) && k in entries - VictimSet(order, entries) ==> entries[x].ts <= entries[k].ts
  {
    var ts := Timestamp(entries);
    var sorted := SortBy(order, ts);
    var n := Min(TrimCount, |order|);
    var v := VictimSet(order, entries);
    SortBySorted(order, ts);
    assert |sorted| == |multiset(sorted)| == |order|;
    forall x, k | x in v && k in entries - v ensures entries[x].ts <= entries[k].ts {
      var i :| 0 <= i < n && sorted[i] == x;
      assert k in multiset(order);
      var j :| 0 <= j < |sorted| && sorted[j] == k;
      assert ts(sorted[i]) <= ts(sorted[j]);
    }
  }

  /** A rearrangement of a list without repeats has no repeats. */
  lemma PermutationDistinct(a: seq<string>, b: seq<string>)
    requires Distinct(a) && multiset(a) == multiset(b)
    ensures Distinct(b)
  {
    forall i, j | 0 <= i < j < |b| ensures b[i] != b[j] {
      if b[i] == b[j] {
        assert multiset(b)[b[i]] >= 2 by {
          assert b == b[..j] + b[j..];
          assert multiset(b) == multiset(b[..j]) + multiset(b[j..]);
          assert b[i] in multiset(b[..j]) && b[j] in multiset(b[j..]);
        }
        DistinctMultiplicity(a, b[i]);
      }
    }
  }

  lemma {:induction false} DistinctMultiplicity(a: seq<string>, x: string)
    requires Distinct(a)
    ensures multiset(a)[x] <= 1
  {
    if a != [] {
      assert a == [a[0]] + a[1..];
      DistinctMultiplicity(a[1..], x);
      if a[0] == x {
        assert x !in a[1..];
      }
    }
  }

  /**
   * The cache after `$$$REWRITE_EVAL$$$` misses on `source`: the fetched
   * text is stored with timestamp 0, the cache is trimmed when it exceeds
   * its limit, and the entry's timestamp is then set to `now` (which
   * changes the map only when the entry survived the trim).
   */
  function AfterMiss(order: seq<string>, entries: map<string, CacheEntry>, source: string, fetched: string, now: int)
    : (seq<string>, map<string, CacheEntry>)
  {
    var o1 := order + [source];
    var e1 := entries[source := CacheEntry(fetched, 0)];
    var v := if |o1| > EvalCacheLimit then VictimSet(o1, e1) else {};
    var e2 := e1 - v;
    (Without(o1, v), if source in e2 then e2[source := CacheEntry(fetched, now)] else e2)
  }

  /** With the corrected trim, a cache within its limit stays within it. */
  lemma AfterMissBounded(order: seq<string>, entries: map<string, CacheEntry>, source: string, fetched: string, now: int)
    requires WellFormed(order, entries) && source !in entries && |order| <= EvalCacheLimit
    ensures WellFormed(AfterMiss(order, entries, source, fetched, now).0, AfterMiss(order, entries, source, fetched, now).1)
    ensures |AfterMiss(order, entries, source, fetched, now).0| <= EvalCacheLimit
  {
    var o1 := order + [source];
    var e1 := entries[source := CacheEntry(fetched, 0)];
    assert WellFormed(o1, e1);
    if |o1| > EvalCacheLimit {
      TrimEvictsOldest(o1, e1);
    } else {
      WithoutNothing(o1, {});
    }
  }

  /**
   * A consequence of trimming right after the insertion: the new entry
   * still has timestamp 0, so when every other entry was used at a
   * positive time it is the first one dropped.
   */
  lemma AfterMissDropsNewEntryWhenFull(order: seq<string>, entries: map<string, CacheEntry>, source: string, fetched: string, now: int)
    requires WellFormed(order, entries) && source !in entries && |order| == EvalCacheLimit
    requires forall k :: k in entries ==> entries[k].ts > 0
    ensures source !in AfterMiss(order, entries, source, fetched, now).1
  {
    var o1 := order + [source];
    var e1 := entries[source := CacheEntry(fetched, 0)];
    assert WellFormed(o1, e1);
    TrimEvictsOldest(o1, e1);
    var v := VictimSet(o1, e1);
    var x := Victims(o1, e1)[0];
    assert x in v;
  }

  lemma DeleteOneMore(order: seq<string>, victims: seq<string>, i: nat)
    requires i < |victims|
    ensures Elems(victims[..i + 1]) == Elems(victims[..i]) + {victims[i]}
    ensures Without(Without(order, Elems(victims[..i])), {victims[i]}) == Without(order, Elems(victims[..i + 1]))
  {
    assert victims[..i + 1] == victims[..i] + [victims[i]];
    WithoutUnion(order, Elems(victims[..i]), {victims[i]});
  }

  lemma RemoveBoth(m: map<string, CacheEntry>, a: set<string>, b: set<string>)
    ensures m - a - b == m - (a + b)
  {
  }

  /** `EVAL_CACHE`: the entries and the order in which they were inserted. */
  class EvalCache {
    var order: seq<string>
    var entries: map<string, CacheEntry>

    ghost predicate Valid()
      reads this
    {
      WellFormed(order, entries)
    }

    constructor ()
      ensures Valid() && order == [] && entries == map[]
    {
      order, entries := [], map[];
    }

    /** `EVAL_CACHE.delete(k)`. */
    method Delete(k: string)
      requires Valid()
      modifies this
      ensures Valid() && order == Without(old(order), {k}) && entries == old(entries) - {k}
    {
      WithoutDistinct(order, {k});
      order, entries := Without(order, {k}), entries - {k};
    }

    /** `trimEvalCache`, deleting each picked entry by its key. */
    method Trim()
      requires Valid()
      modifies this
      ensures Valid()
      ensures order == Without(old(order), old(VictimSet(order, entries)))
      ensures entries == old(entries) - old(VictimSet(order, entries))
    {
      var victims := Victims(order, entries);
      ghost var o0, e0 := order, entries;
      WithoutNothing(o0, {});
      assert Elems(victims[..0]) == {};
      for i := 0 to |victims|
        invariant Valid()
        invariant order == Without(o0, Elems(victims[..i]))
        invariant entries == e0 - Elems(victims[..i])
      {
        DeleteOneMore(o0, victims, i);
        RemoveBoth(e0, Elems(victims[..i]), {victims[i]});
        Delete(victims[i]);
      }
      assert victims[..|victims|] == victims;
    }

    /**
     * The cache side of `$$$REWRITE_EVAL$$$`: the rewritten text for
     * `source`, fetched from the proxy (`fetched`) only on a miss, and the
     * entry stamped with `now`.
     */
    method RewriteEval(source: string, fetched: string, now: int) returns (text: string)
      requires Valid()
      modifies this
      ensures Valid()
      ensures old(source in entries) ==>
        text == old(entries[source].e) && order == old(order) && entries == old(entries)[source := CacheEntry(text, now)]
      ensures old(source !in entries) ==>
        text == fetched && (order, entries) == AfterMiss(old(order), old(entries), source, fetched, now)
    {
      if source in entries {
        text := entries[source].e;
        entries := entries[source := CacheEntry(text, now)];
      } else {
        text := fetched;
        Miss(source, fetched, now);
      }
    }

    method Miss(source: string, fetched: string, now: int)
      requires Valid() && source !in entries
      modifies this
      ensures Valid() && (order, entries) == AfterMiss(old(order), old(entries), source, fetched, now)
    {
      Insert(source, CacheEntry(fetched, 0));
      ghost var o1, e1 := order, entries;
      if |order| > EvalCacheLimit {
        Trim();
      } else {
        WithoutNothing(o1, {});
        assert entries == e1 - {};
      }
      Stamp(source, now);
    }

    /** `EVAL_CACHE.set(source, entry)` for a new key: it goes last in the iteration order. */
    method Insert(source: string, entry: CacheEntry)
      requires Valid() && source !in entries
      modifies this
      ensures Valid() && order == old(order) + [source] && entries == old(entries)[source := entry]
    {
      order, entries := order + [source], entries[source := entry];
    }

    /** `cache.ts = Date.now()`: the entry object is updated in place, so the map sees it only when it still holds it. */
    method Stamp(source: string, now: int)
      requires Valid()
      modifies this
      ensures Valid() && order == old(order)
      ensures entries == if source in old(entries) then old(entries)[source := CacheEntry(old(entries)[source].e, now)] else old(entries)
    {
      if source in entries {
        entries := entries[source := CacheEntry(entries[source].e, now)];
      }
    }
  }
}
