/**
 * The eviction policy `limitCacheSize`: while a store holds more entries than
 * the limit, its oldest entry is deleted.
 */
module Eviction {
  import opened Wrappers
  import opened CacheStorage

  /** The smaller of the input length and the limit: the length eviction leaves. */
  function Retained(length: nat, maxItems: nat): nat {
    if length <= maxItems then length else maxItems
  }

  /**
   * Drops the oldest item and tries again while there are more than
   * `maxItems`; the result is the newest `Retained(|items|, maxItems)` items.
   */
  function Limit<T>(items: seq<T>, maxItems: nat): (kept: seq<T>)
    ensures |kept| == Retained(|items|, maxItems)
    ensures kept == items[|items| - |kept|..]
    decreases |items|
  {
    if |items| > maxItems then Limit(items[1..], maxItems) else items
  }

  /** Within the limit nothing is evicted, so a second eviction changes nothing. */
  lemma {:induction false} LimitIdempotent<T>(items: seq<T>, maxItems: nat)
    ensures |items| <= maxItems ==> Limit(items, maxItems) == items
    ensures Limit(Limit(items, maxItems), maxItems) == Limit(items, maxItems)
  {
    var once := Limit(items, maxItems);
    assert |once| <= maxItems;
    assert Limit(once, maxItems) == once[|once| - |once|..];
  }

  /** Eviction only looks at the newest `maxItems` items. */
  lemma LimitOfLongSuffix<T>(short: seq<T>, long: seq<T>, maxItems: nat)
    requires |short| <= |long| && short == long[|long| - |short|..]
    requires |short| >= Retained(|long|, maxItems)
    ensures Limit(short, maxItems) == Limit(long, maxItems)
  {
    var k := Retained(|long|, maxItems);
    assert Retained(|short|, maxItems) == k;
    var a := short[|short| - k..];
    var b := long[|long| - k..];
    forall i | 0 <= i < k ensures a[i] == b[i] {
      assert a[i] == short[|short| - k + i];
      assert short[|short| - k + i] == long[|long| - |short| + (|short| - k + i)];
    }
    assert a == b;
  }

  /** Evicting, appending, and evicting again is the same as appending then evicting once. */
  lemma LimitAbsorbs<T>(items: seq<T>, more: seq<T>, maxItems: nat)
    ensures Limit(Limit(items, maxItems) + more, maxItems) == Limit(items + more, maxItems)
  {
    var kept := Limit(items, maxItems);
    var all := items + more;
    assert kept + more == all[|all| - |kept + more|..];
    LimitOfLongSuffix(kept + more, all, maxItems);
  }

  /** The loop form of `limitCacheSize`, which deletes `keys[0]` until the bound holds. */
  method EvictOldest<T>(keys: seq<T>, maxItems: nat) returns (kept: seq<T>)
    ensures kept == Limit(keys, maxItems)
  {
    kept := keys;
    while |kept| > maxItems
      invariant Limit(kept, maxItems) == Limit(keys, maxItems)
      decreases |kept|
    {
      kept := kept[1..];
    }
  }

  /** A suffix of a store with distinct keys has distinct keys. */
  lemma SuffixDistinct(entries: seq<Entry>, from: nat)
    requires from <= |entries| && DistinctKeys(entries)
    ensures DistinctKeys(entries[from..])
  {
    forall i, j | 0 <= i < j < |entries[from..]| ensures entries[from..][i].key != entries[from..][j].key {
      assert entries[from..][i] == entries[from + i] && entries[from..][j] == entries[from + j];
    }
  }

  /** The last `k + 1` items after an append are the last `k` before it, then the new one. */
  lemma SuffixOfAppend<T>(items: seq<T>, last: T, k: nat)
    requires k <= |items|
    ensures (items + [last])[|items| - k..] == items[|items| - k..] + [last]
  {
  }

  /** Evicting after an append keeps the appended item and one fewer of the older ones. */
  lemma LimitOfAppend<T>(items: seq<T>, last: T, maxItems: nat)
    requires maxItems > 0
    ensures Limit(items + [last], maxItems) == Limit(items, maxItems - 1) + [last]
  {
    var n := |items|;
    var k := Retained(n, maxItems - 1);
    assert Retained(n + 1, maxItems) == k + 1;
    var all := items + [last];
    assert |all| == n + 1;
    assert Limit(all, maxItems) == all[(n + 1) - (k + 1)..];
    assert (n + 1) - (k + 1) == n - k;
    SuffixOfAppend(items, last, k);
    assert Limit(items, maxItems - 1) == items[n - k..];
  }

  /** Every item eviction keeps was in the input. */
  lemma LimitKeepsMembers<T>(items: seq<T>, maxItems: nat)
    ensures forall x :: x in Limit(items, maxItems) ==> x in items
  {
    var kept := Limit(items, maxItems);
    forall x | x in kept ensures x in items {
      var i :| 0 <= i < |kept| && kept[i] == x;
      assert items[|items| - |kept| + i] == x;
    }
  }

  /**
   * Evicting right after a put, with a positive limit, keeps the entry just
   * put: it is the newest, and the only one with its key.
   */
  lemma EvictAfterPutKeepsIt(entries: seq<Entry>, key: Key, response: Response, maxItems: nat)
    requires maxItems > 0
    ensures Lookup(Limit(PutEntry(entries, key, response), maxItems), key) == Some(response)
  {
    var kept := RemoveKey(entries, key);
    assert PutEntry(entries, key, response) == kept + [Entry(key, response)];
    LimitOfAppend(kept, Entry(key, response), maxItems);
    var older := Limit(kept, maxItems - 1);
    LimitKeepsMembers(kept, maxItems - 1);
    assert !HasKey(older, key) by {
      forall j | 0 <= j < |older| ensures older[j].key != key {
        assert older[j] in kept;
      }
    }
    LookupAppendFresh(older, Entry(key, response));
  }

  /** With distinct keys, dropping a prefix leaves each key's lookup as it was, or gone. */
  lemma DropPrefixForgets(evicted: seq<Entry>, kept: seq<Entry>, k: Key)
    requires DistinctKeys(evicted + kept)
    ensures Lookup(kept, k).None? || Lookup(kept, k) == Lookup(evicted + kept, k)
  {
    LookupConcat(evicted, kept, k);
    if HasKey(evicted, k) {
      var all := evicted + kept;
      var i :| 0 <= i < |evicted| && evicted[i].key == k;
      assert !HasKey(kept, k) by {
        forall j | 0 <= j < |kept| ensures kept[j].key != k {
          assert all[i] == evicted[i] && all[|evicted| + j] == kept[j];
        }
      }
    }
  }

  /**
   * Eviction only forgets: in a store with distinct keys, every key either
   * still looks up what it did before or looks up nothing.
   */
  lemma EvictionOnlyForgets(entries: seq<Entry>, maxItems: nat)
    ensures DistinctKeys(entries) ==> forall k ::
      Lookup(Limit(entries, maxItems), k).None? || Lookup(Limit(entries, maxItems), k) == Lookup(entries, k)
  {
    if DistinctKeys(entries) {
      var kept := Limit(entries, maxItems);
      var evicted := entries[..|entries| - |kept|];
      assert entries == evicted + kept;
      forall k ensures Lookup(kept, k).None? || Lookup(kept, k) == Lookup(entries, k) {
        DropPrefixForgets(evicted, kept, k);
      }
    }
  }

  /** `limitCacheSize(name, maxItems)` on the cache storage: open the store, then evict. */
  function LimitCacheSize(caches: CacheState, name: string, maxItems: nat): (r: CacheState)
    ensures EntriesOf(r, name) == Limit(EntriesOf(caches, name), maxItems)
    ensures |EntriesOf(r, name)| <= maxItems
    ensures |EntriesOf(caches, name)| <= maxItems ==> EntriesOf(r, name) == EntriesOf(caches, name)
    ensures var before := EntriesOf(caches, name);
      EntriesOf(r, name) == before[|before| - |EntriesOf(r, name)|..]
    ensures forall n :: n != name ==> EntriesOf(r, n) == EntriesOf(caches, n)
    ensures Names(r) == if name in Names(caches) then Names(caches) else Names(caches) + [name]
  {
    WithEntries(caches, name, Limit(EntriesOf(caches, name), maxItems))
  }

  /** Eviction keeps the storage well formed. */
  lemma LimitCacheSizeWellFormed(caches: CacheState, name: string, maxItems: nat)
    requires WellFormed(caches)
    ensures WellFormed(LimitCacheSize(caches, name, maxItems))
  {
    var before := EntriesOf(caches, name);
    EntriesOfWellFormed(caches, name);
    SuffixDistinct(before, |before| - |Limit(before, maxItems)|);
    WithEntriesWellFormed(caches, name, Limit(before, maxItems));
  }

  /** A run of writes to one store, each followed by an eviction to `maxItems`. */
  function InsertAll(entries: seq<Entry>, batch: seq<Entry>, maxItems: nat): seq<Entry>
    decreases |batch|
  {
    if batch == [] then entries
    else InsertAll(Limit(PutEntry(entries, batch[0].key, batch[0].response), maxItems), batch[1..], maxItems)
  }

  /** Peeling the first item off a batch written after `items`. */
  lemma ConcatPeel<T>(items: seq<T>, batch: seq<T>)
    requires |batch| > 0
    ensures items + batch == (items + [batch[0]]) + batch[1..]
  {
    assert batch == [batch[0]] + batch[1..];
  }

  /** A suffix followed by more items is a suffix of the whole followed by them. */
  lemma SuffixThenMore<T>(whole: seq<T>, suffix: seq<T>, more: seq<T>)
    requires |suffix| <= |whole| && suffix == whole[|whole| - |suffix|..]
    ensures suffix + more == (whole + more)[|whole| - |suffix|..]
  {
  }

  /** The first key of a batch is fresh for the store it is written to. */
  lemma BatchHeadFresh(entries: seq<Entry>, batch: seq<Entry>)
    requires |batch| > 0 && DistinctKeys(entries + batch)
    ensures !HasKey(entries, batch[0].key)
  {
    var all := entries + batch;
    forall j | 0 <= j < |entries| ensures entries[j].key != batch[0].key {
      assert all[j] == entries[j] && all[|entries|] == batch[0];
    }
  }

  /** One step of a run of writes: a fresh key is appended, then the store evicted. */
  lemma InsertAllStep(entries: seq<Entry>, batch: seq<Entry>, maxItems: nat)
    requires |batch| > 0 && !HasKey(entries, batch[0].key)
    ensures InsertAll(entries, batch, maxItems) == InsertAll(Limit(entries + [batch[0]], maxItems), batch[1..], maxItems)
  {
    assert PutEntry(entries, batch[0].key, batch[0].response) == entries + [batch[0]];
  }

  /** After one step, what is stored and what is still to come have distinct keys. */
  lemma StepKeepsDistinct(entries: seq<Entry>, batch: seq<Entry>, maxItems: nat)
    requires |batch| > 0 && DistinctKeys(entries + batch)
    ensures DistinctKeys(Limit(entries + [batch[0]], maxItems) + batch[1..])
  {
    var grown := entries + [batch[0]];
    var next := Limit(grown, maxItems);
    ConcatPeel(entries, batch);
    SuffixThenMore(grown, next, batch[1..]);
    SuffixDistinct(entries + batch, |grown| - |next|);
  }

  /**
   * Eviction convergence: after writing fresh keys one by one, each write
   * followed by an eviction, the store is the newest `maxItems` entries of
   * everything written, in insertion order.
   */
  lemma {:induction false} InsertAllKeepsNewest(entries: seq<Entry>, batch: seq<Entry>, maxItems: nat)
    requires |batch| > 0 && DistinctKeys(entries + batch)
    ensures InsertAll(entries, batch, maxItems) == Limit(entries + batch, maxItems)
    ensures |InsertAll(entries, batch, maxItems)| <= maxItems
    decreases |batch|
  {
    var grown := entries + [batch[0]];
    var rest := batch[1..];
    var next := Limit(grown, maxItems);
    BatchHeadFresh(entries, batch);
    InsertAllStep(entries, batch, maxItems);
    ConcatPeel(entries, batch);
    if rest != [] {
      StepKeepsDistinct(entries, batch, maxItems);
      InsertAllKeepsNewest(next, rest, maxItems);
      LimitAbsorbs(grown, rest, maxItems);
    } else {
      assert grown + rest == grown;
    }
  }
}
