/**
 * The browser's cache storage, as data: an ordered list of named stores, each
 * an insertion-ordered list of (key, response) entries.
 */
module CacheStorage {
  import opened Wrappers

  /** A cache key: the request's URL path. */
  type Key = string

  /** An opaque response; cloning one is copying the value. */
  datatype Response = Response(status: int, body: seq<int>)

  datatype Entry = Entry(key: Key, response: Response)

  datatype Store = Store(name: string, entries: seq<Entry>)

  /** Stores in creation order, the order `caches.keys()` enumerates. */
  type CacheState = seq<Store>

  // ---------------------------------------------------------------- entries

  ghost predicate HasKey(entries: seq<Entry>, key: Key) {
    exists j :: 0 <= j < |entries| && entries[j].key == key
  }

  /** No key occurs twice in a store. */
  ghost predicate DistinctKeys(entries: seq<Entry>) {
    forall i, j :: 0 <= i < j < |entries| ==> entries[i].key != entries[j].key
  }

  /** `cache.match(key)` on one store: the first entry with that key. */
  function Lookup(entries: seq<Entry>, key: Key): (r: Option<Response>)
    ensures r.Some? <==> HasKey(entries, key)
    ensures r.Some? ==> Entry(key, r.value) in entries
  {
    if entries == [] then None
    else if entries[0].key == key then
      assert entries[0] == Entry(key, entries[0].response);
      Some(entries[0].response)
    else
      var r := Lookup(entries[1..], key);
      assert forall j :: 0 <= j < |entries[1..]| ==> entries[1..][j] == entries[j + 1];
      r
  }

  /** A lookup in a concatenation finds the first half's entry first. */
  lemma {:induction false} LookupConcat(a: seq<Entry>, b: seq<Entry>, key: Key)
    ensures Lookup(a + b, key) == if HasKey(a, key) then Lookup(a, key) else Lookup(b, key)
    decreases |a|
  {
    if a == [] {
      assert a + b == b;
    } else {
      assert (a + b)[1..] == a[1..] + b;
      LookupConcat(a[1..], b, key);
      if a[0].key != key {
        assert HasKey(a, key) <==> HasKey(a[1..], key) by {
          if HasKey(a, key) {
            var j :| 0 <= j < |a| && a[j].key == key;
            assert a[1..][j - 1].key == key;
          }
          if HasKey(a[1..], key) {
            var j :| 0 <= j < |a[1..]| && a[1..][j].key == key;
            assert a[j + 1].key == key;
          }
        }
      }
    }
  }

  /** A fresh entry appended to a store is what its key looks up. */
  lemma LookupAppendFresh(older: seq<Entry>, last: Entry)
    requires !HasKey(older, last.key)
    ensures Lookup(older + [last], last.key) == Some(last.response)
  {
    LookupConcat(older, [last], last.key);
  }

  /** The store with every entry for `key` removed, other entries in order. */
  function RemoveKey(entries: seq<Entry>, key: Key): (r: seq<Entry>)
    ensures forall e :: e in r <==> e in entries && e.key != key
    ensures |r| <= |entries|
  {
    if entries == [] then []
    else if entries[0].key == key then RemoveKey(entries[1..], key)
    else [entries[0]] + RemoveKey(entries[1..], key)
  }

  /** Removal acts on each stretch of entries separately, so the kept entries keep their order. */
  lemma {:induction false} RemoveKeyConcat(a: seq<Entry>, b: seq<Entry>, key: Key)
    ensures RemoveKey(a + b, key) == RemoveKey(a, key) + RemoveKey(b, key)
    decreases |a|
  {
    if a == [] {
      assert a + b == b;
    } else {
      assert (a + b)[1..] == a[1..] + b;
      RemoveKeyConcat(a[1..], b, key);
    }
  }

  /** Removal on a single entry drops it exactly when it has the key. */
  lemma RemoveKeySingle(e: Entry, key: Key)
    ensures RemoveKey([e], key) == if e.key == key then [] else [e]
  {
    assert [e][1..] == [];
  }

  /** After removal the key is gone. */
  lemma RemoveKeyRemoves(entries: seq<Entry>, key: Key)
    ensures !HasKey(RemoveKey(entries, key), key)
  {
    var r := RemoveKey(entries, key);
    forall j | 0 <= j < |r| ensures r[j].key != key {
      assert r[j] in r;
    }
  }

  /** Removing an absent key changes nothing. */
  lemma {:induction false} RemoveAbsentKey(entries: seq<Entry>, key: Key)
    requires !HasKey(entries, key)
    ensures RemoveKey(entries, key) == entries
    decreases |entries|
  {
    if entries != [] {
      assert entries[0].key != key;
      assert !HasKey(entries[1..], key) by {
        forall j | 0 <= j < |entries[1..]| ensures entries[1..][j].key != key {
          assert entries[1..][j] == entries[j + 1];
        }
      }
      RemoveAbsentKey(entries[1..], key);
      assert [entries[0]] + entries[1..] == entries;
    }
  }

  /** Removal keeps keys distinct. */
  lemma {:induction false} RemoveKeyDistinct(entries: seq<Entry>, key: Key)
    requires DistinctKeys(entries)
    ensures DistinctKeys(RemoveKey(entries, key))
    decreases |entries|
  {
    if entries != [] {
      assert DistinctKeys(entries[1..]) by {
        forall i, j | 0 <= i < j < |entries[1..]| ensures entries[1..][i].key != entries[1..][j].key {
          assert entries[1..][i] == entries[i + 1] && entries[1..][j] == entries[j + 1];
        }
      }
      RemoveKeyDistinct(entries[1..], key);
      var rest := RemoveKey(entries[1..], key);
      if entries[0].key != key {
        var r := [entries[0]] + rest;
        forall i, j | 0 <= i < j < |r| ensures r[i].key != r[j].key {
          if i == 0 {
            var e := rest[j - 1];
            assert e in entries[1..];
            var m :| 0 <= m < |entries[1..]| && entries[1..][m] == e;
            assert entries[m + 1] == e;
          } else {
            assert r[i] == rest[i - 1] && r[j] == rest[j - 1];
          }
        }
      }
    }
  }

  /** Removing `key` leaves every other key's lookup as it was. */
  lemma {:induction false} RemoveKeyKeepsOthers(entries: seq<Entry>, key: Key, other: Key)
    requires other != key
    ensures Lookup(RemoveKey(entries, key), other) == Lookup(entries, other)
    decreases |entries|
  {
    if entries != [] {
      RemoveKeyKeepsOthers(entries[1..], key, other);
      if entries[0].key != key {
        assert ([entries[0]] + RemoveKey(entries[1..], key))[1..] == RemoveKey(entries[1..], key);
      }
    }
  }

  /** Appending a fresh entry after removing its key: the facts `PutEntry` promises. */
  lemma AppendAfterRemove(entries: seq<Entry>, key: Key, response: Response)
    ensures var r := RemoveKey(entries, key) + [Entry(key, response)];
      && Lookup(r, key) == Some(response)
      && (forall k :: k != key ==> Lookup(r, k) == Lookup(entries, k))
      && (!HasKey(entries, key) ==> r == entries + [Entry(key, response)])
      && (DistinctKeys(entries) ==> DistinctKeys(r))
  {
    var kept := RemoveKey(entries, key);
    var r := kept + [Entry(key, response)];
    RemoveKeyRemoves(entries, key);
    if !HasKey(entries, key) { RemoveAbsentKey(entries, key); }
    LookupConcat(kept, [Entry(key, response)], key);
    forall k | k != key ensures Lookup(r, k) == Lookup(entries, k) {
      LookupConcat(kept, [Entry(key, response)], k);
      RemoveKeyKeepsOthers(entries, key, k);
    }
    if DistinctKeys(entries) {
      RemoveKeyDistinct(entries, key);
      forall i, j | 0 <= i < j < |r| ensures r[i].key != r[j].key {
        if j == |kept| {
          assert r[i] == kept[i];
        }
      }
    }
  }

  /**
   * `cache.put(key, response)` on one store: every entry for the key is
   * removed and the new entry appended.
   */
  function PutEntry(entries: seq<Entry>, key: Key, response: Response): (r: seq<Entry>)
    ensures Lookup(r, key) == Some(response)
    ensures forall k :: k != key ==> Lookup(r, k) == Lookup(entries, k)
    ensures !HasKey(entries, key) ==> r == entries + [Entry(key, response)]
    ensures |r| > 0 && r[|r| - 1] == Entry(key, response)
    ensures r[..|r| - 1] == RemoveKey(entries, key)
    ensures DistinctKeys(entries) ==> DistinctKeys(r)
    ensures |r| <= |entries| + 1
  {
    AppendAfterRemove(entries, key, response);
    RemoveKey(entries, key) + [Entry(key, response)]
  }

  // ----------------------------------------------------------------- stores

  /** Store names in creation order. */
  function Names(caches: CacheState): (names: seq<string>)
    ensures |names| == |caches|
    ensures forall i :: 0 <= i < |caches| ==> names[i] == caches[i].name
  {
    seq(|caches|, i requires 0 <= i < |caches| => caches[i].name)
  }

  /** No two stores share a name. */
  ghost predicate DistinctNames(caches: CacheState) {
    forall i, j :: 0 <= i < j < |caches| ==> caches[i].name != caches[j].name
  }

  /** The cache storage is well formed: names and, per store, keys are unique. */
  ghost predicate WellFormed(caches: CacheState) {
    && DistinctNames(caches)
    && forall i :: 0 <= i < |caches| ==> DistinctKeys(caches[i].entries)
  }

  /** Dropping the first store keeps the storage well formed. */
  lemma TailWellFormed(caches: CacheState)
    requires |caches| > 0 && WellFormed(caches)
    ensures WellFormed(caches[1..])
    ensures forall s :: s in caches[1..] ==> s.name != caches[0].name
  {
    var tail := caches[1..];
    forall i, j | 0 <= i < j < |tail| ensures tail[i].name != tail[j].name {
      assert tail[i] == caches[i + 1] && tail[j] == caches[j + 1];
    }
    forall i | 0 <= i < |tail| ensures DistinctKeys(tail[i].entries) {
      assert tail[i] == caches[i + 1];
    }
    forall s | s in tail ensures s.name != caches[0].name {
      var m :| 0 <= m < |tail| && tail[m] == s;
      assert caches[m + 1] == s;
    }
  }

  /** A store whose name is new, put in front of well-formed storage, keeps it well formed. */
  lemma ConsWellFormed(store: Store, rest: CacheState)
    requires WellFormed(rest) && DistinctKeys(store.entries)
    requires forall s :: s in rest ==> s.name != store.name
    ensures WellFormed([store] + rest)
  {
    var r := [store] + rest;
    forall i, j | 0 <= i < j < |r| ensures r[i].name != r[j].name {
      if i == 0 {
        assert r[j] == rest[j - 1] && r[j] in rest;
      } else {
        assert r[i] == rest[i - 1] && r[j] == rest[j - 1];
      }
    }
    forall i | 0 <= i < |r| ensures DistinctKeys(r[i].entries) {
      if i > 0 { assert r[i] == rest[i - 1]; }
    }
  }

  /** Index of the first occurrence of `name`. */
  function Position(names: seq<string>, name: string): (r: Option<nat>)
    ensures r.None? <==> name !in names
    ensures r.Some? ==> r.value < |names| && names[r.value] == name && name !in names[..r.value]
  {
    if names == [] then None
    else if names[0] == name then Some(0)
    else
      match Position(names[1..], name)
      case None => None
      case Some(i) =>
        assert names[..i + 1] == [names[0]] + names[1..][..i];
        Some(i + 1)
  }

  /** The first occurrence of a name is the position `Position` finds. */
  lemma PositionOfFirst(names: seq<string>, name: string, j: nat)
    requires j < |names| && names[j] == name && name !in names[..j]
    ensures Position(names, name) == Some(j)
  {
  }

  /** The entries of the store called `name`; a store that does not exist is empty. */
  function EntriesOf(caches: CacheState, name: string): (entries: seq<Entry>)
    ensures name !in Names(caches) ==> entries == []
    ensures forall i :: 0 <= i < |caches| && caches[i].name == name && DistinctNames(caches)
                        ==> entries == caches[i].entries
  {
    match Position(Names(caches), name)
    case None => []
    case Some(i) =>
      assert forall j :: 0 <= j < |caches| && caches[j].name == name && DistinctNames(caches) ==> j == i by {
        forall j | 0 <= j < |caches| && caches[j].name == name && DistinctNames(caches) ensures j == i {
        }
      }
      caches[i].entries
  }

  /**
   * Opens the store called `name` (creating it, last, when it does not
   * exist, as `caches.open` does) and replaces its contents with `entries`.
   */
  function WithEntries(caches: CacheState, name: string, entries: seq<Entry>): (r: CacheState)
    ensures Names(r) == if name in Names(caches) then Names(caches) else Names(caches) + [name]
    ensures EntriesOf(r, name) == entries
    ensures forall n :: n != name ==> EntriesOf(r, n) == EntriesOf(caches, n)
    ensures forall i :: 0 <= i < |caches| && caches[i].name != name ==> r[i] == caches[i]
    ensures DistinctNames(caches) ==> DistinctNames(r)
  {
    match Position(Names(caches), name)
    case Some(i) =>
      var r := caches[i := Store(name, entries)];
      assert Names(r) == Names(caches);
      r
    case None =>
      var r := caches + [Store(name, entries)];
      assert Names(r) == Names(caches) + [name];
      PositionOfFirst(Names(r), name, |caches|);
      assert Names(r)[..|caches|] == Names(caches);
      forall n | n != name ensures EntriesOf(r, n) == EntriesOf(caches, n) {
        if n in Names(caches) {
          var j := Position(Names(caches), n).value;
          assert Names(r)[..j] == Names(caches)[..j];
          PositionOfFirst(Names(r), n, j);
        }
      }
      r
  }

  /** Replacing one store's contents keeps the storage well formed when they have distinct keys. */
  lemma WithEntriesWellFormed(caches: CacheState, name: string, entries: seq<Entry>)
    requires WellFormed(caches) && DistinctKeys(entries)
    ensures WellFormed(WithEntries(caches, name, entries))
  {
    var r := WithEntries(caches, name, entries);
    forall i | 0 <= i < |r| ensures DistinctKeys(r[i].entries) {
      if r[i].name == name {
        assert EntriesOf(r, name) == r[i].entries;
      } else {
        assert i < |caches| && r[i] == caches[i];
      }
    }
  }

  /** `cache.put` on the store called `name`, opening it first. */
  function Put(caches: CacheState, name: string, key: Key, response: Response): (r: CacheState)
    ensures EntriesOf(r, name) == PutEntry(EntriesOf(caches, name), key, response)
    ensures Names(r) == if name in Names(caches) then Names(caches) else Names(caches) + [name]
    ensures Lookup(EntriesOf(r, name), key) == Some(response)
    ensures forall k :: k != key ==> Lookup(EntriesOf(r, name), k) == Lookup(EntriesOf(caches, name), k)
    ensures forall n :: n != name ==> EntriesOf(r, n) == EntriesOf(caches, n)
  {
    WithEntries(caches, name, PutEntry(EntriesOf(caches, name), key, response))
  }

  /** The store called `name` has distinct keys in well-formed storage. */
  lemma EntriesOfWellFormed(caches: CacheState, name: string)
    requires WellFormed(caches)
    ensures DistinctKeys(EntriesOf(caches, name))
  {
    if name in Names(caches) {
      var i := Position(Names(caches), name).value;
      assert caches[i].name == name;
    }
  }

  /** `cache.put` keeps the storage well formed. */
  lemma PutWellFormed(caches: CacheState, name: string, key: Key, response: Response)
    requires WellFormed(caches)
    ensures WellFormed(Put(caches, name, key, response))
  {
    EntriesOfWellFormed(caches, name);
    WithEntriesWellFormed(caches, name, PutEntry(EntriesOf(caches, name), key, response));
  }

  /** Some store holds `key`. */
  ghost predicate Cached(caches: CacheState, key: Key) {
    exists i :: 0 <= i < |caches| && HasKey(caches[i].entries, key)
  }

  /**
   * `caches.match(key)`: the stores are searched in creation order and the
   * first store holding the key answers.
   */
  function Match(caches: CacheState, key: Key): (r: Option<Response>)
    ensures r.Some? <==> Cached(caches, key)
    ensures r.Some? ==> exists i :: 0 <= i < |caches| && Lookup(caches[i].entries, key) == r
                                   && forall h :: 0 <= h < i ==> !HasKey(caches[h].entries, key)
  {
    if caches == [] then None
    else
      var here := Lookup(caches[0].entries, key);
      if here.Some? then here
      else
        var r := Match(caches[1..], key);
        assert Cached(caches, key) ==> Cached(caches[1..], key) by {
          if Cached(caches, key) {
            var i :| 0 <= i < |caches| && HasKey(caches[i].entries, key);
            assert caches[1..][i - 1] == caches[i];
          }
        }
        assert Cached(caches[1..], key) ==> Cached(caches, key) by {
          if Cached(caches[1..], key) {
            var i :| 0 <= i < |caches[1..]| && HasKey(caches[1..][i].entries, key);
            assert caches[i + 1] == caches[1..][i];
          }
        }
        assert forall i :: 0 <= i < |caches[1..]| ==> caches[1..][i] == caches[i + 1];
        r
  }

  /** A key in a named store is `Cached`, so `caches.match` finds some response for it. */
  lemma StoreEntryIsCached(caches: CacheState, name: string, key: Key)
    requires HasKey(EntriesOf(caches, name), key)
    ensures Match(caches, key).Some?
  {
    var i := Position(Names(caches), name).value;
    assert caches[i].entries == EntriesOf(caches, name);
  }
}
