/** The two-tier query cache. Each tier is an ordered key/entry list with the
    least recently used entry first and the most recently used last. New
    entries go to the hot tier; hot overflow demotes the hot tier's oldest
    entry to the cold tier, cold overflow evicts the cold tier's oldest entry,
    and a hit in the cold tier promotes the entry back to hot.

    The tier operations are first given as functions on a `Tiers` value, with
    the lemmas about them; the `HotColdCache` class then performs them in
    place and is proved to agree with those functions. */
module HotColdCacheModel {
  import opened Wrappers
  import opened CacheModel
  import Text

  type Item = (string, CacheEntry)

  // ---------------------------------------------------------------- keyed lists

  function Keys(s: seq<Item>): (ks: seq<string>)
    ensures |ks| == |s| && forall i :: 0 <= i < |s| ==> ks[i] == s[i].0
  {
    if |s| == 0 then [] else [s[0].0] + Keys(s[1..])
  }

  lemma Snoc<T>(s: seq<T>)
    requires |s| > 0
    ensures s[..|s| - 1] + [s[|s| - 1]] == s
  {
  }

  lemma KeysAppend(a: seq<Item>, b: seq<Item>)
    ensures Keys(a + b) == Keys(a) + Keys(b)
  {
    assert Keys(a + b) == Keys(a) + Keys(b);
  }

  lemma KeysSuffix(s: seq<Item>, m: nat)
    requires m <= |s|
    ensures Keys(s[m..]) == Keys(s)[m..]
  {
  }

  predicate HasKey(s: seq<Item>, k: string) {
    k in Keys(s)
  }

  predicate Distinct(ks: seq<string>) {
    forall i, j :: 0 <= i < j < |ks| ==> ks[i] != ks[j]
  }

  predicate DistinctKeys(s: seq<Item>) {
    Distinct(Keys(s))
  }

  lemma DistinctCons(x: string, ks: seq<string>)
    ensures Distinct([x] + ks) <==> x !in ks && Distinct(ks)
  {
    var xs := [x] + ks;
    if x !in ks && Distinct(ks) {
      forall i, j | 0 <= i < j < |xs|
        ensures xs[i] != xs[j]
      {
        assert xs[j] == ks[j - 1];
        if i > 0 {
          assert xs[i] == ks[i - 1];
        }
      }
    }
    if Distinct(xs) {
      forall i, j | 0 <= i < j < |ks|
        ensures ks[i] != ks[j]
      {
        assert ks[i] == xs[i + 1] && ks[j] == xs[j + 1];
      }
      forall j | 0 <= j < |ks|
        ensures ks[j] != x
      {
        assert xs[j + 1] == ks[j] && xs[0] == x;
      }
    }
  }

  lemma DistinctSnoc(ks: seq<string>, x: string)
    ensures Distinct(ks + [x]) <==> x !in ks && Distinct(ks)
  {
    var xs := ks + [x];
    if Distinct(xs) {
      assert forall i :: 0 <= i < |ks| ==> xs[i] == ks[i];
      assert xs[|ks|] == x;
    }
  }

  lemma DistinctSuffix(s: seq<Item>, m: nat)
    requires m <= |s| && DistinctKeys(s)
    ensures DistinctKeys(s[m..])
  {
    KeysSuffix(s, m);
  }

  /** Deleting one key from a keyed list (`del d[k]`, or nothing if absent);
      the remaining items keep their order. */
  function RemoveKey(s: seq<Item>, k: string): (r: seq<Item>)
    ensures |r| <= |s|
  {
    if |s| == 0 then []
    else if s[0].0 == k then RemoveKey(s[1..], k)
    else [s[0]] + RemoveKey(s[1..], k)
  }

  /** After deleting `k` exactly the other keys remain. */
  lemma {:induction false} RemoveKeyKeys(s: seq<Item>, k: string)
    ensures forall k2 :: HasKey(RemoveKey(s, k), k2) <==> HasKey(s, k2) && k2 != k
  {
    if |s| > 0 {
      var rest := RemoveKey(s[1..], k);
      RemoveKeyKeys(s[1..], k);
      assert Keys(s) == [s[0].0] + Keys(s[1..]);
      forall k2
        ensures HasKey(RemoveKey(s, k), k2) <==> HasKey(s, k2) && k2 != k
      {
        assert HasKey(rest, k2) <==> HasKey(s[1..], k2) && k2 != k;
        if s[0].0 != k {
          assert RemoveKey(s, k) == [s[0]] + rest;
          assert Keys([s[0]] + rest) == [s[0].0] + Keys(rest);
        } else {
          assert RemoveKey(s, k) == rest;
        }
      }
    }
  }

  /** Deleting an absent key changes nothing. */
  lemma {:induction false} RemoveKeyAbsent(s: seq<Item>, k: string)
    requires !HasKey(s, k)
    ensures RemoveKey(s, k) == s
  {
    if |s| > 0 {
      assert Keys(s) == [s[0].0] + Keys(s[1..]);
      RemoveKeyAbsent(s[1..], k);
      assert [s[0]] + s[1..] == s;
    }
  }

  /** Deleting a key keeps distinct keys distinct. */
  lemma {:induction false} RemoveKeyDistinct(s: seq<Item>, k: string)
    requires DistinctKeys(s)
    ensures DistinctKeys(RemoveKey(s, k))
  {
    if |s| > 0 {
      assert Keys(s) == [s[0].0] + Keys(s[1..]);
      DistinctCons(s[0].0, Keys(s[1..]));
      RemoveKeyDistinct(s[1..], k);
      var rest := RemoveKey(s[1..], k);
      if s[0].0 != k {
        RemoveKeyKeys(s[1..], k);
        assert !HasKey(rest, s[0].0);
        assert RemoveKey(s, k) == [s[0]] + rest;
        assert Keys([s[0]] + rest) == [s[0].0] + Keys(rest);
        DistinctCons(s[0].0, Keys(rest));
      } else {
        assert RemoveKey(s, k) == rest;
      }
    }
  }

  lemma RemoveKeyProps(s: seq<Item>, k: string)
    ensures forall k2 :: HasKey(RemoveKey(s, k), k2) <==> HasKey(s, k2) && k2 != k
    ensures !HasKey(s, k) ==> RemoveKey(s, k) == s
    ensures DistinctKeys(s) ==> DistinctKeys(RemoveKey(s, k))
  {
    RemoveKeyKeys(s, k);
    if !HasKey(s, k) {
      RemoveKeyAbsent(s, k);
    }
    if DistinctKeys(s) {
      RemoveKeyDistinct(s, k);
    }
  }

  lemma RemoveKeyAppend(a: seq<Item>, b: seq<Item>, k: string)
    ensures RemoveKey(a + b, k) == RemoveKey(a, k) + RemoveKey(b, k)
  {
    if |a| > 0 {
      assert (a + b)[0] == a[0];
      assert (a + b)[1..] == a[1..] + b;
      RemoveKeyAppend(a[1..], b, k);
      if a[0].0 != k {
        assert [a[0]] + (RemoveKey(a[1..], k) + RemoveKey(b, k)) == ([a[0]] + RemoveKey(a[1..], k)) + RemoveKey(b, k);
      }
    } else {
      assert a + b == b;
    }
  }

  lemma HasKeyAppend(a: seq<Item>, b: seq<Item>, k: string)
    ensures HasKey(a + b, k) <==> HasKey(a, k) || HasKey(b, k)
  {
    KeysAppend(a, b);
  }

  lemma NoKeyInSuffix(s: seq<Item>, m: nat, k: string)
    requires m <= |s| && !HasKey(s, k)
    ensures !HasKey(s[m..], k)
  {
    KeysSuffix(s, m);
    forall i | 0 <= i < |s| - m
      ensures Keys(s[m..])[i] != k
    {
      assert Keys(s[m..])[i] == Keys(s)[m + i];
    }
  }

  function RemoveAt(s: seq<Item>, i: nat): (r: seq<Item>)
    requires i < |s|
    ensures |r| == |s| - 1
  {
    s[..i] + s[i + 1..]
  }

  /** OrderedDict's `move_to_end`: the item at `i` becomes the most recent. */
  function MoveToEnd(s: seq<Item>, i: nat): (r: seq<Item>)
    requires i < |s|
    ensures |r| == |s| && r[|r| - 1] == s[i]
  {
    RemoveAt(s, i) + [s[i]]
  }

  lemma DistinctRemoveAt(ks: seq<string>, i: nat)
    requires i < |ks| && Distinct(ks)
    ensures Distinct(ks[..i] + ks[i + 1..]) && ks[i] !in ks[..i] + ks[i + 1..]
  {
    var rs := ks[..i] + ks[i + 1..];
    assert forall a :: 0 <= a < |rs| ==> rs[a] == ks[if a < i then a else a + 1];
  }

  lemma MoveToEndDistinct(s: seq<Item>, i: nat)
    requires i < |s| && DistinctKeys(s)
    ensures DistinctKeys(MoveToEnd(s, i))
  {
    var ks := Keys(s);
    KeysAppend(s[..i], s[i + 1..]);
    KeysAppend(RemoveAt(s, i), [s[i]]);
    assert Keys(s[..i]) == ks[..i];
    KeysSuffix(s, i + 1);
    DistinctRemoveAt(ks, i);
    DistinctSnoc(ks[..i] + ks[i + 1..], ks[i]);
  }

  /** The last `n` items (all of them when there are at most `n`). */
  function Last(s: seq<Item>, n: nat): (r: seq<Item>)
    ensures |r| == if |s| <= n then |s| else n
    ensures r == s[|s| - |r|..]
  {
    if |s| <= n then s else s[|s| - n..]
  }

  lemma LastSnoc(s: seq<Item>, x: Item, n: nat)
    ensures Last(Last(s, n) + [x], n) == Last(s + [x], n)
  {
    if |s| > n {
      assert Last(s, n) + [x] == (s + [x])[|s| - n..];
    }
  }

  // ---------------------------------------------------------------- tiers

  datatype Tiers = Tiers(hot: seq<Item>, cold: seq<Item>)

  /** Both tiers in recency order, oldest cold entry first. */
  function Combined(t: Tiers): seq<Item> {
    t.cold + t.hot
  }

  /** Tiers within their capacities, no key held twice across them. */
  predicate TiersOk(t: Tiers, hotSize: nat, coldSize: nat) {
    |t.hot| <= hotSize && |t.cold| <= coldSize && DistinctKeys(Combined(t))
  }

  /** After the hot tier has grown by one: demote its oldest entry to the end
      of the cold tier if it is over capacity, then evict the cold tier's
      oldest entry if that one is over capacity. Taken together the tiers keep
      their order and lose at most their oldest entry. */
  function Rebalance(t: Tiers, hotSize: nat, coldSize: nat): (r: Tiers)
    requires |t.hot| <= hotSize + 1 && |t.cold| <= coldSize
    ensures |r.hot| <= hotSize && |r.cold| <= coldSize
    ensures Combined(r) == Last(Combined(t), hotSize + coldSize)
    ensures r.hot == if |t.hot| > hotSize then t.hot[1..] else t.hot
  {
    if |t.hot| > hotSize then
      var c := t.cold + [t.hot[0]];
      Demote(t.cold, t.hot);
      if |c| > coldSize then
        DropFirst(c, t.hot[1..]);
        Tiers(t.hot[1..], c[1..])
      else
        Tiers(t.hot[1..], c)
    else
      t
  }

  /** Moving the first element of `hot` to the end of `cold` keeps the
      concatenation. */
  lemma Demote<T>(cold: seq<T>, hot: seq<T>)
    requires |hot| > 0
    ensures (cold + [hot[0]]) + hot[1..] == cold + hot
  {
    assert [hot[0]] + hot[1..] == hot;
    assert (cold + [hot[0]]) + hot[1..] == cold + ([hot[0]] + hot[1..]);
  }

  lemma DropFirst<T>(a: seq<T>, b: seq<T>)
    requires |a| > 0
    ensures a[1..] + b == (a + b)[1..]
  {
  }

  lemma RebalanceKeepsDistinct(t: Tiers, hotSize: nat, coldSize: nat)
    requires |t.hot| <= hotSize + 1 && |t.cold| <= coldSize && DistinctKeys(Combined(t))
    ensures TiersOk(Rebalance(t, hotSize, coldSize), hotSize, coldSize)
  {
    var s := Combined(t);
    DistinctSuffix(s, |s| - |Last(s, hotSize + coldSize)|);
  }

  /** Rebalancing moves and drops entries but never brings in a key. */
  lemma RebalanceAddsNoKey(t: Tiers, k: string, hotSize: nat, coldSize: nat)
    requires |t.hot| <= hotSize + 1 && |t.cold| <= coldSize
    requires !HasKey(t.hot, k) && !HasKey(t.cold, k)
    ensures var r := Rebalance(t, hotSize, coldSize);
            !HasKey(r.hot, k) && !HasKey(r.cold, k)
  {
    var r := Rebalance(t, hotSize, coldSize);
    HasKeyAppend(t.cold, t.hot, k);
    HasKeyAppend(r.cold, r.hot, k);
    var c := Combined(t);
    NoKeyInSuffix(c, |c| - |Combined(r)|, k);
  }

  /** The entry `put` stores, under its key. */
  function StoredItem(e: CacheEntry): Item {
    (MakeKey(e), Truncated(e))
  }

  /** Storing an item under its key: drop any entry under the same key from
      both tiers, append the item to the hot tier, then rebalance. */
  function PutItem(t: Tiers, it: Item, hotSize: nat, coldSize: nat): Tiers
    requires |t.hot| <= hotSize && |t.cold| <= coldSize
  {
    Rebalance(Tiers(RemoveKey(t.hot, it.0) + [it], RemoveKey(t.cold, it.0)), hotSize, coldSize)
  }

  /** `put`: store the truncated entry under the key of its filter. */
  function PutTiers(t: Tiers, e: CacheEntry, hotSize: nat, coldSize: nat): Tiers
    requires |t.hot| <= hotSize && |t.cold| <= coldSize
  {
    PutItem(t, StoredItem(e), hotSize, coldSize)
  }

  /** Across both tiers a put is "remove the key, append the item, keep the
      most recent hotSize + coldSize": least-recently-used replacement. */
  lemma PutCombined(t: Tiers, it: Item, hotSize: nat, coldSize: nat)
    requires |t.hot| <= hotSize && |t.cold| <= coldSize
    ensures Combined(PutItem(t, it, hotSize, coldSize)) ==
            Last(RemoveKey(Combined(t), it.0) + [it], hotSize + coldSize)
  {
    RemoveKeyAppend(t.cold, t.hot, it.0);
    var u := Tiers(RemoveKey(t.hot, it.0) + [it], RemoveKey(t.cold, it.0));
    assert Combined(u) == RemoveKey(Combined(t), it.0) + [it];
  }

  /** A put keeps the tiers within capacity and free of duplicate keys. */
  lemma PutKeepsTiersOk(t: Tiers, it: Item, hotSize: nat, coldSize: nat)
    requires TiersOk(t, hotSize, coldSize)
    ensures TiersOk(PutItem(t, it, hotSize, coldSize), hotSize, coldSize)
  {
    var k := it.0;
    RemoveKeyAppend(t.cold, t.hot, k);
    var u := Tiers(RemoveKey(t.hot, k) + [it], RemoveKey(t.cold, k));
    var rest := RemoveKey(Combined(t), k);
    assert Combined(u) == rest + [it];
    RemoveKeyKeys(Combined(t), k);
    RemoveKeyDistinct(Combined(t), k);
    assert !HasKey(rest, k);
    KeysAppend(rest, [it]);
    assert Keys([it]) == [k];
    DistinctSnoc(Keys(rest), k);
    RebalanceKeepsDistinct(u, hotSize, coldSize);
  }

  /** With a hot tier of at least one slot, the entry just put is the hot
      tier's most recent one, under its key, with at most
      MAX_MESSAGES_PER_ENTRY messages. */
  lemma PutStoresInHot(t: Tiers, e: CacheEntry, hotSize: nat, coldSize: nat)
    requires |t.hot| <= hotSize && |t.cold| <= coldSize && hotSize >= 1
    ensures var h := PutTiers(t, e, hotSize, coldSize).hot;
            |h| > 0 && h[|h| - 1] == (MakeKey(e), Truncated(e)) &&
            |h[|h| - 1].1.messages| <= MAX_MESSAGES_PER_ENTRY
  {
  }

  /** Putting an item whose key is not cached appends it to the recency
      order and keeps the most recent hotSize + coldSize; the hot tier grows
      by one up to its capacity. */
  lemma PutFresh(t: Tiers, it: Item, hotSize: nat, coldSize: nat)
    requires |t.hot| <= hotSize && |t.cold| <= coldSize
    requires !HasKey(Combined(t), it.0)
    ensures var r := PutItem(t, it, hotSize, coldSize);
            Combined(r) == Last(Combined(t) + [it], hotSize + coldSize) &&
            |r.hot| == if |t.hot| + 1 <= hotSize then |t.hot| + 1 else hotSize
  {
    HasKeyAppend(t.cold, t.hot, it.0);
    RemoveKeyAbsent(t.hot, it.0);
    RemoveKeyAbsent(t.cold, it.0);
    PutCombined(t, it, hotSize, coldSize);
    RemoveKeyAbsent(Combined(t), it.0);
  }

  // ---------------------------------------------------------------- a run of puts

  function PutItems(t: Tiers, its: seq<Item>, hotSize: nat, coldSize: nat): (r: Tiers)
    requires |t.hot| <= hotSize && |t.cold| <= coldSize
    ensures |r.hot| <= hotSize && |r.cold| <= coldSize
    decreases |its|
  {
    if |its| == 0 then t
    else PutItem(PutItems(t, its[..|its| - 1], hotSize, coldSize), its[|its| - 1], hotSize, coldSize)
  }

  /** A run of `put` calls, oldest first. */
  function PutAll(t: Tiers, es: seq<CacheEntry>, hotSize: nat, coldSize: nat): (r: Tiers)
    requires |t.hot| <= hotSize && |t.cold| <= coldSize
    ensures |r.hot| <= hotSize && |r.cold| <= coldSize
    decreases |es|
  {
    if |es| == 0 then t
    else PutTiers(PutAll(t, es[..|es| - 1], hotSize, coldSize), es[|es| - 1], hotSize, coldSize)
  }

  function StoredItems(es: seq<CacheEntry>): (s: seq<Item>)
    ensures |s| == |es| && forall i :: 0 <= i < |es| ==> s[i] == StoredItem(es[i])
  {
    seq(|es|, i requires 0 <= i < |es| => StoredItem(es[i]))
  }

  predicate DistinctFilters(es: seq<CacheEntry>) {
    forall i, j :: 0 <= i < j < |es| ==> MakeKey(es[i]) != MakeKey(es[j])
  }

  lemma {:induction false} PutAllIsPutItems(t: Tiers, es: seq<CacheEntry>, hotSize: nat, coldSize: nat)
    requires |t.hot| <= hotSize && |t.cold| <= coldSize
    ensures PutAll(t, es, hotSize, coldSize) == PutItems(t, StoredItems(es), hotSize, coldSize)
    decreases |es|
  {
    if |es| > 0 {
      var its := StoredItems(es);
      PutAllIsPutItems(t, es[..|es| - 1], hotSize, coldSize);
      assert its[..|its| - 1] == StoredItems(es[..|es| - 1]);
    }
  }

  lemma StoredKeysDistinct(es: seq<CacheEntry>)
    requires DistinctFilters(es)
    ensures DistinctKeys(StoredItems(es))
  {
    var ks := Keys(StoredItems(es));
    assert forall i :: 0 <= i < |es| ==> ks[i] == MakeKey(es[i]);
  }

  /** Putting items with distinct keys into empty tiers leaves exactly the
      most recent hotSize + coldSize of them, in order, with the newest
      min(n, hotSize) in the hot tier. */
  lemma {:induction false} PutItemsKeepMostRecent(its: seq<Item>, hotSize: nat, coldSize: nat)
    requires DistinctKeys(its)
    ensures var r := PutItems(Tiers([], []), its, hotSize, coldSize);
            Combined(r) == Last(its, hotSize + coldSize) &&
            |r.hot| == (if |its| <= hotSize then |its| else hotSize)
    decreases |its|
  {
    if |its| > 0 {
      var prev := its[..|its| - 1];
      var it := its[|its| - 1];
      DistinctKeysInit(its);
      PutItemsKeepMostRecent(prev, hotSize, coldSize);
      PutLastItem(its, PutItems(Tiers([], []), prev, hotSize, coldSize), hotSize, coldSize);
    }
  }

  lemma PutLastItem(its: seq<Item>, t: Tiers, hotSize: nat, coldSize: nat)
    requires |its| > 0 && DistinctKeys(its)
    requires |t.hot| <= hotSize && |t.cold| <= coldSize
    requires Combined(t) == Last(its[..|its| - 1], hotSize + coldSize)
    requires |t.hot| == (if |its| - 1 <= hotSize then |its| - 1 else hotSize)
    ensures var r := PutItem(t, its[|its| - 1], hotSize, coldSize);
            Combined(r) == Last(its, hotSize + coldSize) &&
            |r.hot| == (if |its| <= hotSize then |its| else hotSize)
  {
    var n := hotSize + coldSize;
    var r := PutItem(t, its[|its| - 1], hotSize, coldSize);
    DistinctKeysInit(its);
    PutNewest(its, t, hotSize, coldSize);
    assert Combined(r) == Last(Last(its[..|its| - 1], n) + [its[|its| - 1]], n);
    LastInit(its, n);
  }

  /** One more put of a new key onto tiers holding the most recent items
      before it. */
  lemma PutNewest(its: seq<Item>, t: Tiers, hotSize: nat, coldSize: nat)
    requires |its| > 0 && |t.hot| <= hotSize && |t.cold| <= coldSize
    requires !HasKey(its[..|its| - 1], its[|its| - 1].0)
    requires Combined(t) == Last(its[..|its| - 1], hotSize + coldSize)
    requires |t.hot| == (if |its| - 1 <= hotSize then |its| - 1 else hotSize)
    ensures var r := PutItem(t, its[|its| - 1], hotSize, coldSize);
            Combined(r) == Last(Last(its[..|its| - 1], hotSize + coldSize) + [its[|its| - 1]], hotSize + coldSize) &&
            |r.hot| == (if |its| <= hotSize then |its| else hotSize)
  {
    var prev := its[..|its| - 1];
    NoKeyInSuffix(prev, |prev| - |Combined(t)|, its[|its| - 1].0);
    PutFresh(t, its[|its| - 1], hotSize, coldSize);
  }

  /** Dropping the newest item keeps the keys distinct, and its key was not
      among the older ones. */
  lemma DistinctKeysInit(its: seq<Item>)
    requires |its| > 0 && DistinctKeys(its)
    ensures DistinctKeys(its[..|its| - 1]) && !HasKey(its[..|its| - 1], its[|its| - 1].0)
  {
    Snoc(its);
    KeysAppend(its[..|its| - 1], [its[|its| - 1]]);
    DistinctSnoc(Keys(its[..|its| - 1]), its[|its| - 1].0);
  }

  lemma LastInit(its: seq<Item>, n: nat)
    requires |its| > 0
    ensures Last(Last(its[..|its| - 1], n) + [its[|its| - 1]], n) == Last(its, n)
  {
    Snoc(its);
    LastSnoc(its[..|its| - 1], its[|its| - 1], n);
  }

  /** Putting entries with distinct filters into an empty cache leaves
      exactly the most recent hotSize + coldSize of them, in insertion order,
      the newest min(n, hotSize) in the hot tier and the rest in the cold
      tier; everything older has been evicted. */
  lemma PutsKeepMostRecent(es: seq<CacheEntry>, hotSize: nat, coldSize: nat)
    requires DistinctFilters(es)
    ensures var r := PutAll(Tiers([], []), es, hotSize, coldSize);
            Combined(r) == Last(StoredItems(es), hotSize + coldSize) &&
            |r.hot| == (if |es| <= hotSize then |es| else hotSize)
  {
    PutAllIsPutItems(Tiers([], []), es, hotSize, coldSize);
    StoredKeysDistinct(es);
    PutItemsKeepMostRecent(StoredItems(es), hotSize, coldSize);
  }

  // ---------------------------------------------------------------- lookup

  /** The most recently used entry of a tier that can answer the query, with
      its position and result. */
  function FindInTier(s: seq<Item>, q: QueryFilter, now: int): (r: Option<(nat, CacheResult)>)
    ensures r.Some? ==> r.value.0 < |s| && TryEntry(s[r.value.0].1, q, now) == Some(r.value.1)
    ensures r.Some? ==> forall j :: r.value.0 < j < |s| ==> TryEntry(s[j].1, q, now).None?
    ensures r.None? ==> forall j :: 0 <= j < |s| ==> TryEntry(s[j].1, q, now).None?
  {
    if |s| == 0 then None
    else
      match TryEntry(s[|s| - 1].1, q, now)
      case Some(res) => Some((|s| - 1, res))
      case None =>
        var r := FindInTier(s[..|s| - 1], q, now);
        assert forall j :: 0 <= j < |s| - 1 ==> s[..|s| - 1][j] == s[j];
        r
  }

  /** Searching the first `i` items looks at item `i - 1` first. */
  lemma FindInTierStep(s: seq<Item>, i: nat, q: QueryFilter, now: int)
    requires 0 < i <= |s|
    ensures TryEntry(s[i - 1].1, q, now).Some? ==>
              FindInTier(s[..i], q, now) == Some((i - 1, TryEntry(s[i - 1].1, q, now).value))
    ensures TryEntry(s[i - 1].1, q, now).None? ==>
              FindInTier(s[..i], q, now) == FindInTier(s[..i - 1], q, now)
  {
    assert s[..i][..i - 1] == s[..i - 1];
  }

  /** A hot hit: the entry moves to the hot tier's most recent end. */
  function TouchHot(t: Tiers, i: nat): Tiers
    requires i < |t.hot|
  {
    Tiers(MoveToEnd(t.hot, i), t.cold)
  }

  /** A cold hit: the entry leaves the cold tier for the hot tier's most
      recent end, and the hot tier is rebalanced. */
  function PromoteCold(t: Tiers, j: nat, hotSize: nat, coldSize: nat): Tiers
    requires j < |t.cold| && |t.hot| <= hotSize && |t.cold| <= coldSize
  {
    Rebalance(Tiers(t.hot + [t.cold[j]], RemoveAt(t.cold, j)), hotSize, coldSize)
  }

  /** The cold tier has just lost an entry, so a promotion demotes at most
      the hot tier's oldest entry and never evicts. */
  lemma PromoteColdShape(t: Tiers, j: nat, hotSize: nat, coldSize: nat)
    requires j < |t.cold| && |t.hot| <= hotSize && |t.cold| <= coldSize
    ensures var hot := t.hot + [t.cold[j]];
            var cold := RemoveAt(t.cold, j);
            PromoteCold(t, j, hotSize, coldSize)
            == if |hot| > hotSize then Tiers(hot[1..], cold + [hot[0]]) else Tiers(hot, cold)
  {
  }

  /** `get`: search the hot tier, newest first, then the cold tier the same
      way; a miss changes nothing. */
  function GetTiers(t: Tiers, q: QueryFilter, now: int, hotSize: nat, coldSize: nat): (Tiers, Option<CacheResult>)
    requires |t.hot| <= hotSize && |t.cold| <= coldSize
  {
    match FindInTier(t.hot, q, now)
    case Some(hit) => (TouchHot(t, hit.0), Some(hit.1))
    case None =>
      match FindInTier(t.cold, q, now)
      case Some(hit) => (PromoteCold(t, hit.0, hotSize, coldSize), Some(hit.1))
      case None => (t, None)
  }

  /** `get` answers exactly when some cached entry can answer, and its answer
      is that of a cached entry. */
  lemma GetAnswersIffUsable(t: Tiers, q: QueryFilter, now: int, hotSize: nat, coldSize: nat)
    requires |t.hot| <= hotSize && |t.cold| <= coldSize
    ensures GetTiers(t, q, now, hotSize, coldSize).1.None? <==>
            forall i :: 0 <= i < |Combined(t)| ==> TryEntry(Combined(t)[i].1, q, now).None?
    ensures GetTiers(t, q, now, hotSize, coldSize).1.Some? ==>
            exists i :: 0 <= i < |Combined(t)| && TryEntry(Combined(t)[i].1, q, now) == GetTiers(t, q, now, hotSize, coldSize).1
  {
    var c := Combined(t);
    match FindInTier(t.hot, q, now)
    case Some(hit) =>
      assert c[|t.cold| + hit.0] == t.hot[hit.0];
    case None =>
      match FindInTier(t.cold, q, now)
      case Some(hit) =>
        assert c[hit.0] == t.cold[hit.0];
      case None =>
        forall i | 0 <= i < |c|
          ensures TryEntry(c[i].1, q, now).None?
        {
          if i >= |t.cold| {
            assert c[i] == t.hot[i - |t.cold|];
          }
        }
  }

  /** A miss leaves both tiers as they were. */
  lemma GetMissUnchanged(t: Tiers, q: QueryFilter, now: int, hotSize: nat, coldSize: nat)
    requires |t.hot| <= hotSize && |t.cold| <= coldSize
    requires GetTiers(t, q, now, hotSize, coldSize).1.None?
    ensures GetTiers(t, q, now, hotSize, coldSize).0 == t
  {
  }

  lemma RemoveAtLeft(a: seq<Item>, b: seq<Item>, j: nat)
    requires j < |a|
    ensures RemoveAt(a + b, j) == RemoveAt(a, j) + b
  {
    assert (a + b)[..j] == a[..j];
    assert (a + b)[j + 1..] == a[j + 1..] + b;
  }

  lemma RemoveAtRight(a: seq<Item>, b: seq<Item>, i: nat)
    requires i < |b|
    ensures RemoveAt(a + b, |a| + i) == a + RemoveAt(b, i)
  {
    assert (a + b)[..|a| + i] == a + b[..i];
    assert (a + b)[|a| + i + 1..] == b[i + 1..];
  }

  lemma MoveToEndRight(a: seq<Item>, b: seq<Item>, i: nat)
    requires i < |b|
    ensures a + MoveToEnd(b, i) == MoveToEnd(a + b, |a| + i)
  {
    RemoveAtRight(a, b, i);
    assert (a + b)[|a| + i] == b[i];
    assert a + (RemoveAt(b, i) + [b[i]]) == (a + RemoveAt(b, i)) + [b[i]];
  }

  lemma MoveToEndRightDistinct(a: seq<Item>, b: seq<Item>, i: nat)
    requires i < |b| && DistinctKeys(a + b)
    ensures DistinctKeys(a + MoveToEnd(b, i))
  {
    var moved := MoveToEnd(a + b, |a| + i);
    MoveToEndDistinct(a + b, |a| + i);
    assert DistinctKeys(moved);
    MoveToEndRight(a, b, i);
    assert Keys(a + MoveToEnd(b, i)) == Keys(moved);
  }

  lemma TouchHotKeepsTiersOk(t: Tiers, i: nat, hotSize: nat, coldSize: nat)
    requires TiersOk(t, hotSize, coldSize) && i < |t.hot|
    ensures TiersOk(TouchHot(t, i), hotSize, coldSize)
  {
    MoveToEndRightDistinct(t.cold, t.hot, i);
  }

  lemma PromoteColdKeepsTiersOk(t: Tiers, j: nat, hotSize: nat, coldSize: nat)
    requires TiersOk(t, hotSize, coldSize) && j < |t.cold|
    ensures TiersOk(PromoteCold(t, j, hotSize, coldSize), hotSize, coldSize)
  {
    var c := Combined(t);
    var u := Tiers(t.hot + [t.cold[j]], RemoveAt(t.cold, j));
    RemoveAtLeft(t.cold, t.hot, j);
    assert c[j] == t.cold[j];
    assert Combined(u) == MoveToEnd(c, j);
    MoveToEndDistinct(c, j);
    RebalanceKeepsDistinct(u, hotSize, coldSize);
  }

  /** A promoted entry ends up as the hot tier's newest and leaves the cold
      tier. */
  lemma PromoteColdMovesKey(t: Tiers, j: nat, hotSize: nat, coldSize: nat)
    requires TiersOk(t, hotSize, coldSize) && hotSize >= 1 && j < |t.cold|
    ensures var r := PromoteCold(t, j, hotSize, coldSize);
            HasKey(r.hot, t.cold[j].0) && !HasKey(r.cold, t.cold[j].0)
  {
    PromoteColdKeepsTiersOk(t, j, hotSize, coldSize);
    PromotedIsNewest(t, j, hotSize, coldSize);
    NewestHotKey(PromoteCold(t, j, hotSize, coldSize), hotSize, coldSize);
  }

  lemma PromotedIsNewest(t: Tiers, j: nat, hotSize: nat, coldSize: nat)
    requires |t.hot| <= hotSize && |t.cold| <= coldSize && hotSize >= 1 && j < |t.cold|
    ensures var r := PromoteCold(t, j, hotSize, coldSize);
            |r.hot| > 0 && r.hot[|r.hot| - 1] == t.cold[j]
  {
  }

  /** In tiers without a repeated key, the hot tier's newest key is in the
      hot tier and not in the cold one. */
  lemma NewestHotKey(r: Tiers, hotSize: nat, coldSize: nat)
    requires TiersOk(r, hotSize, coldSize) && |r.hot| > 0
    ensures HasKey(r.hot, r.hot[|r.hot| - 1].0) && !HasKey(r.cold, r.hot[|r.hot| - 1].0)
  {
    assert Keys(r.hot)[|r.hot| - 1] == r.hot[|r.hot| - 1].0;
    LastKeyNotEarlier(r.cold, r.hot);
  }

  /** `get` keeps the tiers within capacity and free of duplicate keys. */
  lemma GetKeepsTiersOk(t: Tiers, q: QueryFilter, now: int, hotSize: nat, coldSize: nat)
    requires TiersOk(t, hotSize, coldSize)
    ensures TiersOk(GetTiers(t, q, now, hotSize, coldSize).0, hotSize, coldSize)
  {
    match FindInTier(t.hot, q, now)
    case Some(hit) =>
      TouchHotKeepsTiersOk(t, hit.0, hotSize, coldSize);
    case None =>
      match FindInTier(t.cold, q, now)
      case Some(hit) =>
        PromoteColdKeepsTiersOk(t, hit.0, hotSize, coldSize);
      case None =>
  }

  /** A hit in the hot tier moves that entry to the hot tier's most recent
      end and leaves the cold tier alone. */
  lemma HotHitBecomesMostRecent(t: Tiers, q: QueryFilter, now: int, hotSize: nat, coldSize: nat)
    requires |t.hot| <= hotSize && |t.cold| <= coldSize
    requires FindInTier(t.hot, q, now).Some?
    ensures var r := GetTiers(t, q, now, hotSize, coldSize).0;
            r.cold == t.cold && |r.hot| == |t.hot| &&
            r.hot[|r.hot| - 1] == t.hot[FindInTier(t.hot, q, now).value.0]
  {
  }

  /** With no key held twice, the key of the last item is nowhere earlier. */
  lemma LastKeyNotEarlier(a: seq<Item>, b: seq<Item>)
    requires |b| > 0 && DistinctKeys(a + b)
    ensures !HasKey(a, b[|b| - 1].0)
  {
    var x := b[|b| - 1].0;
    var ks := Keys(a + b);
    assert ks[|a| + |b| - 1] == x;
    forall i | 0 <= i < |a|
      ensures Keys(a)[i] != x
    {
      assert ks[i] == Keys(a)[i];
    }
  }

  /** A hit in the cold tier promotes the entry: afterwards its key is in the
      hot tier and no longer in the cold tier. */
  lemma ColdHitPromotes(t: Tiers, q: QueryFilter, now: int, hotSize: nat, coldSize: nat)
    requires TiersOk(t, hotSize, coldSize) && hotSize >= 1
    requires FindInTier(t.hot, q, now).None? && FindInTier(t.cold, q, now).Some?
    ensures var k := t.cold[FindInTier(t.cold, q, now).value.0].0;
            var r := GetTiers(t, q, now, hotSize, coldSize).0;
            HasKey(r.hot, k) && !HasKey(r.cold, k)
  {
    PromoteColdMovesKey(t, FindInTier(t.cold, q, now).value.0, hotSize, coldSize);
  }

  /** Putting an entry and asking for exactly its filter gives an exact,
      non-incremental hit, answered with the stored messages that pass the
      query's filters in its window, in stored order. */
  lemma PutThenGetIsExact(t: Tiers, e: CacheEntry, q: QueryFilter, now: int, hotSize: nat, coldSize: nat)
    requires |t.hot| <= hotSize && |t.cold| <= coldSize && hotSize >= 1
    requires q.groupId == Some(e.groupId) && q.userId == e.userId && q.content == e.content && q.regex == e.regex
    requires q.timeAfter == e.timeAfter && q.timeBefore == e.timeBefore
    ensures var res := GetTiers(PutTiers(t, e, hotSize, coldSize), q, now, hotSize, coldSize).1;
            res.Some? && res.value.matchType == ExactMatch && !res.value.isFuzzy && !res.value.needsIncremental &&
            ListsKept(res.value.messages, Truncated(e).messages, q, QueryAfter(q), QueryBefore(q, now))
  {
    var p := PutTiers(t, e, hotSize, coldSize);
    PutStoresInHot(t, e, hotSize, coldSize);
    WeakMatchSelf(Truncated(e), q);
    assert TryEntry(p.hot[|p.hot| - 1].1, q, now).Some?;
    TryEntryKeepsOrder(Truncated(e), q, now);
  }

  /** The put-then-get example of the cache tests: the one stored message
      comes back. */
  lemma PutThenGetExample(t: Tiers, now: int)
    requires |t.hot| <= 5 && |t.cold| <= 10
    ensures var m := Message(1, "hello", 1500, 123);
            var e := CacheEntry(123, None, Some("hello"), None, Some(1000), Some(2000), [m], 1);
            var q := QueryFilter(Some(123), None, Some("hello"), None, Some(1000), Some(2000), 20, false);
            var res := GetTiers(PutTiers(t, e, 5, 10), q, now, 5, 10).1;
            res.Some? && res.value.messages == [m] && !res.value.isFuzzy && !res.value.needsIncremental
  {
    var m := Message(1, "hello", 1500, 123);
    var e := CacheEntry(123, None, Some("hello"), None, Some(1000), Some(2000), [m], 1);
    var q := QueryFilter(Some(123), None, Some("hello"), None, Some(1000), Some(2000), 20, false);
    PutThenGetIsExact(t, e, q, now, 5, 10);
    assert Truncated(e) == e;
    Text.ContainsSelf("hello");
    assert Keep(m, q, 1000, 2000);
    assert KeptPositions([m], q, 1000, 2000) == [0];
  }

  // ---------------------------------------------------------------- update, reload

  /** `update_entry`: drop the old key from both tiers, then `put`. */
  function UpdateTiers(t: Tiers, oldKey: string, e: CacheEntry, hotSize: nat, coldSize: nat): Tiers
    requires |t.hot| <= hotSize && |t.cold| <= coldSize
  {
    PutTiers(Tiers(RemoveKey(t.hot, oldKey), RemoveKey(t.cold, oldKey)), e, hotSize, coldSize)
  }

  /** After `update_entry` the old key is in neither tier (unless the new
      entry has that same key) and the new entry is the hot tier's newest. */
  lemma UpdateReplaces(t: Tiers, oldKey: string, e: CacheEntry, hotSize: nat, coldSize: nat)
    requires |t.hot| <= hotSize && |t.cold| <= coldSize && hotSize >= 1
    requires oldKey != MakeKey(e)
    ensures var r := UpdateTiers(t, oldKey, e, hotSize, coldSize);
            !HasKey(r.hot, oldKey) && !HasKey(r.cold, oldKey) &&
            r.hot[|r.hot| - 1] == (MakeKey(e), Truncated(e))
  {
    var k := MakeKey(e);
    var s := Tiers(RemoveKey(t.hot, oldKey), RemoveKey(t.cold, oldKey));
    PutStoresInHot(s, e, hotSize, coldSize);
    RemoveKeyKeys(t.hot, oldKey);
    RemoveKeyKeys(t.cold, oldKey);
    RemoveKeyKeys(s.hot, k);
    RemoveKeyKeys(s.cold, k);
    var it := StoredItem(e);
    var u := Tiers(RemoveKey(s.hot, k) + [it], RemoveKey(s.cold, k));
    HasKeyAppend(RemoveKey(s.hot, k), [it], oldKey);
    assert Keys([it]) == [k];
    RebalanceAddsNoKey(u, oldKey, hotSize, coldSize);
  }

  /** Restoring a persisted snapshot into the cold tier: entries are taken in
      order, a repeated key keeps its latest entry, and only the most recent
      `coldSize` survive. */
  function LoadItems(s: seq<Item>, coldSize: nat): (r: seq<Item>)
    ensures |r| <= coldSize && DistinctKeys(r)
    decreases |s|
  {
    if |s| == 0 then []
    else
      var acc := LoadItems(s[..|s| - 1], coldSize);
      var it := s[|s| - 1];
      var grown := RemoveKey(acc, it.0) + [it];
      RemoveKeyProps(acc, it.0);
      KeysAppend(RemoveKey(acc, it.0), [it]);
      DistinctSnoc(Keys(RemoveKey(acc, it.0)), it.0);
      DistinctSuffix(grown, |grown| - |Last(grown, coldSize)|);
      Last(grown, coldSize)
  }

  /** The cold tier of a freshly constructed cache: empty when there is no
      snapshot or it could not be read. */
  function LoadCold(snapshot: Option<seq<Item>>, coldSize: nat): (r: seq<Item>)
    ensures |r| <= coldSize && DistinctKeys(r)
    ensures snapshot.None? ==> r == []
  {
    match snapshot
    case None => []
    case Some(s) => LoadItems(s, coldSize)
  }

  /** A snapshot without repeated keys that fits the cold tier is restored
      whole and in order. */
  lemma {:induction false} LoadItemsRestores(s: seq<Item>, coldSize: nat)
    requires DistinctKeys(s) && |s| <= coldSize
    ensures LoadItems(s, coldSize) == s
    decreases |s|
  {
    if |s| > 0 {
      var init := s[..|s| - 1];
      var it := s[|s| - 1];
      assert s == init + [it];
      KeysAppend(init, [it]);
      DistinctSnoc(Keys(init), it.0);
      LoadItemsRestores(init, coldSize);
      RemoveKeyProps(init, it.0);
    }
  }

  /** Reloading what a cache persisted (both tiers, oldest first) puts every
      entry into the new cache's cold tier when they fit. */
  lemma ReloadKeepsEverything(t: Tiers, hotSize: nat, coldSize: nat)
    requires TiersOk(t, hotSize, coldSize) && |Combined(t)| <= coldSize
    ensures LoadCold(Some(Combined(t)), coldSize) == Combined(t)
  {
    LoadItemsRestores(Combined(t), coldSize);
  }

  /** An emptied cache answers nothing. */
  lemma ClearedCacheMisses(q: QueryFilter, now: int, hotSize: nat, coldSize: nat)
    ensures GetTiers(Tiers([], []), q, now, hotSize, coldSize).1 == None
  {
  }

  // ---------------------------------------------------------------- the class

  class HotColdCache {
    const hotSize: nat
    const coldSize: nat
    var hot: seq<Item>
    var cold: seq<Item>
    /** The snapshot last written to the cache file. */
    var persisted: seq<Item>

    predicate Valid()
      reads this
    {
      TiersOk(Tiers(hot, cold), hotSize, coldSize) && persisted == cold + hot
    }

    function State(): Tiers
      reads this
    {
      Tiers(hot, cold)
    }

    /** Construction with the snapshot read from the cache file, or None when
        the file is missing or unreadable. */
    constructor (hotSize: nat, coldSize: nat, snapshot: Option<seq<Item>>)
      ensures Valid()
      ensures this.hotSize == hotSize && this.coldSize == coldSize
      ensures hot == [] && cold == LoadCold(snapshot, coldSize)
    {
      this.hotSize := hotSize;
      this.coldSize := coldSize;
      hot := [];
      cold := LoadCold(snapshot, coldSize);
      new;
      persisted := cold + hot;
      assert Combined(Tiers(hot, cold)) == cold;
    }

    method Put(e: CacheEntry)
      requires Valid()
      modifies this
      ensures Valid()
      ensures State() == PutTiers(old(State()), e, hotSize, coldSize)
    {
      PutKeepsTiersOk(State(), StoredItem(e), hotSize, coldSize);
      var key := MakeKey(e);
      hot := RemoveKey(hot, key);
      cold := RemoveKey(cold, key);
      hot := hot + [(key, Truncated(e))];
      if |hot| > hotSize {
        var lru := hot[0];
        hot := hot[1..];
        cold := cold + [lru];
        if |cold| > coldSize {
          cold := cold[1..];
        }
      }
      persisted := cold + hot;
    }

    /** Index and result of the most recently used entry of `tier` that can
        answer the query, scanning from the newest end. */
    static method FindIn(tier: seq<Item>, q: QueryFilter, now: int) returns (r: Option<(nat, CacheResult)>)
      ensures r == FindInTier(tier, q, now)
    {
      var i := |tier|;
      assert tier[..i] == tier;
      while i > 0
        invariant 0 <= i <= |tier|
        invariant FindInTier(tier, q, now) == FindInTier(tier[..i], q, now)
      {
        FindInTierStep(tier, i, q, now);
        var res := TryEntry(tier[i - 1].1, q, now);
        if res.Some? {
          return Some((i - 1, res.value));
        }
        i := i - 1;
      }
      return None;
    }

    /** Moves the cold entry at `j` to the hot tier's newest end, demoting
        the hot tier's oldest entry when the hot tier overflows. The cold
        tier has just lost an entry, so the demotion never overflows it. */
    method Promote(j: nat)
      requires Valid() && j < |cold|
      modifies this
      ensures Valid()
      ensures State() == PromoteCold(old(State()), j, hotSize, coldSize)
    {
      PromoteColdKeepsTiersOk(State(), j, hotSize, coldSize);
      PromoteColdShape(State(), j, hotSize, coldSize);
      var item := cold[j];
      cold := RemoveAt(cold, j);
      hot := hot + [item];
      if |hot| > hotSize {
        var lru := hot[0];
        hot := hot[1..];
        cold := cold + [lru];
      }
      persisted := cold + hot;
    }

    method Get(q: QueryFilter, now: int) returns (r: Option<CacheResult>)
      requires Valid()
      modifies this
      ensures Valid()
      ensures (State(), r) == GetTiers(old(State()), q, now, hotSize, coldSize)
    {
      var hit := FindIn(hot, q, now);
      if hit.Some? {
        TouchHotKeepsTiersOk(State(), hit.value.0, hotSize, coldSize);
        hot := MoveToEnd(hot, hit.value.0);
        persisted := cold + hot;
        r := Some(hit.value.1);
      } else {
        var coldHit := FindIn(cold, q, now);
        if coldHit.Some? {
          Promote(coldHit.value.0);
          r := Some(coldHit.value.1);
        } else {
          r := None;
        }
      }
    }

    method UpdateEntry(oldKey: string, e: CacheEntry)
      requires Valid()
      modifies this
      ensures Valid()
      ensures State() == UpdateTiers(old(State()), oldKey, e, hotSize, coldSize)
    {
      RemoveKeyAppend(cold, hot, oldKey);
      RemoveKeyProps(cold + hot, oldKey);
      hot := RemoveKey(hot, oldKey);
      cold := RemoveKey(cold, oldKey);
      persisted := cold + hot;
      Put(e);
    }

    method Clear()
      requires Valid()
      modifies this
      ensures Valid()
      ensures hot == [] && cold == [] && persisted == []
    {
      hot := [];
      cold := [];
      persisted := [];
    }

    /** `stats()`: the number of entries in each tier, never above its
        capacity. */
    method Stats() returns (hotCount: nat, coldCount: nat)
      requires Valid()
      ensures hotCount == |hot| && coldCount == |cold|
      ensures hotCount <= hotSize && coldCount <= coldSize
    {
      hotCount := |hot|;
      coldCount := |cold|;
    }
  }
}
