/** Python's `dict` where its iteration order is observable: a sequence of
    key/value pairs in insertion order, each key at most once. */
module Dicts {
  import opened Wrappers

  type Dict<K, V> = seq<(K, V)>

  function Keys<K(==,!new), V(!new)>(d: Dict<K, V>): (ks: seq<K>)
    ensures |ks| == |d| && forall i :: 0 <= i < |d| ==> ks[i] == d[i].0
  {
    if |d| == 0 then [] else [d[0].0] + Keys(d[1..])
  }

  /** No key occurs twice. */
  predicate UniqueKeys<K(==,!new), V(!new)>(d: Dict<K, V>) {
    forall i, j :: 0 <= i < j < |d| ==> d[i].0 != d[j].0
  }

  predicate HasKey<K(==,!new), V(!new)>(d: Dict<K, V>, k: K) {
    exists i :: 0 <= i < |d| && d[i].0 == k
  }

  /** `d.get(k)`: the value of the first pair with key `k`. */
  function Get<K(==,!new), V(!new)>(d: Dict<K, V>, k: K): (r: Option<V>)
    ensures r.Some? <==> HasKey(d, k)
    ensures r.Some? ==> exists i :: 0 <= i < |d| && d[i] == (k, r.value)
  {
    if |d| == 0 then None
    else if d[0].0 == k then Some(d[0].1)
    else
      var r := Get(d[1..], k);
      assert HasKey(d[1..], k) ==> HasKey(d, k) by {
        if HasKey(d[1..], k) {
          var i :| 0 <= i < |d| - 1 && d[1..][i].0 == k;
          assert d[i + 1].0 == k;
        }
      }
      assert HasKey(d, k) ==> HasKey(d[1..], k) by {
        if HasKey(d, k) {
          var i :| 0 <= i < |d| && d[i].0 == k;
          assert d[1..][i - 1].0 == k;
        }
      }
      assert r.Some? ==> exists i :: 0 <= i < |d| && d[i] == (k, r.value) by {
        if r.Some? {
          var i :| 0 <= i < |d| - 1 && d[1..][i] == (k, r.value);
          assert d[i + 1] == (k, r.value);
        }
      }
      r
  }

  /** With unique keys, the value `Get` finds is the one stored at any
      position holding the key. */
  lemma GetAt<K(!new), V(!new)>(d: Dict<K, V>, i: nat)
    requires UniqueKeys(d) && i < |d|
    ensures Get(d, d[i].0) == Some(d[i].1)
  {
    var r := Get(d, d[i].0);
    var j :| 0 <= j < |d| && d[j] == (d[i].0, r.value);
    assert j == i;
  }

  /** `d[k] = v`: an existing key keeps its position, a new one goes last. */
  function Set<K(==,!new), V(!new)>(d: Dict<K, V>, k: K, v: V): (r: Dict<K, V>)
    requires UniqueKeys(d)
    ensures |r| == if HasKey(d, k) then |d| else |d| + 1
    ensures forall i :: 0 <= i < |d| ==> r[i] == (if d[i].0 == k then (k, v) else d[i])
    ensures !HasKey(d, k) ==> r[|d|] == (k, v)
  {
    if |d| == 0 then [(k, v)]
    else if d[0].0 == k then
      assert HasKey(d, k);
      [(k, v)] + d[1..]
    else
      var rest := Set(d[1..], k, v);
      assert HasKey(d[1..], k) <==> HasKey(d, k) by {
        if HasKey(d[1..], k) {
          var i :| 0 <= i < |d| - 1 && d[1..][i].0 == k;
          assert d[i + 1].0 == k;
        }
        if HasKey(d, k) {
          var i :| 0 <= i < |d| && d[i].0 == k;
          assert d[1..][i - 1].0 == k;
        }
      }
      [d[0]] + rest
  }

  /** `d.pop(k, None)`: the pair with key `k` goes, the rest keep their order. */
  function Remove<K(==,!new), V(!new)>(d: Dict<K, V>, k: K): (r: Dict<K, V>)
    ensures |r| <= |d|
    ensures forall p :: p in r <==> p in d && p.0 != k
  {
    if |d| == 0 then []
    else if d[0].0 == k then Remove(d[1..], k)
    else [d[0]] + Remove(d[1..], k)
  }

  /** `Set` keeps the keys unique. */
  lemma SetUnique<K(!new), V(!new)>(d: Dict<K, V>, k: K, v: V)
    requires UniqueKeys(d)
    ensures UniqueKeys(Set(d, k, v))
  {
    var r := Set(d, k, v);
    if !HasKey(d, k) {
      forall i | 0 <= i < |d| ensures r[i].0 != k {
        assert !(d[i].0 == k);
      }
    }
  }

  /** Reading back what `Set` wrote. */
  lemma GetSet<K(!new), V(!new)>(d: Dict<K, V>, k: K, v: V, k2: K)
    requires UniqueKeys(d)
    ensures UniqueKeys(Set(d, k, v))
    ensures Get(Set(d, k, v), k2) == if k2 == k then Some(v) else Get(d, k2)
  {
    SetUnique(d, k, v);
    if k2 == k {
      GetSetSame(d, k, v);
    } else {
      GetSetOther(d, k, v, k2);
    }
  }

  lemma GetSetSame<K(!new), V(!new)>(d: Dict<K, V>, k: K, v: V)
    requires UniqueKeys(d) && UniqueKeys(Set(d, k, v))
    ensures Get(Set(d, k, v), k) == Some(v)
  {
    if HasKey(d, k) {
      var i :| 0 <= i < |d| && d[i].0 == k;
      GetAt(Set(d, k, v), i);
    } else {
      GetAt(Set(d, k, v), |d|);
    }
  }

  lemma GetSetOther<K(!new), V(!new)>(d: Dict<K, V>, k: K, v: V, k2: K)
    requires UniqueKeys(d) && UniqueKeys(Set(d, k, v)) && k2 != k
    ensures Get(Set(d, k, v), k2) == Get(d, k2)
  {
    var r := Set(d, k, v);
    var g := Get(d, k2);
    if g.Some? {
      var i :| 0 <= i < |d| && d[i] == (k2, g.value);
      GetAt(r, i);
    } else {
      forall i | 0 <= i < |r| ensures r[i].0 != k2 {
        if i < |d| {
          assert !(d[i].0 == k2);
        }
      }
    }
  }

  /** Reading after `Remove`. */
  lemma GetRemove<K(!new), V(!new)>(d: Dict<K, V>, k: K, k2: K)
    requires UniqueKeys(d)
    ensures UniqueKeys(Remove(d, k))
    ensures Get(Remove(d, k), k2) == if k2 == k then None else Get(d, k2)
    decreases |d|
  {
    if |d| > 0 {
      assert UniqueKeys(d[1..]);
      GetRemove(d[1..], k, k2);
      var rest := Remove(d[1..], k);
      if d[0].0 != k {
        forall p | p in rest ensures p.0 != d[0].0 {
          assert p in d[1..];
        }
      }
    }
  }

  /** Writing back the value a key already has changes nothing. */
  lemma SetSame<K(!new), V(!new)>(d: Dict<K, V>, k: K, v: V)
    requires UniqueKeys(d) && Get(d, k) == Some(v)
    ensures Set(d, k, v) == d
  {
    var i :| 0 <= i < |d| && d[i] == (k, v);
    var r := Set(d, k, v);
    forall j | 0 <= j < |d| ensures r[j] == d[j] {
      if d[j].0 == k {
        assert j == i;
      }
    }
  }

  /** `Set` leaves every other key alone. */
  lemma SetFrame<K(!new), V(!new)>(d: Dict<K, V>, k: K, v: V)
    requires UniqueKeys(d)
    ensures UniqueKeys(Set(d, k, v)) && Get(Set(d, k, v), k) == Some(v)
    ensures forall k2 :: k2 != k ==> Get(Set(d, k, v), k2) == Get(d, k2)
  {
    GetSet(d, k, v, k);
    forall k2 | k2 != k ensures Get(Set(d, k, v), k2) == Get(d, k2) {
      GetSet(d, k, v, k2);
    }
  }

  /** `Remove` leaves every other key alone. */
  lemma RemoveFrame<K(!new), V(!new)>(d: Dict<K, V>, k: K)
    requires UniqueKeys(d)
    ensures UniqueKeys(Remove(d, k)) && !HasKey(Remove(d, k), k)
    ensures forall k2 :: k2 != k ==> Get(Remove(d, k), k2) == Get(d, k2)
  {
    GetRemove(d, k, k);
    forall k2 | k2 != k ensures Get(Remove(d, k), k2) == Get(d, k2) {
      GetRemove(d, k, k2);
    }
  }

  /** Membership in a sequence split before its last element. */
  lemma InSnoc<T>(s: seq<T>, x: T)
    requires |s| > 0
    ensures x in s <==> x in s[..|s| - 1] || x == s[|s| - 1]
  {
    assert s == s[..|s| - 1] + [s[|s| - 1]];
  }

  /** Key membership in a dictionary split before its last pair. */
  lemma HasKeySnoc<K(!new), V(!new)>(d: Dict<K, V>, k: K)
    requires |d| > 0
    ensures HasKey(d, k) <==> HasKey(d[..|d| - 1], k) || d[|d| - 1].0 == k
  {
    if HasKey(d, k) && d[|d| - 1].0 != k {
      var i :| 0 <= i < |d| && d[i].0 == k;
      assert d[..|d| - 1][i].0 == k;
    }
    if HasKey(d[..|d| - 1], k) {
      var i :| 0 <= i < |d| - 1 && d[..|d| - 1][i].0 == k;
      assert d[i].0 == k;
    }
  }

  /** The keys listed by `Keys` are the keys `HasKey` finds. */
  lemma KeysHasKey<K(!new), V(!new)>(d: Dict<K, V>, k: K)
    ensures k in Keys(d) <==> HasKey(d, k)
  {
    if k in Keys(d) {
      var i :| 0 <= i < |d| && Keys(d)[i] == k;
      assert d[i].0 == k;
    }
    if HasKey(d, k) {
      var i :| 0 <= i < |d| && d[i].0 == k;
      assert Keys(d)[i] == k;
    }
  }

  /** Reading a dictionary split before its last pair. */
  lemma GetSnoc<K(!new), V(!new)>(d: Dict<K, V>, k: K)
    requires UniqueKeys(d) && |d| > 0
    ensures UniqueKeys(d[..|d| - 1])
    ensures Get(d, k) == if d[|d| - 1].0 == k then Some(d[|d| - 1].1) else Get(d[..|d| - 1], k)
  {
    var init := d[..|d| - 1];
    HasKeySnoc(d, k);
    if d[|d| - 1].0 == k {
      GetAt(d, |d| - 1);
    } else if HasKey(init, k) {
      var i :| 0 <= i < |init| && init[i].0 == k;
      GetAt(d, i);
      GetAt(init, i);
    }
  }

  /** A run of `d[k] = v` assignments, in order. */
  function WriteAll<K(==,!new), V(!new)>(d: Dict<K, V>, ws: seq<(K, V)>): (r: Dict<K, V>)
    requires UniqueKeys(d)
    ensures UniqueKeys(r)
    decreases |ws|
  {
    if |ws| == 0 then d
    else
      SetUnique(d, ws[0].0, ws[0].1);
      WriteAll(Set(d, ws[0].0, ws[0].1), ws[1..])
  }

  /** The value the last assignment to `k` in `ws` writes, if any. */
  function Written<K(==), V(==)>(ws: seq<(K, V)>, k: K): (r: Option<V>)
    ensures r.Some? ==> exists i :: 0 <= i < |ws| && ws[i] == (k, r.value)
    ensures r.None? ==> forall i :: 0 <= i < |ws| ==> ws[i].0 != k
    decreases |ws|
  {
    if |ws| == 0 then None
    else
      var r := Written(ws[1..], k);
      if r.Some? then
        var i :| 0 <= i < |ws| - 1 && ws[1..][i] == (k, r.value);
        assert ws[i + 1] == (k, r.value);
        r
      else if ws[0].0 == k then Some(ws[0].1)
      else
        assert forall i :: 1 <= i < |ws| ==> ws[i] == ws[1..][i - 1];
        None
  }

  /** After the assignments a key holds what was last written to it, or its
      old value when it was not written at all. */
  lemma {:induction false} WriteAllGet<K(!new), V(!new)>(d: Dict<K, V>, ws: seq<(K, V)>, k: K)
    requires UniqueKeys(d)
    ensures Get(WriteAll(d, ws), k) == if Written(ws, k).Some? then Written(ws, k) else Get(d, k)
    decreases |ws|
  {
    if |ws| > 0 {
      SetUnique(d, ws[0].0, ws[0].1);
      WriteAllGet(Set(d, ws[0].0, ws[0].1), ws[1..], k);
      GetSet(d, ws[0].0, ws[0].1, k);
    }
  }

  /** Assignments can be run in two batches. */
  lemma {:induction false} WriteAllAppend<K(!new), V(!new)>(d: Dict<K, V>, a: seq<(K, V)>, b: seq<(K, V)>)
    requires UniqueKeys(d)
    ensures WriteAll(d, a + b) == WriteAll(WriteAll(d, a), b)
    decreases |a|
  {
    if |a| > 0 {
      SetUnique(d, a[0].0, a[0].1);
      assert (a + b)[1..] == a[1..] + b;
      WriteAllAppend(Set(d, a[0].0, a[0].1), a[1..], b);
    } else {
      assert a + b == b;
    }
  }

  /** One more assignment after a run of them. */
  lemma WriteAllSnoc<K(!new), V(!new)>(d: Dict<K, V>, ws: seq<(K, V)>, k: K, v: V)
    requires UniqueKeys(d)
    ensures UniqueKeys(WriteAll(d, ws))
    ensures WriteAll(d, ws + [(k, v)]) == Set(WriteAll(d, ws), k, v)
  {
    WriteAllAppend(d, ws, [(k, v)]);
    var w := WriteAll(d, ws);
    SetUnique(w, k, v);
    assert [(k, v)][1..] == [];
  }

  /** A run of three and of four assignments, spelt out. */
  lemma WriteThree<K(!new), V(!new)>(d: Dict<K, V>, a: (K, V), b: (K, V), c: (K, V))
    requires UniqueKeys(d)
    ensures UniqueKeys(Set(d, a.0, a.1)) && UniqueKeys(Set(Set(d, a.0, a.1), b.0, b.1))
    ensures WriteAll(d, [a, b, c]) == Set(Set(Set(d, a.0, a.1), b.0, b.1), c.0, c.1)
  {
    var d1 := Set(d, a.0, a.1);
    SetUnique(d, a.0, a.1);
    SetUnique(d1, b.0, b.1);
    WriteFirst(d, [a, b, c]);
    assert [a, b, c][1..] == [b, c];
    WriteFirst(d1, [b, c]);
    assert [b, c][1..] == [c];
    WriteOne(Set(d1, b.0, b.1), c);
  }

  lemma WriteFirst<K(!new), V(!new)>(d: Dict<K, V>, ws: seq<(K, V)>)
    requires UniqueKeys(d) && |ws| > 0
    ensures UniqueKeys(Set(d, ws[0].0, ws[0].1))
    ensures WriteAll(d, ws) == WriteAll(Set(d, ws[0].0, ws[0].1), ws[1..])
  {
    SetUnique(d, ws[0].0, ws[0].1);
  }

  lemma WriteFour<K(!new), V(!new)>(d: Dict<K, V>, a: (K, V), b: (K, V), c: (K, V), e: (K, V))
    requires UniqueKeys(d)
    ensures UniqueKeys(Set(d, a.0, a.1))
    ensures WriteAll(d, [a, b, c, e]) == WriteAll(Set(d, a.0, a.1), [b, c, e])
  {
    SetUnique(d, a.0, a.1);
    assert [a, b, c, e][1..] == [b, c, e];
  }

  lemma WriteOne<K(!new), V(!new)>(d: Dict<K, V>, a: (K, V))
    requires UniqueKeys(d)
    ensures WriteAll(d, [a]) == Set(d, a.0, a.1)
  {
    SetUnique(d, a.0, a.1);
    assert [a][1..] == [];
  }

  /** The last write to a key in two batches is in the second batch if
      there is one there. */
  lemma {:induction false} WrittenAppend<K, V>(a: seq<(K, V)>, b: seq<(K, V)>, k: K)
    ensures Written(a + b, k) == if Written(b, k).Some? then Written(b, k) else Written(a, k)
    decreases |a|
  {
    if |a| > 0 {
      assert (a + b)[1..] == a[1..] + b;
      WrittenAppend(a[1..], b, k);
    } else {
      assert a + b == b;
    }
  }

  lemma WrittenThree<K, V>(a: (K, V), b: (K, V), c: (K, V), k: K)
    ensures Written([a, b, c], k) ==
              if c.0 == k then Some(c.1) else if b.0 == k then Some(b.1) else if a.0 == k then Some(a.1) else None
  {
    assert [a, b, c][1..] == [b, c];
    assert [b, c][1..] == [c];
    WrittenOne(c, k);
    assert Written([b, c], k) == if c.0 == k then Some(c.1) else if b.0 == k then Some(b.1) else None;
  }

  lemma WrittenFour<K, V>(a: (K, V), b: (K, V), c: (K, V), e: (K, V), k: K)
    ensures Written([a, b, c, e], k) ==
              if Written([b, c, e], k).Some? then Written([b, c, e], k) else if a.0 == k then Some(a.1) else None
  {
    assert [a, b, c, e][1..] == [b, c, e];
  }

  lemma WrittenOne<K, V>(a: (K, V), k: K)
    ensures Written([a], k) == if a.0 == k then Some(a.1) else None
  {
    assert [a][1..] == [];
  }
}
