/** Python's insertion-ordered dictionary (OrderedDict, and the plain dict
    underneath a Counter): a sequence of distinct keys giving the iteration
    order, plus the key-to-value map. */
module OrderedDicts {
  import opened CacheTypes

  predicate Distinct(s: seq<Key>) {
    forall i, j :: 0 <= i < j < |s| ==> s[i] != s[j]
  }

  /** Position of the first occurrence of `k` in `s`. */
  function IndexOf(s: seq<Key>, k: Key): (i: nat)
    requires k in s
    ensures i < |s| && s[i] == k
    ensures forall j :: 0 <= j < i ==> s[j] != k
  {
    if s[0] == k then 0 else 1 + IndexOf(s[1..], k)
  }

  /** In a sequence of distinct keys a key's position is the only one holding it. */
  lemma IndexOfDistinct(s: seq<Key>, i: nat)
    requires Distinct(s) && i < |s|
    ensures IndexOf(s, s[i]) == i
  {
  }

  /** `a` comes strictly before `b` in the iteration order `s`. */
  predicate Before(s: seq<Key>, a: Key, b: Key) {
    a in s && b in s && IndexOf(s, a) < IndexOf(s, b)
  }

  /** `s` with the occurrence of `k` cut out; `s` itself when `k` is absent. */
  function Without(s: seq<Key>, k: Key): (r: seq<Key>)
    ensures k in s ==> |r| == |s| - 1
    ensures k !in s ==> r == s
  {
    if k in s then s[..IndexOf(s, k)] + s[IndexOf(s, k) + 1..] else s
  }

  /** The keys left once `k` is cut out: those before it, then those after it. */
  lemma WithoutAt(s: seq<Key>, k: Key, j: nat)
    requires k in s && j < |s| - 1
    ensures Without(s, k)[j] == s[if j < IndexOf(s, k) then j else j + 1]
  {
  }

  lemma WithoutDistinct(s: seq<Key>, k: Key)
    requires Distinct(s) && k in s
    ensures Distinct(Without(s, k))
  {
    var r := Without(s, k);
    forall i, j | 0 <= i < j < |r|
      ensures r[i] != r[j]
    {
      WithoutAt(s, k, i);
      WithoutAt(s, k, j);
    }
  }

  lemma WithoutMembers(s: seq<Key>, k: Key, x: Key)
    requires Distinct(s) && k in s
    ensures x in Without(s, k) <==> x in s && x != k
  {
    var p := IndexOf(s, k);
    var r := Without(s, k);
    if x in r {
      var i :| 0 <= i < |r| && r[i] == x;
      WithoutAt(s, k, i);
    }
    if x in s && x != k {
      var i := IndexOf(s, x);
      var ri := if i < p then i else i - 1;
      WithoutAt(s, k, ri);
    }
  }

  /** Cutting a key out of distinct keys leaves exactly the other keys, still distinct. */
  lemma WithoutContents(s: seq<Key>, k: Key)
    requires Distinct(s)
    ensures Distinct(Without(s, k))
    ensures forall x :: x in Without(s, k) <==> x in s && x != k
  {
    if k in s {
      WithoutDistinct(s, k);
      forall x {
        WithoutMembers(s, k, x);
      }
    }
  }

  /** Where a remaining key lands once `k` is cut out: one place earlier
      when it stood after `k`, the same place otherwise. */
  lemma WithoutIndex(s: seq<Key>, k: Key, x: Key)
    requires Distinct(s) && k in s && x in s && x != k
    ensures x in Without(s, k)
    ensures IndexOf(Without(s, k), x) ==
              if IndexOf(s, x) < IndexOf(s, k) then IndexOf(s, x) else IndexOf(s, x) - 1
  {
    WithoutContents(s, k);
    var p, i := IndexOf(s, k), IndexOf(s, x);
    var r := Without(s, k);
    var ri := if i < p then i else i - 1;
    assert r[ri] == x;
    IndexOfDistinct(r, ri);
  }

  /** Cutting a key out keeps the relative order of every other pair of keys. */
  lemma WithoutKeepsOrder(s: seq<Key>, k: Key, a: Key, b: Key)
    requires Distinct(s) && a != k && b != k
    ensures Before(Without(s, k), a, b) <==> Before(s, a, b)
  {
    WithoutContents(s, k);
    if k in s && a in s && b in s {
      WithoutIndex(s, k, a);
      WithoutIndex(s, k, b);
    }
  }

  /** Appending a fresh key keeps the relative order of the keys already there
      and puts every one of them before the new key. */
  lemma AppendKeepsOrder(s: seq<Key>, k: Key, a: Key, b: Key)
    requires Distinct(s) && k !in s && a in s && b in s
    ensures Before(s + [k], a, b) <==> Before(s, a, b)
    ensures Before(s + [k], a, k)
  {
    var t := s + [k];
    assert t[IndexOf(s, a)] == a && t[IndexOf(s, b)] == b && t[|s|] == k;
    assert Distinct(t);
    IndexOfDistinct(t, IndexOf(s, a));
    IndexOfDistinct(t, IndexOf(s, b));
    IndexOfDistinct(t, |s|);
  }

  /** An insertion-ordered dictionary. */
  datatype ODict<T> = ODict(keys: seq<Key>, vals: map<Key, T>)
  {
    /** The iteration order lists each stored key exactly once. */
    predicate Valid() {
      Distinct(keys) &&
      (forall k :: k in keys ==> k in vals) &&
      (forall k :: k in vals ==> k in keys)
    }
  }

  function Empty<T>(): (d: ODict<T>)
    ensures d.Valid() && d.keys == []
  {
    ODict([], map[])
  }

  /** `d[k] = v`: an existing key keeps its place, a new key goes last. */
  function Assign<T>(d: ODict<T>, k: Key, v: T): (r: ODict<T>)
    ensures d.Valid() ==> r.Valid()
    ensures r.vals == d.vals[k := v]
    ensures d.Valid() ==> |r.keys| == |d.keys| + (if k in d.vals then 0 else 1)
  {
    if k in d.vals then ODict(d.keys, d.vals[k := v]) else ODict(d.keys + [k], d.vals[k := v])
  }

  /** Where `d[k] = v` leaves the keys: a stored key keeps its position, a
      new key goes after every stored one, and every pair of stored keys
      keeps its relative order. */
  lemma AssignKeepsOrder<T>(d: ODict<T>, k: Key, v: T, a: Key, b: Key)
    requires d.Valid() && a in d.vals && b in d.vals
    ensures var r := Assign(d, k, v);
            && (Before(r.keys, a, b) <==> Before(d.keys, a, b))
            && (k in d.vals ==> k in r.keys && IndexOf(r.keys, k) == IndexOf(d.keys, k))
            && (k !in d.vals ==> Before(r.keys, a, k) && r.keys[|r.keys| - 1] == k)
  {
    if k !in d.vals {
      AppendKeepsOrder(d.keys, k, a, b);
    }
  }

  /** `d.move_to_end(k)`: the key is taken out of its place and put last. */
  function MoveToEnd<T>(d: ODict<T>, k: Key): (r: ODict<T>)
    requires d.Valid() && k in d.vals
    ensures r.Valid() && r.vals == d.vals && |r.keys| == |d.keys|
    ensures r.keys[|r.keys| - 1] == k
  {
    WithoutContents(d.keys, k);
    ODict(Without(d.keys, k) + [k], d.vals)
  }

  /** `del d[k]` and `d.pop(k)` on a present key. */
  function Delete<T>(d: ODict<T>, k: Key): (r: ODict<T>)
    requires d.Valid() && k in d.vals
    ensures r.Valid() && r.vals == d.vals - {k} && |r.keys| == |d.keys| - 1
  {
    WithoutContents(d.keys, k);
    ODict(Without(d.keys, k), d.vals - {k})
  }

  /** `d.popitem(last=False)`: the first key in iteration order goes. */
  function PopFirst<T>(d: ODict<T>): (r: ODict<T>)
    requires d.Valid() && d.keys != []
    ensures r.Valid() && r.keys == d.keys[1..] && r.vals == d.vals - {d.keys[0]}
  {
    Delete(d, d.keys[0])
  }

  /** Two writes to a key already present: the second one wins and the
      key stays where it was. */
  lemma AssignTwice<T>(d: ODict<T>, k: Key, v: T, w: T)
    requires k in d.vals
    ensures Assign(Assign(d, k, v), k, w) == ODict(d.keys, d.vals[k := w])
  {
    assert d.vals[k := v][k := w] == d.vals[k := w];
  }

  /** `del d[k]` followed by `d[k] = v`: the key moves to the end with the new value. */
  lemma DeleteThenAssign<T>(d: ODict<T>, k: Key, v: T)
    requires d.Valid() && k in d.vals
    ensures Assign(Delete(d, k), k, v) == ODict(Without(d.keys, k) + [k], d.vals[k := v])
  {
    assert (d.vals - {k})[k := v] == d.vals[k := v];
  }

  /** Deleting a key just moved to the end is the same as deleting it where it stood. */
  lemma MoveToEndThenDelete<T>(d: ODict<T>, k: Key)
    requires d.Valid() && k in d.vals
    ensures Delete(MoveToEnd(d, k), k) == Delete(d, k)
  {
    var w := Without(d.keys, k);
    WithoutContents(d.keys, k);
    assert (w + [k])[|w|] == k;
    assert IndexOf(w + [k], k) == |w|;
    assert Without(w + [k], k) == w;
  }
}
