/** The key/value pairs of one leaf page, as values: the two parallel arrays of a leaf
    cut to the live prefix, with the shifts and searches the nodes perform on them. */
module LeafRun {
  datatype RecordAddress = RecordAddress(pageIndex: nat, slotIdx: nat)

  datatype RawRun = RawRun(keys: seq<int>, vals: seq<RecordAddress>)

  type Run = r: RawRun | |r.keys| == |r.vals| witness RawRun([], [])

  function Size(r: Run): nat { |r.keys| }

  function Cat(a: Run, b: Run): (r: Run)
    ensures Size(r) == Size(a) + Size(b)
  {
    RawRun(a.keys + b.keys, a.vals + b.vals)
  }

  function Take(r: Run, n: nat): (t: Run)
    requires n <= Size(r)
    ensures Size(t) == n
  {
    RawRun(r.keys[..n], r.vals[..n])
  }

  function Drop(r: Run, n: nat): (d: Run)
    requires n <= Size(r)
    ensures Size(d) == Size(r) - n
  {
    RawRun(r.keys[n..], r.vals[n..])
  }

  function InsertAt(r: Run, i: nat, k: int, v: RecordAddress): Run
    requires i <= Size(r)
  {
    RawRun(r.keys[..i] + [k] + r.keys[i..], r.vals[..i] + [v] + r.vals[i..])
  }

  function RemoveAt(r: Run, i: nat): Run
    requires i < Size(r)
  {
    RawRun(r.keys[..i] + r.keys[i + 1..], r.vals[..i] + r.vals[i + 1..])
  }

  ghost predicate Sorted(keys: seq<int>) {
    forall i, j :: 0 <= i < j < |keys| ==> keys[i] < keys[j]
  }

  /** `std::lower_bound`: the length of the longest prefix of keys below `k`. */
  function LowerBound(keys: seq<int>, k: int): (n: nat)
    ensures n <= |keys|
    ensures forall i :: 0 <= i < n ==> keys[i] < k
    ensures n < |keys| ==> k <= keys[n]
  {
    if keys == [] || k <= keys[0] then 0
    else
      assert forall i :: 0 < i < |keys| ==> keys[i] == keys[1..][i - 1];
      1 + LowerBound(keys[1..], k)
  }

  /** The position is the only one with the two defining properties. */
  lemma LowerBoundUnique(keys: seq<int>, k: int, n: nat)
    requires n <= |keys|
    requires forall i :: 0 <= i < n ==> keys[i] < k
    requires n < |keys| ==> k <= keys[n]
    ensures LowerBound(keys, k) == n
  {
    var m := LowerBound(keys, k);
    assert !(m < n) && !(n < m);
  }

  lemma LowerBoundOfPresent(keys: seq<int>, k: int)
    requires Sorted(keys) && k in keys
    ensures LowerBound(keys, k) < |keys| && keys[LowerBound(keys, k)] == k
  {
    var j :| 0 <= j < |keys| && keys[j] == k;
    LowerBoundUnique(keys, k, j);
  }

  /** The finite map a run stands for. */
  ghost function ToMap(r: Run): (m: map<int, RecordAddress>)
    ensures forall k :: k in m <==> k in r.keys
    decreases |r.keys|
  {
    if Size(r) == 0 then map[]
    else
      assert forall k :: k in r.keys <==> k == r.keys[0] || k in r.keys[1..];
      ToMap(Drop(r, 1))[r.keys[0] := r.vals[0]]
  }

  lemma UpdateFirst(m: map<int, RecordAddress>, n: map<int, RecordAddress>, k: int, v: RecordAddress)
    requires k !in n
    ensures (m + n)[k := v] == m[k := v] + n
  {
  }

  lemma DropOfCat(a: Run, b: Run)
    requires Size(a) > 0
    ensures Drop(Cat(a, b), 1) == Cat(Drop(a, 1), b)
    ensures Size(Cat(a, b)) > 0 && Cat(a, b).keys[0] == a.keys[0] && Cat(a, b).vals[0] == a.vals[0]
  {
  }

  lemma {:induction false} MapOfCat(a: Run, b: Run)
    requires forall k :: k in a.keys ==> k !in b.keys
    ensures ToMap(Cat(a, b)) == ToMap(a) + ToMap(b)
    decreases |a.keys|
  {
    if Size(a) == 0 {
      assert Cat(a, b) == b;
    } else {
      var t, k, v := Drop(a, 1), a.keys[0], a.vals[0];
      DropOfCat(a, b);
      assert k in a.keys;
      forall x | x in t.keys ensures x !in b.keys { assert x in a.keys; }
      hide Cat, Drop, Size;
      MapOfCat(t, b);
      UpdateFirst(ToMap(t), ToMap(b), k, v);
    }
  }

  lemma {:induction false} LookupAt(r: Run, j: nat)
    requires Sorted(r.keys) && j < Size(r)
    ensures r.keys[j] in ToMap(r) && ToMap(r)[r.keys[j]] == r.vals[j]
    decreases |r.keys|
  {
    if j > 0 {
      assert r.keys[j] == r.keys[1..][j - 1];
      assert forall i :: 0 <= i < |r.keys| - 1 ==> r.keys[1..][i] == r.keys[i + 1];
      LookupAt(Drop(r, 1), j - 1);
    }
  }

  /** Every key of `a` is below every key of `b`. */
  ghost predicate Below(a: seq<int>, b: seq<int>) {
    forall x, y :: x in a && y in b ==> x < y
  }

  lemma SortedCat(a: seq<int>, b: seq<int>)
    requires Sorted(a) && Sorted(b) && Below(a, b)
    ensures Sorted(a + b)
  {
    forall i, j | 0 <= i < j < |a + b| ensures (a + b)[i] < (a + b)[j] {
      if i < |a| <= j { assert a[i] in a && b[j - |a|] in b; }
    }
  }

  lemma SortedParts(a: seq<int>, b: seq<int>)
    requires Sorted(a + b)
    ensures Sorted(a) && Sorted(b) && Below(a, b)
  {
    var c := a + b;
    assert forall i :: 0 <= i < |a| ==> c[i] == a[i];
    assert forall i :: 0 <= i < |b| ==> c[|a| + i] == b[i];
    forall x, y | x in a && y in b ensures x < y {
      var i :| 0 <= i < |a| && a[i] == x;
      var j :| 0 <= j < |b| && b[j] == y;
      assert c[i] < c[|a| + j];
    }
  }

  lemma CatNothing(a: Run, b: Run)
    requires Size(b) == 0
    ensures Cat(a, b) == a && Cat(b, a) == a
  {
  }

  lemma CutAt(r: Run, n: nat)
    requires n <= Size(r)
    ensures Cat(Take(r, n), Drop(r, n)) == r
    ensures Take(r, n).keys + Drop(r, n).keys == r.keys
  {
  }

  /** The run after a sorted insertion. */
  function Inserted(r: Run, k: int, v: RecordAddress): Run {
    InsertAt(r, LowerBound(r.keys, k), k, v)
  }

  /** The run after removing `k`, or the same run when `k` is not in it. */
  function Without(r: Run, k: int): Run {
    var i := LowerBound(r.keys, k);
    if i < Size(r) && r.keys[i] == k then RemoveAt(r, i) else r
  }

  /** Whether a lookup finds `k`. */
  predicate HasAt(r: Run, k: int) {
    var i := LowerBound(r.keys, k);
    i < Size(r) && r.keys[i] == k
  }

  /** The run with another value for `k`, or the same run when `k` is not in it. */
  function Revised(r: Run, k: int, v: RecordAddress): Run {
    if HasAt(r, k) then RawRun(r.keys, r.vals[LowerBound(r.keys, k) := v]) else r
  }

  /** A sorted run seen around the position of `k`: everything before it is smaller,
      everything after it larger. */
  lemma AroundKey(r: Run, k: int, i: nat)
    requires Sorted(r.keys) && i <= Size(r) && k !in r.keys && i == LowerBound(r.keys, k)
    ensures Below(Take(r, i).keys, [k]) && Below([k], Drop(r, i).keys)
    ensures Sorted(Take(r, i).keys) && Sorted(Drop(r, i).keys)
    ensures Below(Take(r, i).keys, Drop(r, i).keys)
  {
    hide LowerBound, Below, Sorted;
    var a, b := r.keys[..i], r.keys[i..];
    assert a + b == r.keys;
    SortedParts(a, b);
    SmallerBefore(a, k);
    LargerBehind(b, k);
  }

  lemma SmallerBefore(a: seq<int>, k: int)
    requires forall i :: 0 <= i < |a| ==> a[i] < k
    ensures Below(a, [k])
  {
  }

  lemma LargerBehind(b: seq<int>, k: int)
    requires Sorted(b) && (b != [] ==> k < b[0])
    ensures Below([k], b)
  {
    forall x | x in b ensures k < x {
      var j :| 0 <= j < |b| && b[j] == x;
      assert j > 0 ==> b[0] < b[j];
    }
  }

  lemma InsertAtIsJoin(r: Run, i: nat, k: int, v: RecordAddress)
    requires i <= Size(r)
    ensures InsertAt(r, i, k, v) == Cat(Cat(Take(r, i), RawRun([k], [v])), Drop(r, i))
  {
  }

  lemma InsertedIsMapInsert(r: Run, k: int, v: RecordAddress)
    requires Sorted(r.keys) && k !in r.keys
    ensures Sorted(Inserted(r, k, v).keys)
    ensures ToMap(Inserted(r, k, v)) == ToMap(r)[k := v]
  {
    var i := LowerBound(r.keys, k);
    var a, b := Take(r, i), Drop(r, i);
    AroundKey(r, k, i);
    JoinAround(a, k, v, b);
    CutAt(r, i);
    InsertAtIsJoin(r, i, k, v);
  }

  lemma MapOfOne(k: int, v: RecordAddress)
    ensures ToMap(RawRun([k], [v])) == map[k := v]
  {
    assert Drop(RawRun([k], [v]), 1) == RawRun([], []);
  }

  lemma MapInMiddle(m: map<int, RecordAddress>, k: int, v: RecordAddress, n: map<int, RecordAddress>)
    requires k !in m && k !in n
    ensures m + map[k := v] + n == (m + n)[k := v]
    ensures m + n == (m + map[k := v] + n) - {k}
  {
  }

  lemma MapAround(a: Run, k: int, v: RecordAddress, b: Run)
    requires Below(a.keys, [k]) && Below([k], b.keys) && Below(a.keys, b.keys)
    ensures var s := Cat(Cat(a, RawRun([k], [v])), b);
      && ToMap(s) == ToMap(Cat(a, b))[k := v]
      && ToMap(Cat(a, b)) == ToMap(s) - {k}
  {
    var one := RawRun([k], [v]);
    assert k in one.keys;
    assert forall x :: x in one.keys ==> x == k;
    assert k !in a.keys && k !in b.keys;
    MapOfOne(k, v);
    MapOfCat(a, one);
    forall x | x in Cat(a, one).keys ensures x !in b.keys { }
    MapOfCat(Cat(a, one), b);
    MapOfCat(a, b);
    MapInMiddle(ToMap(a), k, v, ToMap(b));
  }

  lemma JoinAround(a: Run, k: int, v: RecordAddress, b: Run)
    requires Sorted(a.keys) && Sorted(b.keys)
    requires Below(a.keys, [k]) && Below([k], b.keys) && Below(a.keys, b.keys)
    ensures var s := Cat(Cat(a, RawRun([k], [v])), b);
      && Sorted(s.keys)
      && ToMap(s) == ToMap(Cat(a, b))[k := v]
      && ToMap(Cat(a, b)) == ToMap(s) - {k}
      && Sorted(Cat(a, b).keys)
  {
    SortedCat(a.keys, [k]);
    assert Below(a.keys + [k], b.keys) by { assert k in [k]; }
    SortedCat(a.keys + [k], b.keys);
    SortedCat(a.keys, b.keys);
    MapAround(a, k, v, b);
  }

  /** A sorted run cut around a key it has. */
  lemma CutAroundKey(r: Run, k: int) returns (a: Run, b: Run)
    requires Sorted(r.keys) && k in r.keys
    ensures var i := LowerBound(r.keys, k);
      && i < Size(r) && r.keys[i] == k && a == Take(r, i) && b == Drop(r, i + 1)
      && r == Cat(Cat(a, RawRun([k], [r.vals[i]])), b)
    ensures Sorted(a.keys) && Sorted(b.keys)
    ensures Below(a.keys, [k]) && Below([k], b.keys) && Below(a.keys, b.keys)
  {
    hide Sorted, LowerBound;
    LowerBoundOfPresent(r.keys, k);
    var i := LowerBound(r.keys, k);
    a, b := Take(r, i), Drop(r, i + 1);
    RunAround(r, i);
    SortedParts(a.keys + [k], b.keys);
    SortedParts(a.keys, [k]);
    BelowParts(a.keys, k, b.keys);
  }

  lemma RunAround(r: Run, i: nat)
    requires i < Size(r)
    ensures r == Cat(Cat(Take(r, i), RawRun([r.keys[i]], [r.vals[i]])), Drop(r, i + 1))
  {
  }

  lemma BelowParts(a: seq<int>, k: int, b: seq<int>)
    requires Below(a + [k], b)
    ensures Below(a, b) && Below([k], b)
  {
    assert k in a + [k];
    forall x | x in a ensures x in a + [k] { }
  }

  lemma WithoutIsMapRemove(r: Run, k: int)
    requires Sorted(r.keys)
    ensures Sorted(Without(r, k).keys)
    ensures ToMap(Without(r, k)) == ToMap(r) - {k}
  {
    hide ToMap;
    if k in r.keys {
      var a, b := CutAroundKey(r, k);
      JoinAround(a, k, r.vals[LowerBound(r.keys, k)], b);
      assert Without(r, k) == Cat(a, b);
    } else {
      KeysOfMap(r);
    }
  }

  lemma KeysOfMap(r: Run)
    ensures forall k :: k in ToMap(r) <==> k in r.keys
  {
  }

  lemma RevisedIsMapUpdate(r: Run, k: int, v: RecordAddress)
    requires Sorted(r.keys)
    ensures Revised(r, k, v).keys == r.keys
    ensures k in r.keys ==> ToMap(Revised(r, k, v)) == ToMap(r)[k := v]
    ensures k !in r.keys ==> Revised(r, k, v) == r
    ensures HasAt(r, k) <==> k in r.keys
  {
    hide ToMap, Sorted, Below, LowerBound;
    if k in r.keys {
      hide Cat;
      var a, b := CutAroundKey(r, k);
      var i := LowerBound(r.keys, k);
      SetInMiddle(a, k, r.vals[i], v, b);
      JoinAround(a, k, r.vals[i], b);
      JoinAround(a, k, v, b);
      SetTwice(ToMap(Cat(a, b)), k, r.vals[i], v);
    }
  }

  lemma SetTwice(m: map<int, RecordAddress>, k: int, x: RecordAddress, v: RecordAddress)
    ensures m[k := x][k := v] == m[k := v]
  {
  }

  lemma SetInMiddle(a: Run, k: int, x: RecordAddress, v: RecordAddress, b: Run)
    ensures var r, i := Cat(Cat(a, RawRun([k], [x])), b), Size(a);
      RawRun(r.keys, r.vals[i := v]) == Cat(Cat(a, RawRun([k], [v])), b)
  {
  }
}
