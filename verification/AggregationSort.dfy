/** What a sort by several keys means on columns of numbers and of texts, in terms of the values alone. */
module AggregationSort {
  import opened Lists
  import opened Aggregation
  import opened AggregationLaws

  /** Character by character; a text comes before what continues it. */
  ghost predicate TextBefore(a: string, b: string) { exists k: nat :: SplitAt(a, b, k) }

  ghost predicate SplitAt(a: string, b: string, k: nat) {
    k <= |a| && k < |b| && a[..k] == b[..k] && (k < |a| ==> a[k] < b[k])
  }

  /** Numbers by size, texts character by character. */
  ghost predicate Smaller(x: Value, y: Value) {
    (x.Num? && y.Num? && x.x < y.x) || (x.Str? && y.Str? && TextBefore(x.s, y.s))
  }

  ghost predicate SameUnder(keys: seq<SortKey>, n: nat, a: Row, b: Row)
    requires n <= |keys|
  {
    forall k :: 0 <= k < n ==> Field(a, keys[k].field) == Field(b, keys[k].field)
  }

  /** The first key on which the rows differ has their values in its direction. */
  ghost predicate DecidedAt(keys: seq<SortKey>, k: nat, a: Row, b: Row)
    requires k < |keys|
  {
    var (x, y) := (Field(a, keys[k].field), Field(b, keys[k].field));
    SameUnder(keys, k, a, b) && if keys[k].descending then Smaller(y, x) else Smaller(x, y)
  }

  ghost predicate InKeyOrder(keys: seq<SortKey>, a: Row, b: Row) {
    SameUnder(keys, |keys|, a, b) || exists k :: 0 <= k < |keys| && DecidedAt(keys, k, a, b)
  }

  /** Each key's field holds numbers in both rows, or texts in both. */
  ghost predicate Comparable(keys: seq<SortKey>, a: Row, b: Row) {
    forall k :: 0 <= k < |keys| ==>
      var (x, y) := (Field(a, keys[k].field), Field(b, keys[k].field));
      (x.Num? && y.Num?) || (x.Str? && y.Str?)
  }

  // ---------- the comparator ----------

  lemma {:induction false} TextOrder(a: string, b: string)
    ensures StrLess(a, b) <==> TextBefore(a, b)
  {
    if b == [] {
      assert forall k: nat :: !SplitAt(a, b, k);
    } else if a == [] {
      assert SplitAt(a, b, 0);
    } else if a[0] != b[0] {
      assert a[0] < b[0] ==> SplitAt(a, b, 0);
      forall k: nat | SplitAt(a, b, k) ensures a[0] < b[0] {}
    } else {
      TextOrder(a[1..], b[1..]);
      forall k: nat | SplitAt(a, b, k) ensures k > 0 && SplitAt(a[1..], b[1..], k - 1) {
        assert a[1..][..k - 1] == a[..k][1..] == b[..k][1..] == b[1..][..k - 1];
      }
      forall k: nat | SplitAt(a[1..], b[1..], k) ensures SplitAt(a, b, k + 1) {
        assert a[..k + 1] == [a[0]] + a[1..][..k] && b[..k + 1] == [b[0]] + b[1..][..k];
      }
    }
  }

  lemma LessIsSmaller(co: Coercions, x: Value, y: Value)
    requires (x.Num? && y.Num?) || (x.Str? && y.Str?)
    ensures Less(co, x, y) <==> Smaller(x, y)
    ensures !Less(co, x, y) && !Less(co, y, x) ==> x == y
    ensures !(Less(co, x, y) && Less(co, y, x))
  {
    if x.Str? {
      TextOrder(x.s, y.s);
      StrLessOrder(x.s, y.s, x.s);
    }
  }

  lemma LaterKey(keys: seq<SortKey>, a: Row, b: Row)
    requires keys != [] && Field(a, keys[0].field) == Field(b, keys[0].field) && InKeyOrder(keys[1..], a, b)
    ensures InKeyOrder(keys, a, b)
  {
    hide Smaller;
    if SameUnder(keys[1..], |keys| - 1, a, b) {
      forall k | 0 <= k < |keys| ensures Field(a, keys[k].field) == Field(b, keys[k].field) {
        if k > 0 { assert keys[1..][k - 1] == keys[k]; }
      }
    } else {
      var k :| 0 <= k < |keys| - 1 && DecidedAt(keys[1..], k, a, b);
      forall h | 0 <= h < k + 1 ensures Field(a, keys[h].field) == Field(b, keys[h].field) {
        if h > 0 { assert keys[1..][h - 1] == keys[h]; }
      }
      assert keys[1..][k] == keys[k + 1] && DecidedAt(keys, k + 1, a, b);
    }
  }

  lemma {:induction false} ComparedIsOrdered(co: Coercions, keys: seq<SortKey>, a: Row, b: Row)
    requires Comparable(keys, a, b) && Compare(co, keys, a, b) <= 0
    ensures InKeyOrder(keys, a, b)
    ensures Compare(co, keys, a, b) == 0 ==> SameUnder(keys, |keys|, a, b)
  {
    hide Smaller, Less;
    if keys != [] {
      var (x, y) := (Field(a, keys[0].field), Field(b, keys[0].field));
      LessIsSmaller(co, x, y);
      LessIsSmaller(co, y, x);
      if x == y {
        ComparableTail(keys, a, b);
        ComparedIsOrdered(co, keys[1..], a, b);
        LaterKey(keys, a, b);
        SameTail(keys, a, b);
      } else {
        assert DecidedAt(keys, 0, a, b);
      }
    }
  }

  lemma ComparableTail(keys: seq<SortKey>, a: Row, b: Row)
    requires Comparable(keys, a, b) && keys != []
    ensures Comparable(keys[1..], a, b)
  {
    assert forall k :: 0 <= k < |keys| - 1 ==> keys[1..][k] == keys[k + 1];
  }

  lemma SameTail(keys: seq<SortKey>, a: Row, b: Row)
    requires keys != [] && Field(a, keys[0].field) == Field(b, keys[0].field)
    ensures SameUnder(keys[1..], |keys| - 1, a, b) <==> SameUnder(keys, |keys|, a, b)
  {
    assert forall k :: 0 <= k < |keys| - 1 ==> keys[1..][k] == keys[k + 1];
    if SameUnder(keys[1..], |keys| - 1, a, b) {
      forall k | 0 <= k < |keys| ensures Field(a, keys[k].field) == Field(b, keys[k].field) {
        if k > 0 { assert keys[1..][k - 1] == keys[k]; }
      }
    }
    if SameUnder(keys, |keys|, a, b) {
      forall k | 0 <= k < |keys| - 1 ensures Field(a, keys[1..][k].field) == Field(b, keys[1..][k].field) {
        assert keys[1..][k] == keys[k + 1];
      }
    }
  }

  lemma {:induction false} SameCompareZero(co: Coercions, keys: seq<SortKey>, a: Row, b: Row)
    requires Comparable(keys, a, b) && SameUnder(keys, |keys|, a, b)
    ensures Compare(co, keys, a, b) == 0
  {
    hide Less;
    if keys != [] {
      LessIsSmaller(co, Field(a, keys[0].field), Field(b, keys[0].field));
      ComparableTail(keys, a, b);
      SameTail(keys, a, b);
      SameCompareZero(co, keys[1..], a, b);
    }
  }

  lemma ComparableRows(keys: seq<SortKey>, data: seq<Row>, a: Row, b: Row)
    requires Homogeneous(keys, data) && a in data && b in data
    ensures Comparable(keys, a, b)
  {
  }

  // ---------- the sorted rows ----------

  /** The rows whose values under the keys are those of a given row. */
  ghost function Alike(keys: seq<SortKey>, z: Row): Row -> bool { r => SameUnder(keys, |keys|, z, r) }

  /**
   On columns of numbers and columns of texts: of two sorted rows the earlier one has the same values under all keys, or
   at the first key where they differ its value is the smaller one, or the larger if that key descends. The sorted rows
   are those of the input, and rows with the same values under all keys keep their order.
   */
  lemma SortedByKeys(co: Coercions, keys: seq<SortKey>, data: seq<Row>)
    requires Homogeneous(keys, data)
    ensures var rows := ApplySort(co, keys, data);
      && multiset(rows) == multiset(data)
      && (forall i, j :: 0 <= i < j < |rows| ==> InKeyOrder(keys, rows[i], rows[j]))
      && forall z {:trigger Alike(keys, z)} :: z in data ==>
           Filter(rows, Alike(keys, z)) == Filter(data, Alike(keys, z))
  {
    var (le, rows) := (AtMost(co, keys), ApplySort(co, keys, data));
    var dom := set r | r in data;
    HomogeneousIsSortable(co, keys, data);
    SortSorted(data, le, dom);
    SortMultiset(data, le);
    hide Sort, Filter, Homogeneous, InKeyOrder, Compare;
    forall i, j | 0 <= i < j < |rows| ensures InKeyOrder(keys, rows[i], rows[j]) {
      assert rows[i] in rows && rows[j] in rows && le(rows[i], rows[j]);
      ComparableRows(keys, data, rows[i], rows[j]);
      ComparedIsOrdered(co, keys, rows[i], rows[j]);
    }
    forall z | z in data ensures Filter(rows, Alike(keys, z)) == Filter(data, Alike(keys, z)) {
      SortClass(data, le, dom, z);
      forall r | r in data ensures Alike(keys, z)(r) == Like(le, z)(r) { AlikeIsLike(co, keys, data, z, r); }
      assert forall r :: r in rows ==> r in data;
      FilterSame(rows, Alike(keys, z), Like(le, z));
      FilterSame(data, Alike(keys, z), Like(le, z));
    }
  }

  lemma AlikeIsLike(co: Coercions, keys: seq<SortKey>, data: seq<Row>, z: Row, r: Row)
    requires Homogeneous(keys, data) && z in data && r in data
    ensures Alike(keys, z)(r) == Like(AtMost(co, keys), z)(r)
  {
    ComparableRows(keys, data, z, r);
    CompareOrder(co, keys, data, z, r, z);
    hide Compare, Homogeneous, Comparable, SameUnder;
    if Compare(co, keys, z, r) <= 0 { ComparedIsOrdered(co, keys, z, r); }
    if SameUnder(keys, |keys|, z, r) { SameCompareZero(co, keys, z, r); }
  }
}
