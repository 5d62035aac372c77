/** Filtering and stable sorting of sequences, as JavaScript arrays do them. */
module Lists {

  function Filter<T>(s: seq<T>, keep: T -> bool): seq<T> {
    if s == [] then [] else if keep(s[0]) then [s[0]] + Filter(s[1..], keep) else Filter(s[1..], keep)
  }

  lemma {:induction false} FilterMembers<T>(s: seq<T>, keep: T -> bool)
    ensures forall x {:trigger x in Filter(s, keep)} :: x in Filter(s, keep) ==> x in s && keep(x)
    ensures forall x {:trigger x in s} :: x in s && keep(x) ==> x in Filter(s, keep)
    ensures |Filter(s, keep)| <= |s|
  {
    if s != [] {
      assert s == [s[0]] + s[1..];
      FilterMembers(s[1..], keep);
    }
  }

  lemma ConcatAssoc<T>(a: seq<T>, b: seq<T>, c: seq<T>)
    ensures (a + b) + c == a + (b + c)
  {
  }

  lemma FilterOne<T>(x: T, keep: T -> bool)
    ensures Filter([x], keep) == if keep(x) then [x] else []
  {
    assert [x][1..] == [];
  }

  lemma {:induction false} FilterConcat<T>(s: seq<T>, t: seq<T>, keep: T -> bool)
    ensures Filter(s + t, keep) == Filter(s, keep) + Filter(t, keep)
  {
    if s == [] {
      assert s + t == t;
    } else {
      FilterConcat(s[1..], t, keep);
      assert (s + t)[1..] == s[1..] + t;
    }
  }

  lemma FilterStep<T>(s: seq<T>, keep: T -> bool, i: nat)
    requires i < |s|
    ensures Filter(s[..i + 1], keep) == Filter(s[..i], keep) + if keep(s[i]) then [s[i]] else []
  {
    assert s[..i + 1] == s[..i] + [s[i]];
    FilterConcat(s[..i], [s[i]], keep);
    FilterOne(s[i], keep);
  }

  lemma FilterNone<T>(s: seq<T>, keep: T -> bool)
    ensures Filter(s, keep) == [] <==> forall i :: 0 <= i < |s| ==> !keep(s[i])
  {
    FilterMembers(s, keep);
    if Filter(s, keep) != [] {
      assert Filter(s, keep)[0] in Filter(s, keep);
      var i :| 0 <= i < |s| && s[i] == Filter(s, keep)[0];
    }
  }

  lemma {:induction false} FilterSame<T>(s: seq<T>, p: T -> bool, q: T -> bool)
    requires forall x :: x in s ==> p(x) == q(x)
    ensures Filter(s, p) == Filter(s, q)
  {
    if s != [] {
      assert s == [s[0]] + s[1..];
      FilterSame(s[1..], p, q);
    }
  }

  lemma {:induction false} FilterSwap<T>(s: seq<T>, p: T -> bool, q: T -> bool)
    ensures Filter(Filter(s, p), q) == Filter(Filter(s, q), p)
  {
    if s != [] { FilterSwap(s[1..], p, q); }
  }

  // ---------- stable sort ----------

  /** A comparator JavaScript can sort with: total and transitive on the values at hand. */
  ghost predicate Orders<T>(dom: set<T>, le: (T, T) -> bool) {
    && (forall x, y :: x in dom && y in dom ==> le(x, y) || le(y, x))
    && (forall x, y, z :: x in dom && y in dom && z in dom && le(x, y) && le(y, z) ==> le(x, z))
  }

  ghost predicate Within<T>(s: seq<T>, dom: set<T>) {
    forall x :: x in s ==> x in dom
  }

  ghost predicate Sorted<T>(s: seq<T>, le: (T, T) -> bool) {
    forall i, j :: 0 <= i < j < |s| ==> le(s[i], s[j])
  }

  function Insert<T>(x: T, s: seq<T>, le: (T, T) -> bool): seq<T> {
    if s == [] || le(x, s[0]) then [x] + s else [s[0]] + Insert(x, s[1..], le)
  }

  /** The first element goes in front of all that it may precede, so equal elements keep their order. */
  function Sort<T>(s: seq<T>, le: (T, T) -> bool): seq<T> {
    if s == [] then [] else Insert(s[0], Sort(s[1..], le), le)
  }

  lemma {:induction false} InsertMultiset<T>(x: T, s: seq<T>, le: (T, T) -> bool)
    ensures multiset(Insert(x, s, le)) == multiset{x} + multiset(s)
  {
    if s != [] && !le(x, s[0]) {
      InsertMultiset(x, s[1..], le);
      assert s == [s[0]] + s[1..];
    }
  }

  lemma {:induction false} SortMultiset<T>(s: seq<T>, le: (T, T) -> bool)
    ensures multiset(Sort(s, le)) == multiset(s)
    ensures forall x {:trigger x in Sort(s, le)} :: x in Sort(s, le) ==> x in s
    ensures |Sort(s, le)| == |s|
  {
    if s != [] {
      SortMultiset(s[1..], le);
      InsertMultiset(s[0], Sort(s[1..], le), le);
      assert s == [s[0]] + s[1..];
      assert multiset(s) == multiset{s[0]} + multiset(s[1..]);
    }
    hide Sort, Insert;
    forall x | x in Sort(s, le) ensures x in s {
      assert x in multiset(Sort(s, le));
    }
    assert |multiset(Sort(s, le))| == |multiset(s)|;
  }

  lemma {:induction false} InsertSorted<T>(x: T, s: seq<T>, le: (T, T) -> bool, dom: set<T>)
    requires Orders(dom, le) && Within(s, dom) && x in dom && Sorted(s, le)
    ensures Sorted(Insert(x, s, le), le)
  {
    if s != [] && !le(x, s[0]) {
      InsertSorted(x, s[1..], le, dom);
      InsertMultiset(x, s[1..], le);
      var t := Insert(x, s[1..], le);
      forall y | y in t ensures le(s[0], y) {
        assert y in multiset(t);
        assert y == x || y in s[1..];
      }
    }
  }

  lemma {:induction false} SortSorted<T>(s: seq<T>, le: (T, T) -> bool, dom: set<T>)
    requires Orders(dom, le) && Within(s, dom)
    ensures Sorted(Sort(s, le), le)
  {
    if s != [] {
      SortSorted(s[1..], le, dom);
      SortMultiset(s[1..], le);
      InsertSorted(s[0], Sort(s[1..], le), le, dom);
    }
  }

  lemma {:induction false} FilterInsert<T>(x: T, s: seq<T>, le: (T, T) -> bool, dom: set<T>, keep: T -> bool)
    requires Orders(dom, le) && Within(s, dom) && x in dom && Sorted(s, le)
    ensures Filter(Insert(x, s, le), keep) == if keep(x) then Insert(x, Filter(s, keep), le) else Filter(s, keep)
  {
    if s == [] || le(x, s[0]) {
      assert Insert(x, s, le)[1..] == s;
      FilterMembers(s, keep);
      var t := Filter(s, keep);
      if t != [] {
        assert t[0] in t;
        assert le(x, t[0]);
      }
    } else {
      FilterInsert(x, s[1..], le, dom, keep);
      assert Insert(x, s, le)[1..] == Insert(x, s[1..], le);
      if keep(s[0]) { assert Filter(s, keep)[1..] == Filter(s[1..], keep); }
    }
  }

  /** Filtering a sorted sequence is sorting the filtered one. */
  lemma {:induction false} FilterSort<T>(s: seq<T>, le: (T, T) -> bool, dom: set<T>, keep: T -> bool)
    requires Orders(dom, le) && Within(s, dom)
    ensures Filter(Sort(s, le), keep) == Sort(Filter(s, keep), le)
  {
    if s != [] {
      FilterSort(s[1..], le, dom, keep);
      SortSorted(s[1..], le, dom);
      SortMultiset(s[1..], le);
      FilterInsert(s[0], Sort(s[1..], le), le, dom, keep);
      if keep(s[0]) { assert Filter(s, keep)[1..] == Filter(s[1..], keep); }
    }
  }

  lemma SortLeast<T>(s: seq<T>, le: (T, T) -> bool, dom: set<T>)
    requires s != [] && Orders(dom, le) && Within(s, dom)
    ensures Sort(s, le) != [] && forall x :: x in s ==> le(Sort(s, le)[0], x)
  {
    var t := Sort(s, le);
    SortMultiset(s, le);
    SortSorted(s, le, dom);
    hide Sort;
    assert t[0] in t;
    forall x | x in s ensures le(t[0], x) {
      assert x in multiset(s);
      assert x in multiset(t);
      var i :| 0 <= i < |t| && t[i] == x;
    }
  }

  /** No element before position `i` is at most `m`, which stands there. */
  ghost predicate FirstLeast<T>(s: seq<T>, le: (T, T) -> bool, m: T, i: int) {
    0 <= i < |s| && s[i] == m && forall k :: 0 <= k < i ==> !le(s[k], m)
  }

  /** The head of a sorted sequence is the first of the least elements. */
  lemma {:induction false} SortHead<T>(s: seq<T>, le: (T, T) -> bool, dom: set<T>)
    requires s != [] && Orders(dom, le) && Within(s, dom)
    ensures Sort(s, le) != [] && exists i :: FirstLeast(s, le, Sort(s, le)[0], i)
  {
    var rest := Sort(s[1..], le);
    assert Sort(s, le) == Insert(s[0], rest, le);
    if rest == [] || le(s[0], rest[0]) {
      assert Insert(s[0], rest, le)[0] == s[0];
      assert FirstLeast(s, le, s[0], 0);
    } else {
      assert s[1..] != [] && Insert(s[0], rest, le)[0] == rest[0];
      SortHead(s[1..], le, dom);
      var i :| FirstLeast(s[1..], le, rest[0], i);
      forall k | 0 <= k < i + 1 ensures !le(s[k], rest[0]) {
        if k > 0 { assert s[k] == s[1..][k - 1]; }
      }
      assert FirstLeast(s, le, rest[0], i + 1);
    }
  }

  /** Position `j` is where element `i` of the filtered sequence comes from; what was kept before it comes earlier. */
  ghost predicate IsSource<T>(s: seq<T>, keep: T -> bool, i: nat, j: int) {
    && i < |Filter(s, keep)| && 0 <= j < |s| && s[j] == Filter(s, keep)[i]
    && forall k :: 0 <= k < j && keep(s[k]) ==> s[k] in Filter(s, keep)[..i]
  }

  lemma {:induction false} FilterIndex<T>(s: seq<T>, keep: T -> bool, i: nat)
    requires i < |Filter(s, keep)|
    ensures exists j :: IsSource(s, keep, i, j)
  {
    var f := Filter(s, keep);
    if keep(s[0]) && i == 0 {
      assert IsSource(s, keep, i, 0);
    } else {
      var i' := if keep(s[0]) then i - 1 else i;
      FilterIndex(s[1..], keep, i');
      var j :| IsSource(s[1..], keep, i', j);
      forall k | 0 <= k < j + 1 && keep(s[k]) ensures s[k] in f[..i] {
        if k == 0 {
          assert f[..i][0] == s[0];
        } else {
          assert s[1..][k - 1] in Filter(s[1..], keep)[..i'];
          assert forall h :: 0 <= h < i' ==> Filter(s[1..], keep)[..i'][h] == f[..i][h + i - i'];
        }
      }
      assert IsSource(s, keep, i, j + 1);
    }
  }

  // ---------- what makes the stable sort unique ----------

  /** The test for comparing equal to `x`. */
  function Like<T>(le: (T, T) -> bool, x: T): T -> bool {
    y => le(x, y) && le(y, x)
  }

  /** Two sequences have the same elements, and elements that compare equal in the same order. */
  ghost predicate SameClasses<T>(r: seq<T>, s: seq<T>, le: (T, T) -> bool) {
    && multiset(r) == multiset(s)
    && forall x :: x in s ==> Filter(r, Like(le, x)) == Filter(s, Like(le, x))
  }

  lemma {:induction false} InsertClass<T>(x: T, s: seq<T>, le: (T, T) -> bool, dom: set<T>, z: T)
    requires Orders(dom, le) && Within(s, dom) && x in dom && z in dom
    ensures var p := Like(le, z);
      Filter(Insert(x, s, le), p) == if p(x) then [x] + Filter(s, p) else Filter(s, p)
  {
    var p := Like(le, z);
    if s == [] || le(x, s[0]) {
      assert Insert(x, s, le)[1..] == s;
    } else {
      InsertClass(x, s[1..], le, dom, z);
      assert Insert(x, s, le)[1..] == Insert(x, s[1..], le);
    }
  }

  lemma {:induction false} SortClass<T>(s: seq<T>, le: (T, T) -> bool, dom: set<T>, z: T)
    requires Orders(dom, le) && Within(s, dom) && z in dom
    ensures Filter(Sort(s, le), Like(le, z)) == Filter(s, Like(le, z))
  {
    if s != [] {
      SortClass(s[1..], le, dom, z);
      SortMultiset(s[1..], le);
      InsertClass(s[0], Sort(s[1..], le), le, dom, z);
    }
  }

  lemma SameHead<T>(r: seq<T>, s: seq<T>, le: (T, T) -> bool, dom: set<T>)
    requires Orders(dom, le) && Within(s, dom) && Sorted(r, le) && Sorted(s, le) && SameClasses(r, s, le)
    requires s != []
    ensures r != [] && r[0] == s[0]
  {
    assert |multiset(r)| == |multiset(s)|;
    assert r[0] in multiset(r) && s[0] in multiset(s);
    assert r[0] in s && s[0] in r;
    var p := Like(le, s[0]);
    assert Filter(r, p)[0] == r[0] && Filter(s, p)[0] == s[0];
  }

  lemma SameTailClasses<T>(h: T, r: seq<T>, s: seq<T>, le: (T, T) -> bool)
    requires SameClasses([h] + r, [h] + s, le)
    ensures SameClasses(r, s, le)
  {
    assert multiset(r) == multiset([h] + r) - multiset{h} && multiset(s) == multiset([h] + s) - multiset{h};
    forall x | x in s
      ensures Filter(r, Like(le, x)) == Filter(s, Like(le, x))
    {
      var q := Like(le, x);
      assert x in [h] + s;
      assert Filter([h] + r, q) == Filter([h] + s, q);
      FilterConcat([h], r, q);
      FilterConcat([h], s, q);
      var n := |Filter([h], q)|;
      assert Filter(r, q) == Filter([h] + r, q)[n..];
      assert Filter(s, q) == Filter([h] + s, q)[n..];
    }
  }

  lemma {:induction false} StableOrderUnique<T>(r: seq<T>, s: seq<T>, le: (T, T) -> bool, dom: set<T>)
    requires Orders(dom, le) && Within(s, dom) && Sorted(r, le) && Sorted(s, le) && SameClasses(r, s, le)
    ensures r == s
  {
    if s == [] {
      assert |multiset(r)| == 0;
    } else {
      SameHead(r, s, le, dom);
      assert r == [r[0]] + r[1..] && s == [s[0]] + s[1..];
      SameTailClasses(s[0], r[1..], s[1..], le);
      StableOrderUnique(r[1..], s[1..], le, dom);
    }
  }

  /** `Sort` is a stable sort, and there is only one: any sort that keeps equal elements in order equals it. */
  lemma StableSortUnique<T>(r: seq<T>, s: seq<T>, le: (T, T) -> bool, dom: set<T>)
    requires Orders(dom, le) && Within(s, dom)
    ensures Sorted(r, le) && SameClasses(r, s, le) <==> r == Sort(s, le)
  {
    var t := Sort(s, le);
    SortSorted(s, le, dom);
    SortMultiset(s, le);
    forall z | z in dom
      ensures Filter(t, Like(le, z)) == Filter(s, Like(le, z))
    {
      SortClass(s, le, dom, z);
    }
    if Sorted(r, le) && SameClasses(r, s, le) {
      StableOrderUnique(r, t, le, dom);
    }
  }
}
