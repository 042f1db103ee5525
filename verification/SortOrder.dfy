/** SORT's order: when the answer is determined by the elements alone, whatever order they came in. */
module SortOrder {
  import opened Bytes

  /** What an element is compared by: nothing, a text, or a number as a double can be one. */
  datatype Weight = Missing | Text(b: Bytes) | Finite(x: real) | Infinite(positive: bool) | NaN

  datatype Item = Item(elem: Bytes, weight: Weight)

  /** One SORT weighs by text or by number, never by both. */
  predicate Comparable(a: Item, b: Item) {
    a.weight.Missing? || b.weight.Missing? || (a.weight.Text? <==> b.weight.Text?)
  }

  predicate OneKind(items: seq<Item>) { forall x, y :: x in items && y in items ==> Comparable(x, y) }

  /** The order of byte strings. */
  predicate LexLess(a: Bytes, b: Bytes) {
    b != [] && (a == [] || a[0] < b[0] || (a[0] == b[0] && LexLess(a[1..], b[1..])))
  }

  predicate NumberLess(a: Weight, b: Weight)
    requires !a.Missing? && !a.Text? && !b.Missing? && !b.Text?
  {
    if a.NaN? || b.NaN? then false
    else if a.Infinite? then !a.positive && (b.Finite? || b.positive)
    else if b.Infinite? then b.positive
    else a.x < b.x
  }

  /** The comparison of the sort. Two numbers that are not the same number are compared as numbers,
      and a NaN is not the same number as anything, itself included. */
  predicate Less(a: Item, b: Item) {
    if a.weight.Missing? != b.weight.Missing? then a.weight.Missing?
    else if a.weight.Missing? then LexLess(a.elem, b.elem)
    else if a.weight.Text? != b.weight.Text? then false
    else if a.weight.Text? then
      if a.weight != b.weight then LexLess(a.weight.b, b.weight.b) else LexLess(a.elem, b.elem)
    else if a.weight.NaN? || a.weight != b.weight then NumberLess(a.weight, b.weight)
    else LexLess(a.elem, b.elem)
  }

  // ---- the comparison is a total order but for NaN -----------------------------------------------

  lemma {:induction false} LexTotal(a: Bytes, b: Bytes)
    ensures LexLess(a, b) || LexLess(b, a) || a == b
    ensures !(LexLess(a, b) && LexLess(b, a)) && !LexLess(a, a)
  {
    if a != [] && b != [] {
      LexTotal(a[1..], b[1..]);
      assert a == [a[0]] + a[1..] && b == [b[0]] + b[1..];
    }
    if a != [] { LexTotal(a[1..], a[1..]); }
  }

  lemma {:induction false} LexTransitive(a: Bytes, b: Bytes, c: Bytes)
    requires LexLess(a, b) && LexLess(b, c)
    ensures LexLess(a, c)
  {
    if a != [] && a[0] == b[0] == c[0] { LexTransitive(a[1..], b[1..], c[1..]); }
  }

  /** Two different items of which one weighs NaN and the other weighs something. */
  predicate Clash(a: Item, b: Item) {
    a != b && !a.weight.Missing? && !b.weight.Missing? && (a.weight.NaN? || b.weight.NaN?)
  }

  /** Any two different items are ordered one way, and only one, unless they clash. */
  lemma LessTotal(a: Item, b: Item)
    requires Comparable(a, b)
    ensures a != b ==> ((Less(a, b) || Less(b, a)) <==> !Clash(a, b))
    ensures !(Less(a, b) && Less(b, a))
  {
    hide LexLess;
    LexTotal(a.elem, b.elem);
    if a.weight.Text? && b.weight.Text? { LexTotal(a.weight.b, b.weight.b); }
  }

  lemma LessTransitive(a: Item, b: Item, c: Item)
    requires Comparable(a, b) && Comparable(b, c) && Comparable(a, c) && Less(a, b) && Less(b, c)
    ensures Less(a, c)
  {
    hide LexLess;
    LexTotal(a.elem, c.elem);
    if LexLess(a.elem, b.elem) && LexLess(b.elem, c.elem) { LexTransitive(a.elem, b.elem, c.elem); }
    if a.weight.Text? && b.weight.Text? && c.weight.Text? {
      LexTotal(a.weight.b, b.weight.b);
      LexTotal(b.weight.b, c.weight.b);
      if LexLess(a.weight.b, b.weight.b) && LexLess(b.weight.b, c.weight.b) {
        LexTransitive(a.weight.b, b.weight.b, c.weight.b);
        LexTotal(a.weight.b, c.weight.b);
      }
    }
  }

  // ---- a stable sort, by the questions it asks -----------------------------------------------------

  /** An order on the positions of a slice. */
  type Order = (nat, nat) -> bool

  ghost predicate WeakOrder(prec: Order, n: nat) {
    && (forall i, j :: 0 <= i < n && 0 <= j < n && prec(i, j) ==> !prec(j, i))
    && (forall i, j, k :: 0 <= i < n && 0 <= j < n && 0 <= k < n && prec(i, k) ==> prec(i, j) || prec(j, k))
  }

  /** The order answers as the comparison does whenever the later of two items is asked to be less
      than the earlier. */
  ghost predicate Answers(prec: Order, items: seq<Item>) {
    forall i, j :: 0 <= i < j < |items| ==> (prec(j, i) <==> Less(items[j], items[i]))
  }

  function Positions(n: nat): (p: seq<nat>)
    ensures |p| == n && forall i :: 0 <= i < n ==> p[i] == i
  {
    seq(n, i => i)
  }

  /** The positions in the order's sequence, equals in the order they came. */
  ghost predicate Arranged(p: seq<nat>, prec: Order) {
    forall s, t :: 0 <= s < t < |p| ==> !prec(p[t], p[s]) && (prec(p[s], p[t]) || p[s] < p[t])
  }

  ghost predicate ArrangedAs(out: seq<Item>, items: seq<Item>, prec: Order, p: seq<nat>) {
    && |out| == |p| == |items|
    && multiset(p) == multiset(Positions(|items|))
    && Arranged(p, prec)
    && forall t :: 0 <= t < |p| ==> p[t] < |items| && out[t] == items[p[t]]
  }

  /** A stable sort by insertion or by merging: it rearranges its input, and all it ever asks is
      whether a later item is less than an earlier one. So when those answers are an order's, what
      comes out is that order's stable arrangement. */
  ghost predicate StableSort(sort: seq<Item> -> seq<Item>) {
    && (forall items :: multiset(sort(items)) == multiset(items))
    && (forall items, prec :: WeakOrder(prec, |items|) && Answers(prec, items) ==>
          exists p :: ArrangedAs(sort(items), items, prec, p))
  }

  // ---- the insertion sort is one ---------------------------------------------------------------------

  /** A position moved left past every position whose item it is less than. */
  function InsertAt(items: seq<Item>, p: seq<nat>, j: nat): (r: seq<nat>)
    requires j < |items| && forall t :: 0 <= t < |p| ==> p[t] < |items|
    ensures multiset(r) == multiset(p) + multiset{j}
    ensures |r| == |p| + 1 && forall t :: 0 <= t < |r| ==> r[t] == j || r[t] in p
  {
    if p == [] then [j]
    else
      var init, last := p[..|p| - 1], p[|p| - 1];
      assert p == init + [last];
      if !Less(items[j], items[last]) then p + [j] else InsertAt(items, init, j) + [last]
  }

  function SortedPositions(items: seq<Item>, n: nat): (p: seq<nat>)
    requires n <= |items|
    ensures |p| == n && multiset(p) == multiset(Positions(n)) && forall t :: 0 <= t < n ==> p[t] < n
  {
    if n == 0 then []
    else
      assert Positions(n) == Positions(n - 1) + [n - 1];
      InsertAt(items, SortedPositions(items, n - 1), n - 1)
  }

  function Picked(items: seq<Item>, p: seq<nat>): (out: seq<Item>)
    requires forall t :: 0 <= t < |p| ==> p[t] < |items|
    ensures |out| == |p|
  {
    seq(|p|, t requires 0 <= t < |p| => items[p[t]])
  }

  function InsertionSort(items: seq<Item>): seq<Item> { Picked(items, SortedPositions(items, |items|)) }

  lemma ArrangedThen(p: seq<nat>, j: nat, prec: Order)
    requires Arranged(p, prec) && forall s :: 0 <= s < |p| ==> !prec(j, p[s]) && (prec(p[s], j) || p[s] < j)
    ensures Arranged(p + [j], prec)
  {
  }

  lemma {:induction false} InsertArranges(items: seq<Item>, p: seq<nat>, j: nat, prec: Order)
    requires WeakOrder(prec, |items|) && Answers(prec, items) && Arranged(p, prec)
    requires j < |items| && forall t :: 0 <= t < |p| ==> p[t] < j
    ensures Arranged(InsertAt(items, p, j), prec)
  {
    hide Less, WeakOrder;
    if p != [] {
      var init, last := p[..|p| - 1], p[|p| - 1];
      assert prec(j, last) <==> Less(items[j], items[last]);
      if Less(items[j], items[last]) {
        InsertArranges(items, init, j, prec);
        var r := InsertAt(items, init, j);
        forall s | 0 <= s < |r| ensures !prec(last, r[s]) && (prec(r[s], last) || r[s] < last) {
          if r[s] != j {
            var q :| 0 <= q < |init| && init[q] == r[s];
            assert p[q] == r[s];
          }
          OneWay(prec, |items|, j, last);
        }
        hide Arranged, InsertAt;
        ArrangedThen(r, last, prec);
      } else {
        forall s | 0 <= s < |p| ensures !prec(j, p[s]) {
          if s < |p| - 1 { NotBefore(prec, |items|, j, last, p[s]); }
        }
        hide Arranged, InsertAt;
        ArrangedThen(p, j, prec);
      }
    }
  }

  lemma OneWay(prec: Order, n: nat, i: nat, j: nat)
    requires WeakOrder(prec, n) && i < n && j < n && prec(i, j)
    ensures !prec(j, i)
  {
  }

  lemma NotBefore(prec: Order, n: nat, i: nat, j: nat, k: nat)
    requires WeakOrder(prec, n) && i < n && j < n && k < n && !prec(i, j) && !prec(j, k)
    ensures !prec(i, k)
  {
  }

  lemma {:induction false} PositionsArranged(items: seq<Item>, n: nat, prec: Order)
    requires n <= |items| && WeakOrder(prec, |items|) && Answers(prec, items)
    ensures Arranged(SortedPositions(items, n), prec)
  {
    hide WeakOrder, Answers;
    if n > 0 {
      PositionsArranged(items, n - 1, prec);
      InsertArranges(items, SortedPositions(items, n - 1), n - 1, prec);
    }
  }

  lemma {:induction false} PickedMore(items: seq<Item>, p: seq<nat>, j: nat)
    requires j < |items| && forall t :: 0 <= t < |p| ==> p[t] < |items|
    ensures multiset(Picked(items, InsertAt(items, p, j))) == multiset(Picked(items, p)) + multiset{items[j]}
  {
    hide Less;
    if p == [] {
    } else {
      var init, last := p[..|p| - 1], p[|p| - 1];
      assert Picked(items, p) == Picked(items, init) + [items[last]];
      assert Picked(items, p + [j]) == Picked(items, p) + [items[j]];
      if Less(items[j], items[last]) {
        PickedMore(items, init, j);
        var r := InsertAt(items, init, j);
        assert Picked(items, r + [last]) == Picked(items, r) + [items[last]];
      }
    }
  }

  lemma PickedStep(items: seq<Item>, n: nat)
    requires 0 < n <= |items|
    ensures multiset(Picked(items, SortedPositions(items, n)))
         == multiset(Picked(items, SortedPositions(items, n - 1))) + multiset{items[n - 1]}
  {
    hide InsertAt, Picked, Positions;
    PickedMore(items, SortedPositions(items, n - 1), n - 1);
  }

  lemma {:induction false} PickedAll(items: seq<Item>, n: nat)
    requires n <= |items|
    ensures multiset(Picked(items, SortedPositions(items, n))) == multiset(items[..n])
  {
    hide InsertAt, Picked, Positions;
    if n == 0 {
      assert Picked(items, SortedPositions(items, 0)) == [] == items[..0];
    } else {
      hide SortedPositions;
      PickedAll(items, n - 1);
      PickedStep(items, n);
      PrefixMultiset(items, n);
    }
  }

  lemma PrefixMultiset(items: seq<Item>, n: nat)
    requires 0 < n <= |items|
    ensures multiset(items[..n]) == multiset(items[..n - 1]) + multiset{items[n - 1]}
  {
    assert items[..n] == items[..n - 1] + [items[n - 1]];
  }

  /** The insertion sort, which is all of the library's sort up to 20 items, is such a sort. */
  lemma InsertionSortIsStable()
    ensures StableSort(InsertionSort)
  {
    forall items ensures multiset(InsertionSort(items)) == multiset(items) {
      PickedAll(items, |items|);
      assert items[..|items|] == items;
    }
    forall items, prec | WeakOrder(prec, |items|) && Answers(prec, items)
      ensures exists p :: ArrangedAs(InsertionSort(items), items, prec, p)
    {
      PositionsArranged(items, |items|, prec);
      assert ArrangedAs(InsertionSort(items), items, prec, SortedPositions(items, |items|));
    }
  }

  // ---- without a clash: one answer ---------------------------------------------------------------------

  lemma SameMembers(a: seq<Item>, b: seq<Item>)
    requires multiset(a) == multiset(b)
    ensures |a| == |b| && forall x :: x in a <==> x in b
    ensures (OneKind(b) ==> OneKind(a)) && (ClashFree(b) ==> ClashFree(a))
  {
    assert forall x :: x in a <==> x in multiset(a);
    assert forall x :: x in b <==> x in multiset(b);
    assert |multiset(a)| == |a| && |multiset(b)| == |b|;
  }

  ghost predicate Ordered(s: seq<Item>) { forall i, j :: 0 <= i < j < |s| ==> !Less(s[j], s[i]) }

  predicate ClashFree(s: seq<Item>) { forall x, y :: x in s && y in s ==> !Clash(x, y) }

  /** The comparison itself, on the items at two positions. */
  function ByItem(items: seq<Item>): Order {
    (i: nat, j: nat) => i < |items| && j < |items| && Less(items[i], items[j])
  }

  lemma LessIsWeakOrder(items: seq<Item>)
    requires OneKind(items) && ClashFree(items)
    ensures WeakOrder(ByItem(items), |items|) && Answers(ByItem(items), items)
  {
    hide Less, Clash, Comparable;
    var prec := ByItem(items);
    forall i, j | 0 <= i < |items| && 0 <= j < |items| && prec(i, j) ensures !prec(j, i) {
      LessTotal(items[i], items[j]);
    }
    forall i, j, k | 0 <= i < |items| && 0 <= j < |items| && 0 <= k < |items| && prec(i, k)
      ensures prec(i, j) || prec(j, k)
    {
      NegativelyTransitive(items[i], items[j], items[k]);
    }
  }

  lemma NegativelyTransitive(a: Item, b: Item, c: Item)
    requires Comparable(a, b) && Comparable(b, c) && Comparable(a, c) && !Clash(a, b) && Less(a, c)
    ensures Less(a, b) || Less(b, c)
  {
    hide Less, Clash;
    LessTotal(a, b);
    if a != b && !Less(a, b) { LessTransitive(b, a, c); }
  }

  /** Any stable sort puts items that do not clash in order. */
  lemma SortOrders(sort: seq<Item> -> seq<Item>, items: seq<Item>)
    requires StableSort(sort) && OneKind(items) && ClashFree(items)
    ensures multiset(sort(items)) == multiset(items) && Ordered(sort(items))
  {
    hide Less, Clash, Comparable;
    LessIsWeakOrder(items);
    var p :| ArrangedAs(sort(items), items, ByItem(items), p);
  }

  lemma TailMultiset(a: seq<Item>)
    requires a != []
    ensures multiset(a[1..]) == multiset(a) - multiset{a[0]}
  {
    assert a == [a[0]] + a[1..];
  }

  lemma SameFirst(a: seq<Item>, b: seq<Item>)
    requires multiset(a) == multiset(b) && OneKind(a) && ClashFree(a) && Ordered(a) && Ordered(b)
    requires a != [] && b != []
    ensures a[0] == b[0]
  {
    SameMembers(a, b);
    hide Less, Clash;
    assert a[0] in b && b[0] in a;
    var i :| 0 <= i < |b| && b[i] == a[0];
    var j :| 0 <= j < |a| && a[j] == b[0];
    LessTotal(a[0], b[0]);
  }

  lemma TailKeeps(a: seq<Item>)
    requires a != [] && OneKind(a) && ClashFree(a)
    ensures OneKind(a[1..]) && ClashFree(a[1..])
  {
    hide Less, Clash, Comparable;
    assert forall x :: x in a[1..] ==> x in a;
  }

  /** There is one way to put items that do not clash in order. */
  lemma {:induction false} OneOrder(a: seq<Item>, b: seq<Item>)
    requires multiset(a) == multiset(b) && OneKind(a) && ClashFree(a) && Ordered(a) && Ordered(b)
    ensures a == b
    decreases |a|
  {
    SameMembers(a, b);
    hide OneKind, ClashFree, Less;
    if a != [] {
      SameFirst(a, b);
      TailMultiset(a);
      TailMultiset(b);
      TailKeeps(a);
      OneOrder(a[1..], b[1..]);
      assert a == [a[0]] + a[1..] && b == [b[0]] + b[1..];
    }
  }

  // ---- the answer, element by element --------------------------------------------------------------------

  function Mapped<A, B>(f: A -> B, s: seq<A>): (r: seq<B>)
    ensures |r| == |s| && forall i :: 0 <= i < |s| ==> r[i] == f(s[i])
  {
    seq(|s|, i requires 0 <= i < |s| => f(s[i]))
  }

  function ElemOf(x: Item): Bytes { x.elem }

  function Weigher(weigh: Bytes -> Weight): Bytes -> Item { (e: Bytes) => Item(e, weigh(e)) }

  /** The elements with their weights. */
  function Items(elems: seq<Bytes>, weigh: Bytes -> Weight): (items: seq<Item>)
    ensures |items| == |elems| && forall i :: 0 <= i < |elems| ==> items[i] == Item(elems[i], weigh(elems[i]))
  {
    Mapped(Weigher(weigh), elems)
  }

  function Elems(items: seq<Item>): (elems: seq<Bytes>)
    ensures |elems| == |items| && forall i :: 0 <= i < |items| ==> elems[i] == items[i].elem
  {
    Mapped(ElemOf, items)
  }

  /** What SORT answers. */
  function Answer(sort: seq<Item> -> seq<Item>, elems: seq<Bytes>, weigh: Bytes -> Weight): seq<Bytes> {
    Elems(sort(Items(elems, weigh)))
  }

  /** The same answer for the same elements in any order. */
  ghost predicate Determined(sort: seq<Item> -> seq<Item>, elems: seq<Bytes>, weigh: Bytes -> Weight) {
    forall other :: multiset(other) == multiset(elems) ==> Answer(sort, other, weigh) == Answer(sort, elems, weigh)
  }

  predicate Weighed(items: seq<Item>, weigh: Bytes -> Weight) {
    forall x :: x in items ==> x.weight == weigh(x.elem)
  }

  lemma WithoutOneAt<T>(s: seq<T>, i: nat)
    requires i < |s|
    ensures multiset(s[..i] + s[i + 1..]) == multiset(s) - multiset{s[i]}
  {
    assert s == s[..i] + [s[i]] + s[i + 1..];
  }

  lemma SameButOne<T>(a: multiset<T>, b: multiset<T>, x: T)
    requires x in a && x in b && a - multiset{x} == b - multiset{x}
    ensures a == b
  {
    assert a == (a - multiset{x}) + multiset{x} && b == (b - multiset{x}) + multiset{x};
  }

  lemma MappedWithout<A, B>(f: A -> B, s: seq<A>, i: nat)
    requires i < |s|
    ensures multiset(Mapped(f, s[..i] + s[i + 1..])) == multiset(Mapped(f, s)) - multiset{f(s[i])}
    ensures f(s[i]) in multiset(Mapped(f, s))
  {
    var r := Mapped(f, s);
    WithoutOneAt(r, i);
    assert Mapped(f, s[..i] + s[i + 1..]) == r[..i] + r[i + 1..];
    assert r[i] in r;
  }

  /** Where the first of some things is in another arrangement of them, and that the rest agree. */
  lemma FoundIn<T>(a: seq<T>, b: seq<T>) returns (i: nat)
    requires multiset(a) == multiset(b) && a != []
    ensures i < |b| && b[i] == a[0]
    ensures multiset(a[..0] + a[1..]) == multiset(b[..i] + b[i + 1..])
  {
    assert a[0] in multiset(b);
    i :| 0 <= i < |b| && b[i] == a[0];
    WithoutOneAt(b, i);
    WithoutOneAt(a, 0);
  }

  lemma NothingSame<T>(b: seq<T>)
    requires multiset(b) == multiset{}
    ensures b == []
  {
    assert |multiset(b)| == |b|;
  }

  /** The same things in another order stay that under a mapping. */
  lemma {:induction false} MappedSame<A, B>(f: A -> B, a: seq<A>, b: seq<A>)
    requires multiset(a) == multiset(b)
    ensures multiset(Mapped(f, a)) == multiset(Mapped(f, b))
    decreases |a|
  {
    hide Mapped;
    if a == [] {
      NothingSame(b);
    } else {
      var i := FoundIn(a, b);
      var x, y := a[..0] + a[1..], b[..i] + b[i + 1..];
      MappedSame(f, x, y);
      MappedWithout(f, a, 0);
      MappedWithout(f, b, i);
      SameButOne(multiset(Mapped(f, a)), multiset(Mapped(f, b)), f(a[0]));
    }
  }

  lemma WeighedItems(elems: seq<Bytes>, weigh: Bytes -> Weight)
    ensures Weighed(Items(elems, weigh), weigh)
    ensures Elems(Items(elems, weigh)) == elems
  {
  }

  lemma ItemsOfElems(items: seq<Item>, weigh: Bytes -> Weight)
    requires Weighed(items, weigh)
    ensures Items(Elems(items), weigh) == items
  {
    forall i | 0 <= i < |items| ensures Items(Elems(items), weigh)[i] == items[i] { assert items[i] in items; }
  }

  /** Without a clash the answer is determined. */
  lemma ClashFreeIsDetermined(sort: seq<Item> -> seq<Item>, elems: seq<Bytes>, weigh: Bytes -> Weight)
    requires StableSort(sort) && OneKind(Items(elems, weigh)) && ClashFree(Items(elems, weigh))
    ensures Determined(sort, elems, weigh)
  {
    hide StableSort, OneKind, ClashFree, Ordered;
    var items := Items(elems, weigh);
    forall other | multiset(other) == multiset(elems) ensures Answer(sort, other, weigh) == Answer(sort, elems, weigh) {
      var others := Items(other, weigh);
      MappedSame(Weigher(weigh), other, elems);
      SameMembers(others, items);
      SortOrders(sort, items);
      SortOrders(sort, others);
      SameMembers(sort(items), items);
      OneOrder(sort(items), sort(others));
    }
  }

  // ---- with a clash: two answers -------------------------------------------------------------------------

  /** The first item that has a weight. */
  function FirstWeighed(items: seq<Item>): Option<Item> {
    if items == [] then None
    else if !items[0].weight.Missing? then Some(items[0])
    else FirstWeighed(items[1..])
  }

  lemma {:induction false} FirstWeighedAt(items: seq<Item>, i: nat)
    requires i < |items| && !items[i].weight.Missing? && forall j :: 0 <= j < i ==> items[j].weight.Missing?
    ensures FirstWeighed(items) == Some(items[i])
  {
    if i > 0 { FirstWeighedAt(items[1..], i - 1); }
  }

  predicate AllMissing(s: seq<Item>) { forall i :: 0 <= i < |s| ==> s[i].weight.Missing? }
  predicate AllNumbers(s: seq<Item>) { forall i :: 0 <= i < |s| ==> s[i].weight.Finite? || s[i].weight.Infinite? }
  predicate AllNaN(s: seq<Item>) { forall i :: 0 <= i < |s| ==> s[i].weight.NaN? }

  /** An input in four stretches: no weight, then at most one NaN, then numbers, then more NaNs. */
  datatype Stretches = Stretches(missing: seq<Item>, front: seq<Item>, numbers: seq<Item>, nans: seq<Item>) {
    predicate Valid() { AllMissing(missing) && |front| <= 1 && AllNaN(front) && AllNumbers(numbers) && AllNaN(nans) }

    function All(): seq<Item> { missing + front + numbers + nans }

    /** The stretch a position is in. */
    function Class(i: nat): nat {
      if i < |missing| then 0
      else if i < |missing| + |front| then 1
      else if i < |missing| + |front| + |numbers| then 2
      else 3
    }

    /** By stretch, and within the first and the third by the comparison. */
    function Prec(): Order {
      (i: nat, j: nat) => && i < |All()| && j < |All()|
                && (|| Class(i) < Class(j)
                    || (Class(i) == Class(j) && (Class(i) == 0 || Class(i) == 2) && Less(All()[i], All()[j])))
    }
  }

  lemma StretchAt(z: Stretches, i: nat)
    requires z.Valid() && i < |z.All()|
    ensures var w := z.All()[i].weight;
            match z.Class(i)
            case 0 => w.Missing?
            case 2 => w.Finite? || w.Infinite?
            case _ => w.NaN?
  {
  }

  lemma StretchesAnswer(z: Stretches)
    requires z.Valid()
    ensures Answers(z.Prec(), z.All())
  {
    var all := z.All();
    forall i, j | 0 <= i < j < |all| ensures z.Prec()(j, i) <==> Less(all[j], all[i]) {
      StretchAt(z, i);
      StretchAt(z, j);
      hide LexLess;
    }
  }

  lemma StretchesOrder(z: Stretches)
    requires z.Valid()
    ensures WeakOrder(z.Prec(), |z.All()|)
  {
    var all, prec, n := z.All(), z.Prec(), |z.All()|;
    forall i, j | 0 <= i < n && 0 <= j < n && prec(i, j) ensures !prec(j, i) {
      StretchAt(z, i);
      StretchAt(z, j);
      LessTotal(all[i], all[j]);
      hide Less;
    }
    forall i, j, k | 0 <= i < n && 0 <= j < n && 0 <= k < n && prec(i, k) ensures prec(i, j) || prec(j, k) {
      StretchAt(z, i);
      StretchAt(z, j);
      StretchAt(z, k);
      if z.Class(i) == z.Class(j) == z.Class(k) { NegativelyTransitive(all[i], all[j], all[k]); }
      hide Less;
    }
  }

  /** What leads the weighed items of such an input leads them in the answer: the NaN put in front, or
      else a number. */
  lemma StretchesLead(sort: seq<Item> -> seq<Item>, z: Stretches)
    requires StableSort(sort) && z.Valid() && z.front + z.numbers != []
    ensures var f := FirstWeighed(sort(z.All()));
            f.Some? && (if z.front != [] then f.value == z.front[0] else !f.value.weight.NaN?)
  {
    hide StableSort, Less, Answers, WeakOrder;
    StretchesAnswer(z);
    StretchesOrder(z);
    var all, n := z.All(), |z.All()|;
    var p := ArrangedBy(sort, all, z.Prec());
    var lead := |z.missing|;
    assert Positions(n)[lead] == lead;
    assert lead in multiset(p);
    var s :| 0 <= s < n && p[s] == lead;
    var t := FirstWith(sort(all), s);
    FirstWeighedAt(sort(all), t);
    StretchAt(z, p[t]);
    StretchAt(z, lead);
  }

  lemma ArrangedBy(sort: seq<Item> -> seq<Item>, items: seq<Item>, prec: Order) returns (p: seq<nat>)
    requires StableSort(sort) && WeakOrder(prec, |items|) && Answers(prec, items)
    ensures ArrangedAs(sort(items), items, prec, p)
  {
    hide WeakOrder, Answers, ArrangedAs;
    p :| ArrangedAs(sort(items), items, prec, p);
  }

  lemma {:induction false} FirstWith(items: seq<Item>, s: nat) returns (t: nat)
    requires s < |items| && !items[s].weight.Missing?
    ensures t <= s && !items[t].weight.Missing? && forall j :: 0 <= j < t ==> items[j].weight.Missing?
  {
    if items[0].weight.Missing? {
      t := FirstWith(items[1..], s - 1);
      t := t + 1;
      assert forall j :: 0 < j < t ==> items[j] == items[1..][j - 1];
    } else {
      t := 0;
    }
  }

  /** Any items weighed by number, in stretches. */
  lemma {:induction false} Stretched(items: seq<Item>) returns (missing: seq<Item>, numbers: seq<Item>, nans: seq<Item>)
    requires forall i :: 0 <= i < |items| ==> !items[i].weight.Text?
    ensures AllMissing(missing) && AllNumbers(numbers) && AllNaN(nans)
    ensures multiset(items) == multiset(missing) + multiset(numbers) + multiset(nans)
  {
    if items == [] {
      missing, numbers, nans := [], [], [];
    } else {
      missing, numbers, nans := Stretched(items[1..]);
      assert items == [items[0]] + items[1..];
      if items[0].weight.Missing? { missing := [items[0]] + missing; }
      else if items[0].weight.NaN? { nans := [items[0]] + nans; }
      else { numbers := [items[0]] + numbers; }
    }
  }

  lemma WithoutOne(items: seq<Item>, a: Item) returns (rest: seq<Item>)
    requires a in items
    ensures multiset(items) == multiset(rest) + multiset{a} && forall x :: x in rest ==> x in items
  {
    var i :| 0 <= i < |items| && items[i] == a;
    rest := items[..i] + items[i + 1..];
    assert items == items[..i] + [a] + items[i + 1..];
  }

  /** An arrangement of the items in which, once sorted, this NaN leads the weighed items. */
  lemma NaNInFront(sort: seq<Item> -> seq<Item>, missing: seq<Item>, numbers: seq<Item>, nans: seq<Item>, a: Item)
    returns (input: seq<Item>)
    requires StableSort(sort) && AllMissing(missing) && AllNumbers(numbers) && AllNaN(nans) && a in nans
    ensures multiset(input) == multiset(missing) + multiset(numbers) + multiset(nans)
    ensures FirstWeighed(sort(input)) == Some(a)
  {
    hide StableSort;
    var rest := WithoutOne(nans, a);
    assert AllNaN(rest) by { forall i | 0 <= i < |rest| ensures rest[i].weight.NaN? { assert rest[i] in nans; } }
    var z := Stretches(missing, [a], numbers, rest);
    StretchesLead(sort, z);
    input := z.All();
  }

  /** Two arrangements of clashing items that a stable sort leaves apart. */
  lemma TwoAnswers(sort: seq<Item> -> seq<Item>, items: seq<Item>, a: Item, b: Item)
    returns (one: seq<Item>, two: seq<Item>)
    requires StableSort(sort) && OneKind(items) && a in items && b in items && Clash(a, b) && a.weight.NaN?
    ensures multiset(one) == multiset(items) == multiset(two) && sort(one) != sort(two)
  {
    hide StableSort;
    forall i | 0 <= i < |items| ensures !items[i].weight.Text? { assert Comparable(a, items[i]); }
    var missing, numbers, nans := Stretched(items);
    assert a in multiset(items) && b in multiset(items);
    assert a in nans by { ByStretch(missing, numbers, nans, a); }
    one := NaNInFront(sort, missing, numbers, nans, a);
    if b.weight.NaN? {
      assert b in nans by { ByStretch(missing, numbers, nans, b); }
      two := NaNInFront(sort, missing, numbers, nans, b);
    } else {
      assert b in numbers by { ByStretch(missing, numbers, nans, b); }
      var z := Stretches(missing, [], numbers, nans);
      assert z.front + z.numbers == numbers;
      StretchesLead(sort, z);
      two := z.All();
    }
  }

  lemma ByStretch(missing: seq<Item>, numbers: seq<Item>, nans: seq<Item>, x: Item)
    requires AllMissing(missing) && AllNumbers(numbers) && AllNaN(nans)
    requires x in multiset(missing) + multiset(numbers) + multiset(nans) && !x.weight.Missing?
    ensures if x.weight.NaN? then x in nans else x in numbers
  {
    assert x in missing || x in numbers || x in nans;
  }

  /** Over every stable sort and every list of elements, repeated ones included: the answer is
      determined by the elements alone exactly when no NaN stands beside another weight. */
  lemma DeterminedExactly(sort: seq<Item> -> seq<Item>, elems: seq<Bytes>, weigh: Bytes -> Weight)
    requires StableSort(sort) && OneKind(Items(elems, weigh))
    ensures Determined(sort, elems, weigh) <==> ClashFree(Items(elems, weigh))
  {
    var items := Items(elems, weigh);
    if ClashFree(items) {
      ClashFreeIsDetermined(sort, elems, weigh);
    } else {
      var x, y :| x in items && y in items && Clash(x, y);
      NotDetermined(sort, elems, weigh, if x.weight.NaN? then x else y, if x.weight.NaN? then y else x);
    }
  }

  lemma NotDetermined(sort: seq<Item> -> seq<Item>, elems: seq<Bytes>, weigh: Bytes -> Weight, a: Item, b: Item)
    requires StableSort(sort) && OneKind(Items(elems, weigh))
    requires a in Items(elems, weigh) && b in Items(elems, weigh) && Clash(a, b) && a.weight.NaN?
    ensures !Determined(sort, elems, weigh)
  {
    var items := Items(elems, weigh);
    var one, two := TwoAnswers(sort, items, a, b);
    var x, y := Elems(one), Elems(two);
    WeighedItems(elems, weigh);
    MappedSame(ElemOf, one, items);
    MappedSame(ElemOf, two, items);
    SortedWeighed(sort, one, items, weigh);
    SortedWeighed(sort, two, items, weigh);
    assert Answer(sort, x, weigh) == Elems(sort(one)) && Answer(sort, y, weigh) == Elems(sort(two));
    assert Answer(sort, x, weigh) != Answer(sort, y, weigh);
  }

  lemma SortedWeighed(sort: seq<Item> -> seq<Item>, input: seq<Item>, items: seq<Item>, weigh: Bytes -> Weight)
    requires StableSort(sort) && multiset(input) == multiset(items) && Weighed(items, weigh)
    ensures Items(Elems(input), weigh) == input && Items(Elems(sort(input)), weigh) == sort(input)
  {
    SameMembers(input, items);
    SameMembers(sort(input), input);
    ItemsOfElems(input, weigh);
    ItemsOfElems(sort(input), weigh);
  }

  /** An element that reads as NaN beside any other number: the answer depends on which came first. */
  lemma NaNIsNotDetermined(sort: seq<Item> -> seq<Item>, x: Bytes, y: Bytes, weigh: Bytes -> Weight)
    requires StableSort(sort) && x != y && weigh(x).NaN? && !weigh(y).Missing? && !weigh(y).Text?
    ensures !Determined(sort, [x, y], weigh)
  {
    var items := Items([x, y], weigh);
    assert items == [Item(x, weigh(x)), Item(y, weigh(y))];
    assert items[0] in items && items[1] in items && Clash(items[0], items[1]);
    DeterminedExactly(sort, [x, y], weigh);
  }
}
