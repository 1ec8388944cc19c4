/** The sort stage of `getAllMenus`: the `sort=field[:order]` parameter and
    `Array.prototype.sort` with the comparator `a[field] - b[field]` (or its
    reverse). The sort is stable, and a comparison that yields `NaN` counts as
    "equal", as ECMAScript prescribes. */
module Sorting {
  import opened Wrappers
  import opened Text
  import opened Menu

  /** A parsed `sort` parameter. */
  datatype SortOrder = SortOrder(field: string, descending: bool)

  /** `sort.split(':')`: the field is the text before the first colon; the
      order is the piece after it (up to any further colon), `'asc'` when
      that piece is missing or empty. Only `'desc'` reverses. */
  function ParseSort(s: string): (o: SortOrder)
    ensures o.field == s[..IndexOf(s, ':')]
    ensures var k := IndexOf(s, ':');
            o.descending <==> k < |s| && s[k + 1..][..IndexOf(s[k + 1..], ':')] == "desc"
  {
    var parts := Split(s, ':');
    var order := if |parts| > 1 && parts[1] != "" then parts[1] else "asc";
    SortOrder(parts[0], order == "desc")
  }

  /** `sort=field:order` with no further colon sorts on `field`, descending
      exactly when `order` is `desc`. */
  lemma ParseSortPair(field: string, order: string)
    requires ':' !in field && ':' !in order
    ensures ParseSort(field + [':'] + order) == SortOrder(field, order == "desc")
  {
    SplitAfterFirst(field, ':', order);
    SplitWhole(order, ':');
  }

  /** `sort=field` and `sort=field:asc` sort ascending, `sort=field:desc`
      descending, on `field`. */
  lemma ParseSortForms(field: string)
    requires ':' !in field
    ensures ParseSort(field) == SortOrder(field, false)
    ensures ParseSort(field + ":asc") == SortOrder(field, false)
    ensures ParseSort(field + ":desc") == SortOrder(field, true)
  {
    SplitWhole(field, ':');
    assert field + ":asc" == field + [':'] + "asc";
    ParseSortPair(field, "asc");
    assert field + ":desc" == field + [':'] + "desc";
    ParseSortPair(field, "desc");
  }

  /** The numeric value `item[field]` has, or `None` when it is `NaN`. The
      model knows the numeric fields `id`, `price` and `calories`. */
  function SortKey(m: MenuItem, field: string): Option<int> {
    if field == "id" then Some(m.id)
    else if field == "price" then Some(m.price)
    else if field == "calories" then m.calories
    else None
  }

  /** The comparator is negative: `a` must come before `b`. A `NaN` result
      is treated as 0. */
  predicate Before(a: MenuItem, b: MenuItem, o: SortOrder) {
    var ka := SortKey(a, o.field);
    var kb := SortKey(b, o.field);
    ka.Some? && kb.Some? && (if o.descending then kb.value < ka.value else ka.value < kb.value)
  }

  /** Every item has a numeric value in the sort field. */
  predicate AllKeyed(xs: seq<MenuItem>, field: string) {
    forall k :: 0 <= k < |xs| ==> SortKey(xs[k], field).Some?
  }

  /** No item has a numeric value in the sort field. */
  predicate NoneKeyed(xs: seq<MenuItem>, field: string) {
    forall k :: 0 <= k < |xs| ==> SortKey(xs[k], field).None?
  }

  /** The position an item takes in the order: its key, negated for a
      descending sort. */
  function Rank(m: MenuItem, o: SortOrder): int
    requires SortKey(m, o.field).Some?
  {
    if o.descending then -SortKey(m, o.field).value else SortKey(m, o.field).value
  }

  /** The items are in order: ranks never decrease. */
  predicate Ranked(ys: seq<MenuItem>, o: SortOrder)
    requires AllKeyed(ys, o.field)
  {
    forall i, j :: 0 <= i < j < |ys| ==> Rank(ys[i], o) <= Rank(ys[j], o)
  }

  /** Insert `x` into `ys` in front of the first element it must precede. */
  function Insert(x: MenuItem, ys: seq<MenuItem>, o: SortOrder): (r: seq<MenuItem>)
    ensures multiset(r) == multiset(ys) + multiset{x}
    decreases |ys|
  {
    if ys == [] then [x]
    else if Before(x, ys[0], o) then [x] + ys
    else
      assert ys == [ys[0]] + ys[1..];
      [ys[0]] + Insert(x, ys[1..], o)
  }

  /** An item with no number in the sort field never precedes anything, so it
      goes to the end. */
  lemma {:induction false} InsertUnkeyed(x: MenuItem, ys: seq<MenuItem>, o: SortOrder)
    requires SortKey(x, o.field).None?
    ensures Insert(x, ys, o) == ys + [x]
    decreases |ys|
  {
    if ys != [] {
      InsertUnkeyed(x, ys[1..], o);
      assert [ys[0]] + (ys[1..] + [x]) == ys + [x];
    }
  }

  /** Every item of `ys` ranks at `bound` or above. */
  predicate RankedFrom(ys: seq<MenuItem>, o: SortOrder, bound: int)
    requires AllKeyed(ys, o.field)
  {
    forall k :: 0 <= k < |ys| ==> bound <= Rank(ys[k], o)
  }

  /** Putting an item in front of ranked items that rank at or above it
      keeps them ranked. */
  lemma ConsRanked(a: MenuItem, ys: seq<MenuItem>, o: SortOrder)
    requires SortKey(a, o.field).Some? && AllKeyed(ys, o.field)
    requires Ranked(ys, o) && RankedFrom(ys, o, Rank(a, o))
    ensures AllKeyed([a] + ys, o.field) && Ranked([a] + ys, o)
  {
    var r := [a] + ys;
    assert forall k :: 1 <= k < |r| ==> r[k] == ys[k - 1];
  }

  /** Inserting a keyed item into ranked keyed items keeps them ranked, and
      keeps any lower bound both the item and the items respect. */
  lemma {:induction false} InsertRanked(x: MenuItem, ys: seq<MenuItem>, o: SortOrder, bound: int)
    requires SortKey(x, o.field).Some? && AllKeyed(ys, o.field) && Ranked(ys, o)
    requires bound <= Rank(x, o) && RankedFrom(ys, o, bound)
    ensures AllKeyed(Insert(x, ys, o), o.field) && Ranked(Insert(x, ys, o), o)
    ensures RankedFrom(Insert(x, ys, o), o, bound)
    decreases |ys|
  {
    if ys == [] {
    } else if Before(x, ys[0], o) {
      assert RankedFrom(ys, o, Rank(x, o));
      ConsRanked(x, ys, o);
    } else {
      var tail := ys[1..];
      assert AllKeyed(tail, o.field) && Ranked(tail, o) && RankedFrom(tail, o, Rank(ys[0], o));
      InsertRanked(x, tail, o, Rank(ys[0], o));
      var rest := Insert(x, tail, o);
      ConsRanked(ys[0], rest, o);
      assert Insert(x, ys, o) == [ys[0]] + rest;
    }
  }

  /** `Array.prototype.sort` with the field comparator: a stable insertion
      sort. It permutes the items. */
  function SortItems(xs: seq<MenuItem>, o: SortOrder): (r: seq<MenuItem>)
    ensures multiset(r) == multiset(xs)
    ensures |r| == |xs|
    decreases |xs|
  {
    if xs == [] then []
    else
      var init := xs[..|xs| - 1];
      assert xs == init + [xs[|xs| - 1]];
      var r := Insert(xs[|xs| - 1], SortItems(init, o), o);
      assert |r| == |multiset(r)|;
      r
  }

  /** Sorting on a field no item has a number in leaves the items where they
      are: every comparison is `NaN`, which counts as "equal". */
  lemma {:induction false} SortUnkeyed(xs: seq<MenuItem>, o: SortOrder)
    requires NoneKeyed(xs, o.field)
    ensures SortItems(xs, o) == xs
    decreases |xs|
  {
    if xs != [] {
      var init := xs[..|xs| - 1];
      var last := xs[|xs| - 1];
      assert xs == init + [last];
      assert SortItems(xs, o) == Insert(last, SortItems(init, o), o);
      assert NoneKeyed(init, o.field);
      SortUnkeyed(init, o);
      InsertUnkeyed(last, init, o);
    }
  }

  /** When every item has a number in the sort field, the sorted items are
      ranked. */
  lemma {:induction false} SortItemsRanked(xs: seq<MenuItem>, o: SortOrder)
    requires AllKeyed(xs, o.field)
    ensures AllKeyed(SortItems(xs, o), o.field) && Ranked(SortItems(xs, o), o)
    decreases |xs|
  {
    if xs != [] {
      var init := xs[..|xs| - 1];
      assert AllKeyed(init, o.field);
      SortItemsRanked(init, o);
      var last := xs[|xs| - 1];
      var sorted := SortItems(init, o);
      var bound := if sorted == [] || Rank(last, o) <= Rank(sorted[0], o) then Rank(last, o)
                   else Rank(sorted[0], o);
      assert RankedFrom(sorted, o, bound);
      InsertRanked(last, sorted, o, bound);
    }
  }

  /** The items are in the order `o` asks for: every item has a number in
      the field, non-decreasing for an ascending sort and non-increasing for
      a descending one. */
  predicate InFieldOrder(r: seq<MenuItem>, o: SortOrder) {
    && AllKeyed(r, o.field)
    && (!o.descending ==> forall i, j :: 0 <= i < j < |r| ==>
          SortKey(r[i], o.field).value <= SortKey(r[j], o.field).value)
    && (o.descending ==> forall i, j :: 0 <= i < j < |r| ==>
          SortKey(r[i], o.field).value >= SortKey(r[j], o.field).value)
  }

  /** `sort=field` orders the items by non-decreasing `field`,
      `sort=field:desc` by non-increasing `field`, as a permutation of the
      filtered items. */
  lemma SortedByField(xs: seq<MenuItem>, o: SortOrder)
    requires AllKeyed(xs, o.field)
    ensures multiset(SortItems(xs, o)) == multiset(xs)
    ensures InFieldOrder(SortItems(xs, o), o)
  {
    SortItemsRanked(xs, o);
    var r := SortItems(xs, o);
    assert forall i, j :: 0 <= i < j < |r| ==> Rank(r[i], o) <= Rank(r[j], o);
  }

  /** A contiguous run of ordered items is in order. */
  lemma InFieldOrderSlice(r: seq<MenuItem>, o: SortOrder, i: nat, j: nat)
    requires i <= j <= |r| && InFieldOrder(r, o)
    ensures InFieldOrder(r[i..j], o)
  {
    assert forall k :: 0 <= k < j - i ==> r[i..j][k] == r[i + k];
  }

  /** `sort=price:desc` on prices 10, 30, 20 gives 30, 20, 10. */
  lemma PriceDescExample(a: MenuItem, b: MenuItem, c: MenuItem)
    requires a.price == 10 && b.price == 30 && c.price == 20
    ensures SortItems([a, b, c], ParseSort("price:desc")) == [b, c, a]
  {
    PriceDesc();
    var o := SortOrder("price", true);
    PriceBefore(b, a);
    PriceBefore(c, a);
    PriceBefore(b, c);
    SortThree(a, b, c, o);
  }

  /** Under a descending price sort a dearer item comes first, and a
      cheaper one does not. */
  lemma PriceBefore(x: MenuItem, y: MenuItem)
    requires x.price > y.price
    ensures Before(x, y, SortOrder("price", true))
    ensures !Before(y, x, SortOrder("price", true))
  {
    assert "price" != "id";
  }

  /** Sorting three items where the second must precede the first and the
      third, and the third must precede the first. */
  lemma SortThree(a: MenuItem, b: MenuItem, c: MenuItem, o: SortOrder)
    requires Before(b, a, o) && !Before(c, b, o) && Before(c, a, o)
    ensures SortItems([a, b, c], o) == [b, c, a]
  {
    assert [a, b, c][..2] == [a, b];
    SortTwo(a, b, o);
    InsertMiddle(c, b, a, o);
  }

  /** `sort=price:desc` parses to a descending sort on `price`. */
  lemma PriceDesc()
    ensures ParseSort("price:desc") == SortOrder("price", true)
  {
    ParseSortPair("price", "desc");
    assert "price" + [':'] + "desc" == "price:desc";
  }

  /** Two items, the second of which must come first. */
  lemma SortTwo(a: MenuItem, b: MenuItem, o: SortOrder)
    requires Before(b, a, o)
    ensures SortItems([a, b], o) == [b, a]
  {
    assert [a, b][..1] == [a] && [a][..0] == [];
    assert SortItems([a], o) == [a];
  }

  /** Inserting an item that belongs between two others. */
  lemma InsertMiddle(x: MenuItem, y: MenuItem, z: MenuItem, o: SortOrder)
    requires !Before(x, y, o) && Before(x, z, o)
    ensures Insert(x, [y, z], o) == [y, x, z]
  {
    assert [y, z][1..] == [z];
  }
}
