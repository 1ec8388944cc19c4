/** The query parameters of `getAllMenus` and its filter stage: the
    parameter guard, the five criteria and the order they are applied in. */
module Filters {
  import opened Wrappers
  import opened Text
  import opened JsNumber
  import opened Menu

  /** The query string of a list or search request; an absent parameter is
      `None`. */
  datatype Query = Query(
    q: Option<string>,
    category: Option<string>,
    minPrice: Option<string>,
    maxPrice: Option<string>,
    maxCal: Option<string>,
    sort: Option<string>,
    page: Option<string>,
    perPage: Option<string>)

  /** The literal a caller's unresolved template placeholder starts with. */
  const Placeholder: string := "{{"

  /** `isValid`: the parameter is present, non-empty and holds no `{{`. */
  predicate IsValid(param: Option<string>) {
    param.Some? && param.value != "" && !Contains(param.value, Placeholder)
  }

  /** A numeric parameter's value, when it passes `isValid` and `isNaN`
      says it is a number. */
  function NumericParam(param: Option<string>): (r: Option<int>)
    ensures r.Some? ==> IsValid(param)
    ensures r.Some? <==> IsValid(param) && ParseNumber(param.value).Some?
    ensures r.Some? ==> r == ParseNumber(param.value)
  {
    if IsValid(param) then ParseNumber(param.value) else None
  }

  /** A parameter holding the numeral of `n` is read as `n`: it passes
      `isValid` (no `{{`) and `Number` gives back `n`. */
  lemma NumericParamOfNumeral(n: int)
    ensures IsValid(Some(ShowInt(n)))
    ensures NumericParam(Some(ShowInt(n))) == Some(n)
  {
    NumeralHasNoBrace(n);
    if Contains(ShowInt(n), Placeholder) {
      ContainsFirst(ShowInt(n), Placeholder);
    }
    ParseShowRoundTrip(n);
  }

  /** A parameter of whitespace only, such as `min_price=%20`, passes
      `isValid` (it is not empty and holds no brace) and `Number` reads it
      as 0, so its filter runs with bound 0. */
  lemma BlankParamIsZero(s: string)
    requires s != "" && AllWhitespace(s)
    ensures IsValid(Some(s))
    ensures NumericParam(Some(s)) == Some(0)
  {
    if Contains(s, Placeholder) {
      ContainsFirst(s, Placeholder);
    }
    BlankIsZero(s);
  }

  /** One filter of the pipeline. */
  datatype Criterion =
    | NameContains(needle: string)
    | CategoryIs(category: string)
    | PriceAtLeast(bound: int)
    | PriceAtMost(bound: int)
    | CaloriesAtMost(bound: int)

  /** The test each filter applies to an item. A `NaN` calorie count fails
      every comparison. */
  predicate Holds(c: Criterion, m: MenuItem) {
    match c
    case NameContains(needle) => Contains(Lower(m.name), Lower(needle))
    case CategoryIs(category) => m.category == category
    case PriceAtLeast(bound) => m.price >= bound
    case PriceAtMost(bound) => m.price <= bound
    case CaloriesAtMost(bound) => m.calories.Some? && m.calories.value <= bound
  }

  /** The item passes every criterion of `cs`. */
  predicate SatisfiesAll(m: MenuItem, cs: seq<Criterion>) {
    forall k :: 0 <= k < |cs| ==> Holds(cs[k], m)
  }

  /** The active criteria of a query, in the order the handler applies
      them: name, category, minimum price, maximum price, maximum
      calories. */
  function Criteria(query: Query): seq<Criterion> {
    (if IsValid(query.q) then [NameContains(query.q.value)] else [])
    + (if IsValid(query.category) then [CategoryIs(query.category.value)] else [])
    + (match NumericParam(query.minPrice) case Some(n) => [PriceAtLeast(n)] case None => [])
    + (match NumericParam(query.maxPrice) case Some(n) => [PriceAtMost(n)] case None => [])
    + (match NumericParam(query.maxCal) case Some(n) => [CaloriesAtMost(n)] case None => [])
  }

  /** `a` is `b` with some elements left out, the rest in their order. */
  ghost predicate IsSubsequence<T>(a: seq<T>, b: seq<T>)
    decreases |b|
  {
    if a == [] then true
    else if b == [] then false
    else (a[0] == b[0] && IsSubsequence(a[1..], b[1..])) || IsSubsequence(a, b[1..])
  }

  /** One `Array.prototype.filter` pass with one criterion. */
  function Keep(xs: seq<MenuItem>, c: Criterion): seq<MenuItem>
    decreases |xs|
  {
    if xs == [] then []
    else (if Holds(c, xs[0]) then [xs[0]] else []) + Keep(xs[1..], c)
  }

  /** Filtering a sequence with one more item at the end keeps what the
      shorter sequence keeps, then that item if it passes. */
  lemma {:induction false} KeepSnoc(xs: seq<MenuItem>, x: MenuItem, c: Criterion)
    ensures Keep(xs + [x], c) == Keep(xs, c) + (if Holds(c, x) then [x] else [])
    decreases |xs|
  {
    if xs == [] {
      assert [x][1..] == [];
    } else {
      var ys := xs + [x];
      var head := if Holds(c, xs[0]) then [xs[0]] else [];
      var last := if Holds(c, x) then [x] else [];
      assert ys[0] == xs[0] && ys[1..] == xs[1..] + [x];
      KeepSnoc(xs[1..], x, c);
      assert Keep(ys, c) == head + (Keep(xs[1..], c) + last);
      assert Keep(xs, c) == head + Keep(xs[1..], c);
    }
  }

  /** The reference filter: a single pass keeping the items that satisfy
      every criterion at once. */
  function KeepAll(xs: seq<MenuItem>, cs: seq<Criterion>): seq<MenuItem>
    decreases |xs|
  {
    if xs == [] then []
    else (if SatisfiesAll(xs[0], cs) then [xs[0]] else []) + KeepAll(xs[1..], cs)
  }

  /** The reference filter keeps items of `xs` only, in their order. */
  lemma {:induction false} KeepAllIsSubsequence(xs: seq<MenuItem>, cs: seq<Criterion>)
    ensures IsSubsequence(KeepAll(xs, cs), xs)
    decreases |xs|
  {
    if xs != [] {
      KeepAllIsSubsequence(xs[1..], cs);
      var rest := KeepAll(xs[1..], cs);
      if SatisfiesAll(xs[0], cs) {
        var r := [xs[0]] + rest;
        assert r[0] == xs[0] && r[1..] == rest;
      } else {
        assert KeepAll(xs, cs) == rest;
        SubsequenceOfTail(rest, xs);
      }
    }
  }

  /** One filter pass keeps items of `xs` only, in their order. */
  lemma {:induction false} KeepIsSubsequence(xs: seq<MenuItem>, c: Criterion)
    ensures IsSubsequence(Keep(xs, c), xs)
    decreases |xs|
  {
    if xs != [] {
      KeepIsSubsequence(xs[1..], c);
      var rest := Keep(xs[1..], c);
      if Holds(c, xs[0]) {
        var r := [xs[0]] + rest;
        assert r[0] == xs[0] && r[1..] == rest;
      } else {
        assert Keep(xs, c) == rest;
        SubsequenceOfTail(rest, xs);
      }
    }
  }

  /** A subsequence of the tail is a subsequence of the whole. */
  lemma SubsequenceOfTail<T>(a: seq<T>, b: seq<T>)
    requires b != [] && IsSubsequence(a, b[1..])
    ensures IsSubsequence(a, b)
  {
  }

  /** Every item the reference filter keeps satisfies every criterion. */
  lemma {:induction false} KeepAllSound(xs: seq<MenuItem>, cs: seq<Criterion>)
    ensures forall k :: 0 <= k < |KeepAll(xs, cs)| ==> SatisfiesAll(KeepAll(xs, cs)[k], cs)
    decreases |xs|
  {
    if xs != [] {
      KeepAllSound(xs[1..], cs);
    }
  }

  /** The reference filter keeps only items of `xs` that satisfy every
      criterion. */
  lemma {:induction false} KeepAllMembers(xs: seq<MenuItem>, cs: seq<Criterion>)
    ensures forall m :: m in KeepAll(xs, cs) ==> m in xs && SatisfiesAll(m, cs)
    decreases |xs|
  {
    if xs != [] {
      KeepAllMembers(xs[1..], cs);
    }
  }

  /** The reference filter keeps each satisfying item as often as it occurs
      and drops every other one. */
  lemma {:induction false} KeepAllCounts(xs: seq<MenuItem>, cs: seq<Criterion>)
    ensures forall m :: multiset(KeepAll(xs, cs))[m] ==
              if SatisfiesAll(m, cs) then multiset(xs)[m] else 0
    decreases |xs|
  {
    if xs != [] {
      KeepAllCounts(xs[1..], cs);
      assert xs == [xs[0]] + xs[1..];
      assert multiset(xs) == multiset{xs[0]} + multiset(xs[1..]);
    }
  }

  /** The filters applied one after another, in the order given. */
  function ApplyInOrder(xs: seq<MenuItem>, cs: seq<Criterion>): seq<MenuItem>
    decreases |cs|
  {
    if cs == [] then xs else ApplyInOrder(Keep(xs, cs[0]), cs[1..])
  }

  /** An item satisfies `[c] + cs` when it satisfies `c` and `cs`. */
  lemma SatisfiesAllCons(m: MenuItem, c: Criterion, cs: seq<Criterion>)
    ensures SatisfiesAll(m, [c] + cs) <==> Holds(c, m) && SatisfiesAll(m, cs)
  {
    if SatisfiesAll(m, [c] + cs) {
      assert ([c] + cs)[0] == c;
      forall k | 0 <= k < |cs|
        ensures Holds(cs[k], m)
      {
        assert ([c] + cs)[k + 1] == cs[k];
      }
    }
  }

  /** Filtering by one criterion and then by several is filtering by all of
      them at once. */
  lemma {:induction false} KeepThenKeepAll(xs: seq<MenuItem>, c: Criterion, cs: seq<Criterion>)
    ensures KeepAll(Keep(xs, c), cs) == KeepAll(xs, [c] + cs)
    decreases |xs|
  {
    if xs != [] {
      KeepThenKeepAll(xs[1..], c, cs);
      SatisfiesAllCons(xs[0], c, cs);
      var tail := Keep(xs[1..], c);
      if Holds(c, xs[0]) {
        assert Keep(xs, c) == [xs[0]] + tail;
        assert ([xs[0]] + tail)[1..] == tail;
        assert KeepAll(Keep(xs, c), cs)
            == (if SatisfiesAll(xs[0], cs) then [xs[0]] else []) + KeepAll(tail, cs);
      } else {
        assert Keep(xs, c) == tail;
      }
    }
  }

  /** Applying the filters one pass at a time keeps exactly the items that
      satisfy all of them. */
  lemma {:induction false} ApplyInOrderIsKeepAll(xs: seq<MenuItem>, cs: seq<Criterion>)
    ensures ApplyInOrder(xs, cs) == KeepAll(xs, cs)
    decreases |cs|
  {
    if cs == [] {
      KeepAllNoCriteria(xs);
    } else {
      ApplyInOrderIsKeepAll(Keep(xs, cs[0]), cs[1..]);
      KeepThenKeepAll(xs, cs[0], cs[1..]);
      assert [cs[0]] + cs[1..] == cs;
    }
  }

  /** With no criteria nothing is filtered out. */
  lemma {:induction false} KeepAllNoCriteria(xs: seq<MenuItem>)
    ensures KeepAll(xs, []) == xs
    decreases |xs|
  {
    if xs != [] {
      KeepAllNoCriteria(xs[1..]);
    }
  }

  /** The filter stage of `getAllMenus`. */
  function Filtered(snapshot: seq<MenuItem>, query: Query): seq<MenuItem> {
    ApplyInOrder(snapshot, Criteria(query))
  }

  /** The filter stage keeps, in snapshot order and with multiplicity,
      exactly the snapshot items that satisfy every active criterion. */
  lemma FilteredCharacterized(snapshot: seq<MenuItem>, query: Query)
    ensures var r := Filtered(snapshot, query);
            && IsSubsequence(r, snapshot)
            && (forall k :: 0 <= k < |r| ==> SatisfiesAll(r[k], Criteria(query)))
            && (forall m :: multiset(r)[m] ==
                  if SatisfiesAll(m, Criteria(query)) then multiset(snapshot)[m] else 0)
  {
    ApplyInOrderIsKeepAll(snapshot, Criteria(query));
    KeepAllIsSubsequence(snapshot, Criteria(query));
    KeepAllSound(snapshot, Criteria(query));
    KeepAllCounts(snapshot, Criteria(query));
  }
}
