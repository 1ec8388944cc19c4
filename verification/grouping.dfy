/** `groupByCategory`: the category report over a snapshot of the
    collection, either the number of items per category (`mode=count`) or
    the items of each category in snapshot order (`mode=list`). The report
    is built as a map from category to its entry, one item at a time in
    snapshot order, as the handler's `forEach` does. */
module Grouping {
  import opened Wrappers
  import opened Menu
  import opened Filters

  /** The projection `{id, name, category, price}` the list mode shows. */
  datatype Summary = Summary(id: int, name: string, category: string, price: int)

  /** What `groupByCategory` answers with. */
  datatype Report =
    | CountReport(counts: map<string, nat>)
    | ListReport(groups: map<string, seq<Summary>>)

  function Summarize(m: MenuItem): (s: Summary)
    ensures s.id == m.id && s.name == m.name && s.category == m.category && s.price == m.price
  {
    Summary(m.id, m.name, m.category, m.price)
  }

  /** The projection of every item, in order. */
  function SummarizeAll(xs: seq<MenuItem>): (r: seq<Summary>)
    ensures |r| == |xs|
    ensures forall k :: 0 <= k < |xs| ==> r[k] == Summarize(xs[k])
  {
    seq(|xs|, k requires 0 <= k < |xs| => Summarize(xs[k]))
  }

  /** The items of category `c`, in snapshot order. */
  function InCategory(xs: seq<MenuItem>, c: string): seq<MenuItem> {
    Keep(xs, CategoryIs(c))
  }

  /** One step of the count loop: `counts[c] = (counts[c] || 0) + 1`. */
  function Tally(counts: map<string, nat>, c: string): map<string, nat> {
    counts[c := (if c in counts then counts[c] else 0) + 1]
  }

  /** The count loop over the snapshot, item by item. */
  function Counts(s: seq<MenuItem>): map<string, nat>
    decreases |s|
  {
    if s == [] then map[] else Tally(Counts(s[..|s| - 1]), s[|s| - 1].category)
  }

  /** One step of the list loop: start the category's list if it has none,
      then append the item's projection. */
  function Append(groups: map<string, seq<Summary>>, m: MenuItem): map<string, seq<Summary>> {
    var c := m.category;
    groups[c := (if c in groups then groups[c] else []) + [Summarize(m)]]
  }

  /** The list loop over the snapshot, item by item. */
  function Groups(s: seq<MenuItem>): map<string, seq<Summary>>
    decreases |s|
  {
    if s == [] then map[] else Append(Groups(s[..|s| - 1]), s[|s| - 1])
  }

  /** `groupByCategory` with the `mode` query parameter. */
  function GroupByCategory(snapshot: seq<MenuItem>, mode: Option<string>): (r: Result<Report, MenuError>)
    ensures r.Failure? <==> mode != Some("count") && mode != Some("list")
    ensures r.Failure? ==> r.error == InvalidMode
    ensures mode == Some("count") ==> r.value.CountReport? && r.value.counts == Counts(snapshot)
    ensures mode == Some("list") ==> r.value.ListReport? && r.value.groups == Groups(snapshot)
  {
    if mode == Some("count") then Success(CountReport(Counts(snapshot)))
    else if mode == Some("list") then Success(ListReport(Groups(snapshot)))
    else Failure(InvalidMode)
  }

  /** The count of a category is the number of snapshot items in it, and a
      category has an entry exactly when some item is in it. */
  lemma {:induction false} CountOfCategory(s: seq<MenuItem>, c: string)
    ensures c in Counts(s) <==> InCategory(s, c) != []
    ensures c in Counts(s) ==> Counts(s)[c] == |InCategory(s, c)|
    decreases |s|
  {
    if s != [] {
      var init := s[..|s| - 1];
      var last := s[|s| - 1];
      assert s == init + [last];
      CountOfCategory(init, c);
      KeepSnoc(init, last, CategoryIs(c));
    }
  }

  /** `mode=count`: each count is the number of items in that category,
      and only categories some item has appear. */
  lemma CountsPerCategory(s: seq<MenuItem>)
    ensures forall c :: c in Counts(s) <==> InCategory(s, c) != []
    ensures forall c :: c in Counts(s) ==> Counts(s)[c] == |InCategory(s, c)|
  {
    forall c
      ensures c in Counts(s) <==> InCategory(s, c) != []
      ensures c in Counts(s) ==> Counts(s)[c] == |InCategory(s, c)|
    {
      CountOfCategory(s, c);
    }
  }

  /** The list of a category is the projection of the snapshot items in it,
      in snapshot order, and a category has a list exactly when some item is
      in it. */
  lemma {:induction false} ListOfCategory(s: seq<MenuItem>, c: string)
    ensures c in Groups(s) <==> InCategory(s, c) != []
    ensures c in Groups(s) ==> Groups(s)[c] == SummarizeAll(InCategory(s, c))
    decreases |s|
  {
    if s != [] {
      var init := s[..|s| - 1];
      var last := s[|s| - 1];
      assert s == init + [last];
      ListOfCategory(init, c);
      KeepSnoc(init, last, CategoryIs(c));
      if last.category == c {
        var before := InCategory(init, c);
        assert SummarizeAll(before + [last]) == SummarizeAll(before) + [Summarize(last)];
      }
    }
  }

  /** `mode=list`: each category's list holds the projections of the items
      in that category, in snapshot order. */
  lemma ListsPerCategory(s: seq<MenuItem>)
    ensures forall c :: c in Groups(s) <==> InCategory(s, c) != []
    ensures forall c :: c in Groups(s) ==>
              Groups(s)[c] == SummarizeAll(InCategory(s, c))
              && IsSubsequence(InCategory(s, c), s)
  {
    forall c
      ensures c in Groups(s) <==> InCategory(s, c) != []
      ensures c in Groups(s) ==>
                Groups(s)[c] == SummarizeAll(InCategory(s, c))
                && IsSubsequence(InCategory(s, c), s)
    {
      ListOfCategory(s, c);
      KeepIsSubsequence(s, CategoryIs(c));
    }
  }

  /** The two modes agree: the same categories, and each list is as long as
      that category's count. */
  lemma ModesAgree(s: seq<MenuItem>)
    ensures Groups(s).Keys == Counts(s).Keys
    ensures forall c :: c in Counts(s) ==> |Groups(s)[c]| == Counts(s)[c]
  {
    CountsPerCategory(s);
    ListsPerCategory(s);
  }

  /** The sum of the values of a map. */
  ghost function Total(m: map<string, nat>): nat
    decreases |m|
  {
    if m == map[] then 0
    else
      var k := SomeKey(m);
      m[k] + Total(m - {k})
  }

  /** A key of a non-empty map. */
  ghost function SomeKey(m: map<string, nat>): (k: string)
    requires m != map[]
    ensures k in m
  {
    assert m.Keys != {} by {
      assert m == map k | k in m.Keys :: m[k];
    }
    var k :| k in m.Keys;
    k
  }

  /** The sum does not depend on which key is taken out first. */
  lemma {:induction false} TotalRemove(m: map<string, nat>, k: string)
    requires k in m
    ensures Total(m) == m[k] + Total(m - {k})
    decreases |m|
  {
    var j := SomeKey(m);
    if j != k {
      var mj := m - {j};
      var mk := m - {k};
      TotalRemove(mj, k);
      TotalRemove(mk, j);
      assert mj - {k} == mk - {j};
    }
  }

  /** One more item in a category adds one to the sum of the counts. */
  lemma TallyTotal(counts: map<string, nat>, c: string)
    ensures Total(Tally(counts, c)) == Total(counts) + 1
  {
    var t := Tally(counts, c);
    TotalRemove(t, c);
    if c in counts {
      TotalRemove(counts, c);
      assert t - {c} == counts - {c};
    } else {
      assert t - {c} == counts;
    }
  }

  /** `mode=count`: the counts add up to the number of items in the
      snapshot. */
  lemma {:induction false} CountsSumToSize(s: seq<MenuItem>)
    ensures Total(Counts(s)) == |s|
    decreases |s|
  {
    if s != [] {
      CountsSumToSize(s[..|s| - 1]);
      TallyTotal(Counts(s[..|s| - 1]), s[|s| - 1].category);
    }
  }

  /** What `groupByCategory` reports: for `mode=count` the number of items
      of each category that has any, for `mode=list` their projections in
      snapshot order, and "Invalid mode" for any other mode. */
  lemma GroupByCategoryMeaning(snapshot: seq<MenuItem>, mode: Option<string>)
    ensures var r := GroupByCategory(snapshot, mode);
            mode == Some("count") ==>
              && r.Success? && r.value.CountReport?
              && (forall c :: c in r.value.counts <==> InCategory(snapshot, c) != [])
              && (forall c :: c in r.value.counts ==> r.value.counts[c] == |InCategory(snapshot, c)|)
    ensures var r := GroupByCategory(snapshot, mode);
            mode == Some("list") ==>
              && r.Success? && r.value.ListReport?
              && (forall c :: c in r.value.groups <==> InCategory(snapshot, c) != [])
              && (forall c :: c in r.value.groups ==>
                    && |r.value.groups[c]| == |InCategory(snapshot, c)|
                    && forall k :: 0 <= k < |r.value.groups[c]| ==>
                         r.value.groups[c][k] == Summarize(InCategory(snapshot, c)[k]))
    ensures mode != Some("count") && mode != Some("list") ==>
              GroupByCategory(snapshot, mode) == Failure(InvalidMode)
  {
    CountsPerCategory(snapshot);
    ListsPerCategory(snapshot);
  }
}
