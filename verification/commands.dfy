/** The command handlers `createMenu`, `getMenuById`, `updateMenu` and
    `deleteMenu`, as transitions on the store. Each handler returns the store
    after the call together with its response, so "the store is unchanged"
    is something a contract can say. */
module Commands {
  import opened Wrappers
  import opened Text
  import opened Menu

  /** The store after a handler ran, and what the handler answered. */
  datatype Outcome<T> = Outcome(store: Store, response: Result<T, MenuError>)

  /** The JSON body of a create request; an absent field is `None`. */
  datatype CreateBody = CreateBody(
    name: Option<string>,
    category: Option<string>,
    calories: Option<int>,
    price: Option<int>,
    ingredients: Option<seq<string>>,
    description: Option<string>)

  /** The JSON body of an update request: the record fields it carries. Any
      `id` or `updated_at` in the body is overwritten by the handler, so the
      patch does not carry them. */
  datatype Patch = Patch(
    name: Option<string>,
    category: Option<string>,
    price: Option<int>,
    calories: Option<int>,
    ingredients: Option<seq<string>>,
    description: Option<string>,
    createdAt: Option<Timestamp>)

  /** The description stored when the generator fails. */
  const FallbackDescription: string := "Delicious menu item"

  /** A string field is truthy when present and non-empty. */
  predicate Truthy(s: Option<string>) {
    s.Some? && s.value != ""
  }

  /** The create request passes the `name`, `category`, `price` check: each
      is present and truthy (a price of 0 is falsy). */
  predicate HasRequiredFields(body: CreateBody) {
    Truthy(body.name) && Truthy(body.category) && body.price.Some? && body.price.value != 0
  }

  /** The `id` fields of the stored documents. */
  function Ids(store: Store): set<int> {
    set k | k in store :: store[k].id
  }

  lemma Inhabited(s: set<int>)
    requires s != {}
    ensures exists y :: y in s
  {
    assert (forall y :: y !in s) ==> s == {};
  }

  /** A largest element of a non-empty set, found by taking out one
      element at a time. */
  lemma {:induction false} LargestElement(s: set<int>) returns (m: int)
    requires s != {}
    ensures m in s && forall x :: x in s ==> x <= m
    decreases |s|
  {
    Inhabited(s);
    var y :| y in s;
    var rest := s - {y};
    if rest == {} {
      m := y;
    } else {
      var r := LargestElement(rest);
      m := if y > r then y else r;
    }
    UpperBound(s, y, m);
  }

  lemma MaxExists(s: set<int>)
    requires s != {}
    ensures exists m :: m in s && forall x :: x in s ==> x <= m
  {
    var m := LargestElement(s);
  }

  /** A bound on `y` and on the rest of `s` bounds all of `s`. */
  lemma UpperBound(s: set<int>, y: int, top: int)
    requires y <= top && forall x :: x in s - {y} ==> x <= top
    ensures forall x :: x in s ==> x <= top
  {
    forall x | x in s
      ensures x <= top
    {
      assert x == y || x in s - {y};
    }
  }

  /** The largest element of a non-empty set. */
  function MaxOf(s: set<int>): (m: int)
    requires s != {}
    ensures m in s && forall x :: x in s ==> x <= m
  {
    MaxExists(s);
    var m :| m in s && forall x :: x in s ==> x <= m;
    m
  }

  /** The id a create assigns: one more than the largest stored `id` (what
      the descending-by-id, limit-1 query reads), or 1 for an empty store. */
  function NextId(store: Store): (n: int)
    ensures store == map[] ==> n == 1
    ensures forall k :: k in store ==> store[k].id < n
    ensures store != map[] ==> exists k :: k in store && store[k].id == n - 1
  {
    if store == map[] then 1
    else
      Inhabited(store.Keys);
      var k :| k in store;
      assert store[k].id in Ids(store);
      var m := MaxOf(Ids(store));
      assert forall j :: j in store ==> store[j].id in Ids(store);
      m + 1
  }

  /** The description a created record gets: the caller's when it is not
      blank; otherwise the generator's text, trimmed; otherwise (the generator
      failed) the fallback. */
  function Describe(given: Option<string>, generated: Option<string>): (d: string)
    ensures given.Some? && !IsBlank(given.value) ==> d == given.value
    ensures (given.None? || IsBlank(given.value)) && generated.None? ==> d == FallbackDescription
    ensures (given.None? || IsBlank(given.value)) && generated.Some? ==> d == Trim(generated.value)
  {
    if given.Some? && !IsBlank(given.value) then given.value
    else match generated
      case None => FallbackDescription
      case Some(text) => Trim(text)
  }

  /** The fallback text is not blank. */
  lemma FallbackNotBlank()
    ensures !IsBlank(FallbackDescription)
  {
    var f := FallbackDescription;
    assert f[0] == 'D' && f[|f| - 1] == 'm';
    TrimUnpadded(f);
  }

  /** A created record's description is blank only when the caller gave none
      (or a blank one) and the generator answered with blank text: the
      fallback itself is not blank. */
  lemma DescribeBlank(given: Option<string>, generated: Option<string>)
    ensures IsBlank(Describe(given, generated)) <==>
              (given.None? || IsBlank(given.value)) && generated.Some? && IsBlank(generated.value)
  {
    var d := Describe(given, generated);
    if given.Some? && !IsBlank(given.value) {
      assert d == given.value;
    } else if generated.None? {
      assert d == FallbackDescription;
      FallbackNotBlank();
    } else {
      assert d == Trim(generated.value);
      TrimIdempotent(generated.value);
    }
  }

  /** `createMenu`: check the required fields, settle the description, assign
      the next id and write the record under it. `generated` is what the
      description generator answered (`None` when it threw); `now` is the
      creation instant. */
  function Create(store: Store, body: CreateBody, generated: Option<string>, now: Timestamp)
    : (r: Outcome<MenuItem>)
    ensures r.response.Failure? <==> !HasRequiredFields(body)
    ensures r.response.Failure? ==> r.response.error == MissingFields && r.store == store
    ensures r.response.Success? ==>
              var item := r.response.value;
              && item.id == NextId(store)
              && r.store == store[item.id := item]
              && item.name == body.name.value
              && item.category == body.category.value
              && item.price == body.price.value
              && item.calories == body.calories
              && item.ingredients == body.ingredients.GetOr([])
              && item.description == Describe(body.description, generated)
              && item.createdAt == now && item.updatedAt == now
  {
    if !HasRequiredFields(body) then Outcome(store, Failure(MissingFields))
    else
      var id := NextId(store);
      var item := MenuItem(
        id, body.name.value, body.category.value, body.price.value, body.calories,
        body.ingredients.GetOr([]), Describe(body.description, generated), now, now);
      Outcome(store[id := item], Success(item))
  }

  /** On a well-keyed store a successful create adds exactly one record,
      under a fresh key above every existing one, and changes no other
      record. */
  lemma CreateAddsOneRecord(store: Store, body: CreateBody, generated: Option<string>, now: Timestamp)
    requires WellKeyed(store) && HasRequiredFields(body)
    ensures var r := Create(store, body, generated, now);
            var id := r.response.value.id;
            && id !in store
            && (forall k :: k in store ==> k < id)
            && r.store.Keys == store.Keys + {id}
            && |r.store| == |store| + 1
            && (forall k :: k in store ==> r.store[k] == store[k])
            && WellKeyed(r.store)
  {
    var r := Create(store, body, generated, now);
    var id := NextId(store);
    var item := r.response.value;
    assert item.id == id;
    forall k | k in store
      ensures k < id
    {
      assert store[k].id == k;
    }
    assert r.store == store[id := item];
    PutFresh(store, id, item);
  }

  /** Writing a record under a key above every stored one adds that record
      and keeps the store well-keyed. */
  lemma PutFresh(store: Store, id: int, item: MenuItem)
    requires WellKeyed(store) && item.id == id
    requires forall k :: k in store ==> k < id
    ensures id !in store
    ensures store[id := item].Keys == store.Keys + {id}
    ensures |store[id := item]| == |store| + 1
    ensures WellKeyed(store[id := item])
  {
  }

  /** `getMenuById`. */
  function GetById(store: Store, id: int): (r: Result<MenuItem, MenuError>)
    ensures r.Success? <==> id in store
    ensures r.Success? ==> r.value == store[id]
    ensures r.Failure? ==> r.error == NotFound
  {
    if id in store then Success(store[id]) else Failure(NotFound)
  }

  /** The record after an update: the body's fields over the stored ones,
      `id` pinned to the path id, `updated_at` refreshed. */
  function Merge(stored: MenuItem, patch: Patch, id: int, now: Timestamp): MenuItem {
    MenuItem(
      id,
      patch.name.GetOr(stored.name),
      patch.category.GetOr(stored.category),
      patch.price.GetOr(stored.price),
      if patch.calories.Some? then patch.calories else stored.calories,
      patch.ingredients.GetOr(stored.ingredients),
      patch.description.GetOr(stored.description),
      patch.createdAt.GetOr(stored.createdAt),
      now)
  }

  /** `updateMenu`: a field-level update of an existing record. The record it
      answers with is the one it persists. */
  function Update(store: Store, id: int, patch: Patch, now: Timestamp): (r: Outcome<MenuItem>)
    ensures r.response.Failure? <==> id !in store
    ensures id !in store ==> r.response.error == NotFound && r.store == store
    ensures id in store ==>
              var prev := store[id];
              var m := r.response.value;
              && r.store == store[id := m]
              && m.id == id && m.updatedAt == now
              && m.name == (if patch.name.Some? then patch.name.value else prev.name)
              && m.category == (if patch.category.Some? then patch.category.value else prev.category)
              && m.price == (if patch.price.Some? then patch.price.value else prev.price)
              && m.calories == (if patch.calories.Some? then patch.calories else prev.calories)
              && m.ingredients == (if patch.ingredients.Some? then patch.ingredients.value else prev.ingredients)
              && m.description == (if patch.description.Some? then patch.description.value else prev.description)
              && m.createdAt == (if patch.createdAt.Some? then patch.createdAt.value else prev.createdAt)
    ensures r.store.Keys == store.Keys
    ensures WellKeyed(store) ==> WellKeyed(r.store)
  {
    if id !in store then Outcome(store, Failure(NotFound))
    else
      var m := Merge(store[id], patch, id, now);
      Outcome(store[id := m], Success(m))
  }

  /** `deleteMenu`: a hard delete of an existing record. */
  function Delete(store: Store, id: int): (r: Outcome<()>)
    ensures r.response.Failure? <==> id !in store
    ensures r.response.Failure? ==> r.response.error == NotFound && r.store == store
    ensures r.store.Keys == store.Keys - {id}
    ensures forall k :: k in r.store ==> r.store[k] == store[k]
    ensures WellKeyed(store) ==> WellKeyed(r.store)
  {
    if id !in store then Outcome(store, Failure(NotFound))
    else Outcome(store - {id}, Success(()))
  }

  /** A created record can be read back under the id the response carries,
      with the body's name, category and price, and the ingredients the body
      gave or none; every other id reads as before. */
  lemma CreateThenGet(store: Store, body: CreateBody, generated: Option<string>, now: Timestamp, other: int)
    requires HasRequiredFields(body)
    ensures var r := Create(store, body, generated, now);
            var id := r.response.value.id;
            && GetById(r.store, id) == Success(r.response.value)
            && GetById(r.store, id).value.name == body.name.value
            && GetById(r.store, id).value.category == body.category.value
            && GetById(r.store, id).value.price == body.price.value
            && (body.ingredients.None? ==> GetById(r.store, id).value.ingredients == [])
            && (other != id ==> GetById(r.store, other) == GetById(store, other))
  {
  }

  /** Without a usable description, a generator failure stores the
      fallback text, which is not blank. */
  lemma CreateWithoutDescription(store: Store, body: CreateBody, now: Timestamp)
    requires HasRequiredFields(body)
    requires body.description.None? || IsBlank(body.description.value)
    ensures var item := Create(store, body, None, now).response.value;
            item.description == "Delicious menu item" && !IsBlank(item.description)
  {
    FallbackNotBlank();
  }

  /** Two creates in a row get consecutive ids, whatever the store holds. */
  lemma CreateTwice(store: Store, a: CreateBody, b: CreateBody, ga: Option<string>, gb: Option<string>,
                    now: Timestamp)
    requires HasRequiredFields(a) && HasRequiredFields(b)
    ensures var first := Create(store, a, ga, now);
            var second := Create(first.store, b, gb, now);
            second.response.value.id == first.response.value.id + 1
  {
    var first := Create(store, a, ga, now);
    var id := first.response.value.id;
    assert first.store[id].id == id;
    var n := NextId(first.store);
    var k :| k in first.store && first.store[k].id == n - 1;
    assert n - 1 <= id;
  }

  /** An update with the same body and instant a second time changes
      nothing more. */
  lemma UpdateIdempotent(store: Store, id: int, patch: Patch, now: Timestamp)
    ensures var once := Update(store, id, patch, now);
            Update(once.store, id, patch, now) == once
  {
  }

  /** An update with an empty body only refreshes `updated_at` (and pins
      `id` to the path). */
  lemma UpdateEmptyPatch(store: Store, id: int, now: Timestamp)
    requires id in store && store[id].id == id
    ensures var r := Update(store, id, Patch(None, None, None, None, None, None, None), now);
            r.response.value == store[id].(updatedAt := now)
  {
  }

  /** After an update the record reads back as the response. */
  lemma UpdateThenGet(store: Store, id: int, patch: Patch, now: Timestamp)
    requires id in store
    ensures var r := Update(store, id, patch, now);
            GetById(r.store, id) == Success(r.response.value)
  {
  }

  /** After a delete the id reads as not found, every other id reads as
      before, and a second delete of the same id fails and changes
      nothing. */
  lemma DeleteThenGet(store: Store, id: int, other: int)
    ensures var r := Delete(store, id);
            && GetById(r.store, id) == Failure(NotFound)
            && (other != id ==> GetById(r.store, other) == GetById(store, other))
            && Delete(r.store, id) == Outcome(r.store, Failure(NotFound))
  {
  }

  /** Updating record 5 with the body `{price: 99}` sets the price, keeps
      the id 5 and every other field, and refreshes `updated_at`. */
  lemma UpdatePriceOnly(store: Store, now: Timestamp)
    requires 5 in store && WellKeyed(store)
    ensures var r := Update(store, 5, Patch(None, None, Some(99), None, None, None, None), now);
            r.response.value == store[5].(price := 99, updatedAt := now)
  {
  }
}
