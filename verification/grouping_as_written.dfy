/** `groupByCategory` as the handler literally evaluates it. The reports are
    plain objects (`{}`), so reading `counts[m.category]` or
    `grouped[m.category]` finds, for a category the object does not have
    yet, whatever `Object.prototype` has under that name (section 20.1.3 of
    ECMA-262 and its Annex B.2.2). For an ordinary category that is
    `undefined` and the handler behaves as `Grouping` describes; for a
    category such as `constructor` or `__proto__` it does not. */
module GroupingAsWritten {
  import opened Wrappers
  import opened Menu
  import opened Grouping

  /** The JavaScript values the count loop can read or store. */
  datatype JsValue =
    | Undefined
    | Number(n: int)
    | Str(s: string)
    | NativeFunction(name: string)  // an inherited method of Object.prototype
    | PrototypeObject               // what the inherited __proto__ getter returns

  /** The names `Object.prototype` has a method under. */
  const PrototypeMethods: set<string> := {
    "constructor", "hasOwnProperty", "isPrototypeOf", "propertyIsEnumerable",
    "toLocaleString", "toString", "valueOf",
    "__defineGetter__", "__defineSetter__", "__lookupGetter__", "__lookupSetter__"}

  /** Every name a fresh `{}` answers for without owning it. */
  predicate IsInherited(c: string) {
    c in PrototypeMethods || c == "__proto__"
  }

  /** What `{}` inherits under `c`. */
  function Inherited(c: string): (v: JsValue)
    ensures v == Undefined <==> !IsInherited(c)
  {
    if c == "__proto__" then PrototypeObject
    else if c in PrototypeMethods then NativeFunction(if c == "constructor" then "Object" else c)
    else Undefined
  }

  /** `obj[c]` on an object whose own properties are `own`. */
  function Lookup(own: map<string, JsValue>, c: string): JsValue {
    if c in own then own[c] else Inherited(c)
  }

  /** JavaScript truthiness of the values above (`NaN` never occurs). */
  predicate Truthy(v: JsValue) {
    match v
    case Undefined => false
    case Number(n) => n != 0
    case Str(s) => s != ""
    case NativeFunction(_) => true
    case PrototypeObject => true
  }

  /** How a native function prints when converted to a string. */
  function NativeSource(name: string): string {
    "function " + name + "() { [native code] }"
  }

  /** `(v || 0) + 1`: numeric addition for a number, string concatenation
      once the operand is a string, a function or an object. */
  function OrZeroPlusOne(v: JsValue): (r: JsValue)
    ensures r.Number? || r.Str?
    ensures !Truthy(v) ==> r == Number(1)
    ensures v.Number? ==> r == Number(v.n + 1)
    ensures Truthy(v) && !v.Number? ==> r.Str? && r.s != "" && r.s[|r.s| - 1] == '1'
  {
    if !Truthy(v) then Number(1)
    else match v
      case Number(n) => Number(n + 1)
      case Str(s) => Str(s + "1")
      case NativeFunction(name) => Str(NativeSource(name) + "1")
      case PrototypeObject => Str("[object Object]1")
      case Undefined => Number(1)
  }

  /** `obj[c] = v` for a number or a string: it creates or overwrites an own
      property, except under `__proto__`, whose setter ignores a value that
      is not an object. */
  function Assign(own: map<string, JsValue>, c: string, v: JsValue): map<string, JsValue>
    requires v.Number? || v.Str?
  {
    if c == "__proto__" then own else own[c := v]
  }

  /** The count loop as written: the own properties of `counts` after it. */
  function CountsAsWritten(s: seq<MenuItem>): map<string, JsValue>
    decreases |s|
  {
    if s == [] then map[]
    else
      var own := CountsAsWritten(s[..|s| - 1]);
      var c := s[|s| - 1].category;
      Assign(own, c, OrZeroPlusOne(Lookup(own, c)))
  }

  /** The list loop as written: the own properties of `grouped` after it, or
      `None` when `grouped[m.category].push` throws (status 500) because the
      truthy value found is an inherited function or object, which has no
      `push`. */
  function ListAsWritten(s: seq<MenuItem>): Option<map<string, seq<Summary>>>
    decreases |s|
  {
    if s == [] then Some(map[])
    else match ListAsWritten(s[..|s| - 1])
      case None => None
      case Some(groups) =>
        var m := s[|s| - 1];
        if m.category in groups then Some(Append(groups, m))
        else if IsInherited(m.category) then None
        else Some(Append(groups, m))
  }

  /** The counts as JSON numbers. */
  function AsNumbers(counts: map<string, nat>): map<string, JsValue> {
    map c | c in counts :: Number(counts[c])
  }

  /** No item of `s` has a category `{}` inherits a value under. */
  predicate OrdinaryCategories(s: seq<MenuItem>) {
    forall k :: 0 <= k < |s| ==> !IsInherited(s[k].category)
  }

  /** On ordinary categories the count loop as written computes the intended
      counts. */
  lemma {:induction false} CountsAsWrittenOrdinary(s: seq<MenuItem>)
    requires OrdinaryCategories(s)
    ensures CountsAsWritten(s) == AsNumbers(Counts(s))
    decreases |s|
  {
    if s != [] {
      var init := s[..|s| - 1];
      assert OrdinaryCategories(init) by {
        assert forall k :: 0 <= k < |init| ==> init[k] == s[k];
      }
      CountsAsWrittenOrdinary(init);
      var c := s[|s| - 1].category;
      var before := Counts(init);
      assert !IsInherited(c);
      assert AsNumbers(Tally(before, c)) == AsNumbers(before)[c := Number((if c in before then before[c] else 0) + 1)];
    }
  }

  /** On ordinary categories the list loop as written computes the intended
      lists and does not throw. */
  lemma {:induction false} ListAsWrittenOrdinary(s: seq<MenuItem>)
    requires OrdinaryCategories(s)
    ensures ListAsWritten(s) == Some(Groups(s))
    decreases |s|
  {
    if s != [] {
      var init := s[..|s| - 1];
      assert OrdinaryCategories(init) by {
        assert forall k :: 0 <= k < |init| ==> init[k] == s[k];
      }
      ListAsWrittenOrdinary(init);
    }
  }

  /** An item whose category is `constructor`. */
  function ConstructorItem(): (m: MenuItem)
    ensures m.category == "constructor"
  {
    MenuItem(1, "Tea", "constructor", 5000, None, [], "Hot tea",
             Instant("2024-01-01T00:00:00.000Z"), Instant("2024-01-01T00:00:00.000Z"))
  }

  /** A single item in category `constructor` is counted as the string
      `"function Object() { [native code] }1"` rather than 1, and the list
      mode throws on it. */
  lemma ConstructorCategoryMiscounted()
    ensures CountsAsWritten([ConstructorItem()])
            == map["constructor" := Str("function Object() { [native code] }1")]
    ensures Counts([ConstructorItem()]) == map["constructor" := 1]
    ensures ListAsWritten([ConstructorItem()]) == None
  {
    var s := [ConstructorItem()];
    assert s[..0] == [];
    assert Lookup(map[], "constructor") == NativeFunction("Object");
    assert NativeSource("Object") + "1" == "function Object() { [native code] }1";
  }

  /** An item whose category is `__proto__`. */
  function ProtoItem(): (m: MenuItem)
    ensures m.category == "__proto__"
  {
    MenuItem(2, "Cake", "__proto__", 20000, Some(300), [], "Sweet cake",
             Instant("2024-01-01T00:00:00.000Z"), Instant("2024-01-01T00:00:00.000Z"))
  }

  /** A category named `__proto__` vanishes from the counts: the assignment
      goes to the prototype setter and creates no property. */
  lemma ProtoCategoryDropped()
    ensures CountsAsWritten([ProtoItem()]) == map[]
    ensures Counts([ProtoItem()]) == map["__proto__" := 1]
    ensures ListAsWritten([ProtoItem()]) == None
  {
    var s := [ProtoItem()];
    assert s[..0] == [];
  }

  /** The list mode as written throws exactly when some item's category is
      a name `{}` inherits. */
  lemma {:induction false} ListAsWrittenThrows(s: seq<MenuItem>)
    ensures ListAsWritten(s).None? <==> !OrdinaryCategories(s)
    decreases |s|
  {
    if s != [] {
      var init := s[..|s| - 1];
      ListAsWrittenThrows(init);
      assert forall k :: 0 <= k < |init| ==> init[k] == s[k];
      if ListAsWritten(init).Some? {
        ListAsWrittenOrdinary(init);
        var c := s[|s| - 1].category;
        if IsInherited(c) {
          ListOfCategory(init, c);
          assert c !in Groups(init) by {
            InheritedNeverOwned(init, c);
          }
        }
      }
    }
  }

  /** The intended lists never hold a category whose items the as-written
      loop would already have thrown on. */
  lemma InheritedNeverOwned(s: seq<MenuItem>, c: string)
    requires OrdinaryCategories(s) && IsInherited(c)
    ensures c !in Groups(s)
  {
    ListOfCategory(s, c);
    if InCategory(s, c) != [] {
      InCategoryMember(s, c);
    }
  }

  /** A non-empty category has an item of the snapshot in it. */
  lemma {:induction false} InCategoryMember(s: seq<MenuItem>, c: string)
    requires InCategory(s, c) != []
    ensures exists k :: 0 <= k < |s| && s[k].category == c
    decreases |s|
  {
    if s[0].category != c {
      InCategoryMember(s[1..], c);
      var k :| 0 <= k < |s[1..]| && s[1..][k].category == c;
      assert s[k + 1].category == c;
    }
  }
}
