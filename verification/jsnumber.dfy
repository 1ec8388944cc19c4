/** JavaScript's `Number(s)` / `isNaN(s)` coercion of a query-string value,
    for the integer literals the model deals in. */
module JsNumber {
  import opened Wrappers
  import opened Text

  predicate IsDigit(c: char) {
    '0' <= c <= '9'
  }

  predicate AllDigits(s: string) {
    forall k :: 0 <= k < |s| ==> IsDigit(s[k])
  }

  /** The value of a decimal digit string, most significant digit first. */
  function DigitsValue(ds: string): nat
    requires AllDigits(ds)
    decreases |ds|
  {
    if ds == [] then 0
    else DigitsValue(ds[..|ds| - 1]) * 10 + (ds[|ds| - 1] as int - '0' as int)
  }

  /** The decimal numeral of `n`, without leading zeros. */
  function ShowNat(n: nat): (s: string)
    ensures |s| >= 1 && AllDigits(s)
    ensures DigitsValue(s) == n
    ensures s[0] != '0' || n == 0
  {
    var d := ['0' + (n % 10) as char];
    if n < 10 then d
    else
      var s := ShowNat(n / 10) + d;
      assert s[..|s| - 1] == ShowNat(n / 10);
      s
  }

  /** The decimal numeral of `n`, with a leading '-' when negative. */
  function ShowInt(n: int): (s: string)
    ensures s != [] && !IsJsWhitespace(s[0]) && !IsJsWhitespace(s[|s| - 1])
  {
    if n < 0 then "-" + ShowNat(-n) else ShowNat(n)
  }

  /** An optionally signed decimal integer literal, already trimmed. */
  function ParseLiteral(t: string): Option<int> {
    if |t| >= 2 && (t[0] == '-' || t[0] == '+') && AllDigits(t[1..]) then
      Some(if t[0] == '-' then -(DigitsValue(t[1..]) as int) else DigitsValue(t[1..]))
    else if |t| >= 1 && AllDigits(t) then Some(DigitsValue(t))
    else None
  }

  /** `Number(s)` when it is an integer, `None` when it is `NaN`: surrounding
      whitespace is ignored and a blank string is 0. */
  function ParseNumber(s: string): Option<int> {
    var t := Trim(s);
    if t == [] then Some(0) else ParseLiteral(t)
  }

  /** Parsing reads back every integer `String(n)` writes. */
  lemma ParseShowRoundTrip(n: int)
    ensures ParseNumber(ShowInt(n)) == Some(n)
  {
    var s := ShowInt(n);
    TrimUnpadded(s);
    if n < 0 {
      assert s[1..] == ShowNat(-n);
    }
  }

  /** A blank parameter coerces to 0, not to `NaN`. */
  lemma BlankIsZero(s: string)
    requires AllWhitespace(s)
    ensures ParseNumber(s) == Some(0)
  {
    BlankIffAllWhitespace(s);
  }

  /** A parameter holding a letter anywhere inside its trimmed text is
      `NaN`. */
  lemma LetterIsNaN(s: string, k: nat)
    requires k < |Trim(s)| && 'a' <= Trim(s)[k] <= 'z'
    ensures ParseNumber(s) == None
  {
    var t := Trim(s);
    if k >= 1 && |t| >= 2 && (t[0] == '-' || t[0] == '+') {
      assert t[1..][k - 1] == t[k];
    }
  }

  /** A numeral holds only digits and a sign, never a brace. */
  lemma NumeralHasNoBrace(n: int)
    ensures '{' !in ShowInt(n)
  {
    var s := ShowInt(n);
    if n < 0 {
      assert forall k :: 1 <= k < |s| ==> s[k] == ShowNat(-n)[k - 1];
    }
  }
}
