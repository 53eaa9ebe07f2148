/**
  Column-level security thresholds: `NormalizedExpr`, a literal classified by its surface
  syntax as a single-quoted string or a bare (numeric) value, with its text rendering
  (`Display`) and parsing (`FromStr`), which together are its wire form.
*/
module Cls {
  import opened Wrappers

  datatype NormalizedExprType = Numeric | String

  datatype NormalizedExpr = NormalizedExpr(value: string, dataType: NormalizedExprType)

  /** `is_string`: starts and ends with a single quote, and is longer than one character. */
  predicate IsString(expr: string) {
    |expr| > 0 && expr[0] == '\'' && expr[|expr| - 1] == '\'' && |expr| > 1
  }

  /** `Display`: a string value inside single quotes, a numeric value bare. */
  function Render(x: NormalizedExpr): string {
    match x.dataType
    case String => "'" + x.value + "'"
    case Numeric => x.value
  }

  /**
    `NormalizedExpr::new`. The source asserts the input is non-empty and panics otherwise,
    so here that is the caller's obligation.
  */
  function New(expr: string): (r: NormalizedExpr)
    requires expr != []
    // the tag is String exactly when the text is quote-wrapped
    ensures r.dataType == String <==> IsString(expr)
    // a string keeps everything between the outer quotes, inner quotes included
    ensures r.dataType == String ==> r.value == expr[1..|expr| - 1]
    // anything else is kept as written, with no check that it is a number
    ensures r.dataType == Numeric ==> r.value == expr
    // rendering gives the input back
    ensures Render(r) == expr
  {
    if IsString(expr) then
      assert expr == "'" + expr[1..|expr| - 1] + "'";
      NormalizedExpr(expr[1..|expr| - 1], String)
    else
      NormalizedExpr(expr, Numeric)
  }

  /** `FromStr`: only calls `new`, so its error branch is never taken. */
  function FromStr(s: string): (r: Result<NormalizedExpr, string>)
    requires s != []
    ensures r.Success?
    ensures r.value.dataType == String <==> IsString(s)
    ensures Render(r.value) == s
  {
    Success(New(s))
  }

  /** The values that survive a render-then-parse round trip. */
  predicate RoundTrips(x: NormalizedExpr) {
    x.dataType == String || (x.value != [] && !IsString(x.value))
  }

  /** Parsing a rendered value gives it back exactly when it round-trips. */
  lemma {:induction false} NewRender(x: NormalizedExpr)
    requires Render(x) != []
    ensures New(Render(x)) == x <==> RoundTrips(x)
  {
    var text := Render(x);
    if x.dataType == String {
      assert IsString(text);
      assert text[1..|text| - 1] == x.value;
    }
  }

  /** A numeric value that looks quoted comes back as a string: the tag is not kept. */
  lemma QuotedNumericComesBackAsString()
    ensures New(Render(NormalizedExpr("'x'", Numeric))) == NormalizedExpr("x", String)
  {
    assert IsString("'x'");
    assert "'x'"[1..2] == "x";
  }

  // ---------------------------------------------------------------------------
  // Worked examples

  lemma QuotedLiteral()
    ensures New("'abc'") == NormalizedExpr("abc", String)
    ensures Render(New("'abc'")) == "'abc'"
  {
    assert "'abc'"[1..4] == "abc";
  }

  lemma NumberLiteral()
    ensures New("42") == NormalizedExpr("42", Numeric)
    ensures Render(New("42")) == "42"
  {
  }

  /** Inner quotes are kept: only the outer pair is removed. */
  lemma InnerQuotesKept()
    ensures New("'a'b'") == NormalizedExpr("a'b", String)
  {
    assert "'a'b'"[1..4] == "a'b";
  }

  /** A lone quote is too short to be a string. */
  lemma LoneQuoteIsNumeric()
    ensures New("'") == NormalizedExpr("'", Numeric)
  {
  }

  /** No numeric syntax is checked: any unquoted text is Numeric. */
  lemma UnquotedTextIsNumeric(expr: string)
    requires expr != [] && expr[0] != '\''
    ensures New(expr) == NormalizedExpr(expr, Numeric)
  {
  }
}
