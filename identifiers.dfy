/**
  SQL multi-part identifiers (`catalog.schema.table`, `"Quoted"."Parts"`): splitting a
  string into parts with sqlparser's generic dialect, and normalising the parts' case.

  sqlparser first tokenizes the whole string (so a tokenizer error, such as an unterminated
  quote, wins over any parse error), then `parse_multipart_identifier` reads
  `Word ( '.' Word )*` up to the end. The tokenizer is modelled for the characters that
  matter in identifiers: whitespace (skipped), `.`, words, and words delimited by `"` or
  `` ` ``; any other character is a token of its own that the parser rejects.
*/
module Identifiers {
  import opened Wrappers

  /** One part of a multi-part identifier; `quote` is the delimiter it was written with. */
  datatype Ident = Ident(value: string, quote: Option<char>)

  datatype Token = Word(value: string, quote: Option<char>) | Period | Other(c: char)

  datatype ParserError =
    | UnterminatedDelimitedIdentifier(delimiter: char)
    | EmptyInput                             // "Empty input when parsing identifier"
    | TrailingPeriod                         // "Trailing period in identifier"
    | UnexpectedToken(token: Token)          // "Unexpected token in identifier"
    | UnexpectedTokenAfterPeriod(token: Token)

  // ---------------------------------------------------------------------------
  // Characters

  predicate IsWhitespace(c: char) { c == ' ' || c == '\t' || c == '\n' || c == '\r' }

  predicate IsQuote(c: char) { c == '"' || c == '`' }

  predicate IsIdentStart(c: char) { 'a' <= c <= 'z' || 'A' <= c <= 'Z' || c == '_' }

  predicate IsIdentPart(c: char) { IsIdentStart(c) || '0' <= c <= '9' || c == '$' || c == '#' || c == '@' }

  /** A bare word: what the tokenizer reads as one unquoted identifier. */
  predicate IsWord(s: string) {
    |s| > 0 && IsIdentStart(s[0]) && forall i | 0 <= i < |s| :: IsIdentPart(s[i])
  }

  /** A part that reads back as itself once rendered: a bare word, or quoted text free of its delimiter. */
  predicate Printable(id: Ident) {
    match id.quote
    case None => IsWord(id.value)
    case Some(q) => IsQuote(q) && q !in id.value
  }

  predicate WellFormedToken(t: Token) {
    t.Word? ==> Printable(Ident(t.value, t.quote))
  }

  // ---------------------------------------------------------------------------
  // Tokenizer

  /** The length of the longest prefix of `s` made of identifier characters. */
  function WordLength(s: string): (n: nat)
    ensures n <= |s|
    ensures forall i | 0 <= i < n :: IsIdentPart(s[i])
    ensures n < |s| ==> !IsIdentPart(s[n])
  {
    if s == [] || !IsIdentPart(s[0]) then 0 else 1 + WordLength(s[1..])
  }

  /** The position of the first `c` in `s`. */
  function IndexOf(s: string, c: char): (r: Option<nat>)
    ensures r.None? <==> c !in s
    ensures r.Some? ==> r.value < |s| && s[r.value] == c && c !in s[..r.value]
  {
    if s == [] then None
    else if s[0] == c then Some(0)
    else match IndexOf(s[1..], c)
      case None => None
      case Some(j) =>
        assert s[..j + 1] == [s[0]] + s[1..][..j];
        Some(j + 1)
  }

  function Tokenize(s: string): Result<seq<Token>, ParserError>
    decreases |s|
  {
    if s == [] then Success([])
    else if IsWhitespace(s[0]) then Tokenize(s[1..])
    else if s[0] == '.' then
      var rest :- Tokenize(s[1..]);
      Success([Period] + rest)
    else if IsQuote(s[0]) then
      match IndexOf(s[1..], s[0])
      case None => Failure(UnterminatedDelimitedIdentifier(s[0]))
      case Some(j) =>
        var rest :- Tokenize(s[j + 2..]);
        Success([Word(s[1..j + 1], Some(s[0]))] + rest)
    else if IsIdentStart(s[0]) then
      var n := WordLength(s);
      var rest :- Tokenize(s[n..]);
      Success([Word(s[..n], None)] + rest)
    else
      var rest :- Tokenize(s[1..]);
      Success([Other(s[0])] + rest)
  }

  /** Every word the tokenizer produces is printable. */
  lemma {:induction false} TokenizeWellFormed(s: string)
    requires Tokenize(s).Success?
    ensures forall i | 0 <= i < |Tokenize(s).value| :: WellFormedToken(Tokenize(s).value[i])
    decreases |s|
  {
    if s == [] {
    } else if IsWhitespace(s[0]) || s[0] == '.' {
      TokenizeWellFormed(s[1..]);
    } else if IsQuote(s[0]) {
      var j := IndexOf(s[1..], s[0]).value;
      TokenizeWellFormed(s[j + 2..]);
      assert s[1..j + 1] == s[1..][..j];
    } else if IsIdentStart(s[0]) {
      TokenizeWellFormed(s[WordLength(s)..]);
    } else {
      TokenizeWellFormed(s[1..]);
    }
  }

  // ---------------------------------------------------------------------------
  // Parser

  /** `Word ( '.' Word )*` followed by the end of the input. */
  function ParseMultipart(ts: seq<Token>): (r: Result<seq<Ident>, ParserError>)
    ensures r.Success? ==> |r.value| >= 1
    ensures r.Success? && (forall i | 0 <= i < |ts| :: WellFormedToken(ts[i])) ==>
      forall i | 0 <= i < |r.value| :: Printable(r.value[i])
  {
    if ts == [] then Failure(EmptyInput)
    else match ts[0]
      case Word(v, q) =>
        assert forall i | 0 <= i < |ts[1..]| :: ts[1..][i] == ts[i + 1];
        var tail :- ParseTail(ts[1..]);
        Success([Ident(v, q)] + tail)
      case _ => Failure(UnexpectedToken(ts[0]))
  }

  /** The optional `'.' Word` repetitions after the first part. */
  function ParseTail(ts: seq<Token>): (r: Result<seq<Ident>, ParserError>)
    ensures r.Success? && (forall i | 0 <= i < |ts| :: WellFormedToken(ts[i])) ==>
      forall i | 0 <= i < |r.value| :: Printable(r.value[i])
  {
    if ts == [] then Success([])
    else if ts[0] != Period then Failure(UnexpectedToken(ts[0]))
    else if |ts| == 1 then Failure(TrailingPeriod)
    else match ts[1]
      case Word(v, q) =>
        assert forall i | 0 <= i < |ts[2..]| :: ts[2..][i] == ts[i + 2];
        var tail :- ParseTail(ts[2..]);
        Success([Ident(v, q)] + tail)
      case _ => Failure(UnexpectedTokenAfterPeriod(ts[1]))
  }

  /** `parse_identifiers`: the parts of a multi-part identifier, each with its quoting. */
  function ParseIdentifiers(s: string): (r: Result<seq<Ident>, ParserError>)
    ensures r.Success? ==> |r.value| >= 1
    ensures r.Success? ==> forall i | 0 <= i < |r.value| :: Printable(r.value[i])
  {
    var tokens :- Tokenize(s);
    TokenizeWellFormed(s);
    ParseMultipart(tokens)
  }

  // ---------------------------------------------------------------------------
  // Normalisation

  function LowerChar(c: char): char {
    if 'A' <= c <= 'Z' then (c as int - 'A' as int + 'a' as int) as char else c
  }

  /** `to_ascii_lowercase`: A-Z become a-z, every other character is kept. */
  function LowerAscii(s: string): (r: string)
    ensures |r| == |s|
    ensures forall i | 0 <= i < |s| :: r[i] == LowerChar(s[i])
  {
    if s == [] then [] else [LowerChar(s[0])] + LowerAscii(s[1..])
  }

  /** One part as `parse_identifiers_normalized` returns it. */
  function NormalizePart(id: Ident, ignoreCase: bool): string {
    match id.quote
    case Some(_) => id.value
    case None => if ignoreCase then id.value else LowerAscii(id.value)
  }

  /** `parse_identifiers_normalized`. */
  function ParseIdentifiersNormalized(s: string, ignoreCase: bool): (r: Result<seq<string>, ParserError>)
    // a parse error is passed on as it is, with no partial result
    ensures ParseIdentifiers(s).Failure? ==> r == Failure(ParseIdentifiers(s).error)
    // one part out per part parsed, in the same order
    ensures ParseIdentifiers(s).Success? ==> r.Success? && |r.value| == |ParseIdentifiers(s).value|
    // quoted parts verbatim whatever `ignoreCase` says
    ensures r.Success? ==> forall i | 0 <= i < |r.value| && ParseIdentifiers(s).value[i].quote.Some? ::
      r.value[i] == ParseIdentifiers(s).value[i].value
    // with `ignoreCase` nothing is changed
    ensures r.Success? && ignoreCase ==> forall i | 0 <= i < |r.value| :: r.value[i] == ParseIdentifiers(s).value[i].value
    // without it, unquoted parts are lower-cased
    ensures r.Success? && !ignoreCase ==> forall i | 0 <= i < |r.value| && ParseIdentifiers(s).value[i].quote.None? ::
      r.value[i] == LowerAscii(ParseIdentifiers(s).value[i].value)
  {
    var ids :- ParseIdentifiers(s);
    Success(seq(|ids|, i requires 0 <= i < |ids| => NormalizePart(ids[i], ignoreCase)))
  }

  // ---------------------------------------------------------------------------
  // Rendering: the inverse of parsing

  /** `Ident`'s display form: the value, inside its delimiters when it has them. */
  function RenderIdent(id: Ident): string {
    match id.quote
    case None => id.value
    case Some(q) => [q] + id.value + [q]
  }

  /** `[..].join(".")`. */
  function JoinDots(parts: seq<string>): string {
    if |parts| == 0 then ""
    else if |parts| == 1 then parts[0]
    else parts[0] + "." + JoinDots(parts[1..])
  }

  function Rendered(ids: seq<Ident>): (r: seq<string>)
    ensures |r| == |ids|
    ensures forall i | 0 <= i < |ids| :: r[i] == RenderIdent(ids[i])
  {
    seq(|ids|, i requires 0 <= i < |ids| => RenderIdent(ids[i]))
  }

  /** A multi-part identifier's display form. */
  function RenderIdents(ids: seq<Ident>): string {
    JoinDots(Rendered(ids))
  }

  /** Unquoted parts with the given values. */
  function Bare(parts: seq<string>): (r: seq<Ident>)
    ensures |r| == |parts|
    ensures forall i | 0 <= i < |parts| :: r[i] == Ident(parts[i], None)
  {
    seq(|parts|, i requires 0 <= i < |parts| => Ident(parts[i], None))
  }

  function WordOf(id: Ident): Token {
    Word(id.value, id.quote)
  }

  /** The tokens of a rendered identifier: its words separated by periods. */
  function TokensOf(ids: seq<Ident>): seq<Token>
    requires |ids| >= 1
  {
    if |ids| == 1 then [WordOf(ids[0])] else [WordOf(ids[0]), Period] + TokensOf(ids[1..])
  }

  lemma {:induction false} WordLengthOfWord(v: string, rest: string)
    requires forall i | 0 <= i < |v| :: IsIdentPart(v[i])
    requires rest == [] || !IsIdentPart(rest[0])
    ensures WordLength(v + rest) == |v|
  {
    if v == [] {
      assert v + rest == rest;
    } else {
      assert (v + rest)[1..] == v[1..] + rest;
      WordLengthOfWord(v[1..], rest);
    }
  }

  lemma {:induction false} IndexOfAfter(v: string, c: char, rest: string)
    requires c !in v
    ensures IndexOf(v + [c] + rest, c) == Some(|v|)
  {
    if v == [] {
      assert (v + [c] + rest)[0] == c;
    } else {
      assert (v + [c] + rest)[1..] == v[1..] + [c] + rest;
      IndexOfAfter(v[1..], c, rest);
    }
  }

  /** A bare word followed by a period or the end tokenizes to that word first. */
  lemma {:induction false} TokenizeBareWord(v: string, rest: string)
    requires IsWord(v)
    requires rest == [] || rest[0] == '.'
    requires Tokenize(rest).Success?
    ensures Tokenize(v + rest) == Success([Word(v, None)] + Tokenize(rest).value)
  {
    var s := v + rest;
    WordLengthOfWord(v, rest);
    assert s[0] == v[0];
    assert s[..|v|] == v;
    assert s[|v|..] == rest;
  }

  /** A delimited word followed by a period or the end tokenizes to that word first. */
  lemma {:induction false} TokenizeQuotedWord(v: string, q: char, rest: string)
    requires IsQuote(q) && q !in v
    requires rest == [] || rest[0] == '.'
    requires Tokenize(rest).Success?
    ensures Tokenize([q] + v + [q] + rest) == Success([Word(v, Some(q))] + Tokenize(rest).value)
  {
    var s := [q] + v + [q] + rest;
    assert s[0] == q;
    assert s[1..] == v + [q] + rest;
    IndexOfAfter(v, q, rest);
    assert s[1..|v| + 1] == v;
    assert s[|v| + 2..] == rest;
  }

  /** A printable part followed by a period or the end tokenizes to its word first. */
  lemma {:induction false} TokenizeRenderedPart(id: Ident, rest: string)
    requires Printable(id)
    requires rest == [] || rest[0] == '.'
    requires Tokenize(rest).Success?
    ensures Tokenize(RenderIdent(id) + rest) == Success([WordOf(id)] + Tokenize(rest).value)
  {
    match id.quote
    case None => TokenizeBareWord(id.value, rest);
    case Some(q) => TokenizeQuotedWord(id.value, q, rest);
  }

  lemma {:induction false} TokenizePeriod(rest: string)
    requires Tokenize(rest).Success?
    ensures Tokenize("." + rest) == Success([Period] + Tokenize(rest).value)
  {
    assert ("." + rest)[1..] == rest;
  }

  lemma {:induction false} RenderIdentsCons(ids: seq<Ident>)
    requires |ids| >= 2
    ensures RenderIdents(ids) == RenderIdent(ids[0]) + ("." + RenderIdents(ids[1..]))
  {
    assert Rendered(ids)[1..] == Rendered(ids[1..]);
  }

  lemma {:induction false} TokenizeRendered(ids: seq<Ident>)
    requires |ids| >= 1
    requires forall i | 0 <= i < |ids| :: Printable(ids[i])
    ensures Tokenize(RenderIdents(ids)) == Success(TokensOf(ids))
  {
    if |ids| == 1 {
      var part := RenderIdent(ids[0]);
      assert RenderIdents(ids) == part + "";
      TokenizeRenderedPart(ids[0], "");
      assert [WordOf(ids[0])] + [] == [WordOf(ids[0])];
    } else {
      var tail := RenderIdents(ids[1..]);
      TokenizeRendered(ids[1..]);
      var dotted := "." + tail;
      TokenizePeriod(tail);
      var rest := TokensOf(ids[1..]);
      assert Tokenize(dotted) == Success([Period] + rest);
      TokenizeRenderedPart(ids[0], dotted);
      RenderIdentsCons(ids);
      assert [WordOf(ids[0])] + ([Period] + rest) == [WordOf(ids[0]), Period] + rest;
    }
  }

  lemma {:induction false} ParseTailOfTokens(ids: seq<Ident>)
    requires |ids| >= 1
    ensures ParseTail(TokensOf(ids)[1..]) == Success(ids[1..])
  {
    if |ids| > 1 {
      var ts := TokensOf(ids)[1..];
      assert ts == [Period] + TokensOf(ids[1..]);
      assert ts[1] == WordOf(ids[1]);
      assert ts[2..] == TokensOf(ids[1..])[1..];
      ParseTailOfTokens(ids[1..]);
      assert ParseTail(ts) == Success([Ident(ids[1].value, ids[1].quote)] + ids[2..]);
      assert ids[1..] == [ids[1]] + ids[2..];
    } else {
      assert TokensOf(ids)[1..] == [];
      assert ids[1..] == [];
    }
  }

  /** Parsing the display form of printable parts gives the parts back. */
  lemma {:induction false} ParseRendered(ids: seq<Ident>)
    requires |ids| >= 1
    requires forall i | 0 <= i < |ids| :: Printable(ids[i])
    ensures ParseIdentifiers(RenderIdents(ids)) == Success(ids)
  {
    TokenizeRendered(ids);
    ParseTailOfTokens(ids);
    assert ids == [ids[0]] + ids[1..];
  }

  /** Parsing is stable: re-parsing the display form of a parse gives the same parse. */
  lemma {:induction false} ParseRenderParse(s: string)
    requires ParseIdentifiers(s).Success?
    ensures ParseIdentifiers(RenderIdents(ParseIdentifiers(s).value)) == ParseIdentifiers(s)
  {
    ParseRendered(ParseIdentifiers(s).value);
  }

  /** Dotted bare words parse to unquoted parts with the same values. */
  lemma {:induction false} ParseDottedWords(parts: seq<string>)
    requires |parts| >= 1
    requires forall i | 0 <= i < |parts| :: IsWord(parts[i])
    ensures ParseIdentifiers(JoinDots(parts)) == Success(Bare(parts))
  {
    assert Rendered(Bare(parts)) == parts;
    ParseRendered(Bare(parts));
  }

  lemma {:induction false} LowerAsciiKeepsWords(v: string)
    requires IsWord(v)
    ensures IsWord(LowerAscii(v))
  {
  }

  /** `lowered` is what lower-casing `s` gives, character by character. */
  lemma LowerAsciiOf(s: string, lowered: string)
    requires |lowered| == |s|
    requires forall i | 0 <= i < |s| :: lowered[i] == LowerChar(s[i])
    ensures LowerAscii(s) == lowered
  {
  }

  lemma {:induction false} LowerAsciiIdempotent(v: string)
    ensures LowerAscii(LowerAscii(v)) == LowerAscii(v)
    ensures forall i | 0 <= i < |v| :: !('A' <= LowerAscii(v)[i] <= 'Z')
  {
  }

  /** The parts with normalised values and their quoting kept. */
  function NormalizedIdents(ids: seq<Ident>, ignoreCase: bool): (r: seq<Ident>)
    ensures |r| == |ids|
  {
    seq(|ids|, i requires 0 <= i < |ids| => Ident(NormalizePart(ids[i], ignoreCase), ids[i].quote))
  }

  /**
    Normalising twice is normalising once: rendering the normalised parts (with their
    quoting) and normalising that string again gives the same parts.
  */
  lemma {:induction false} NormalizeIdempotent(s: string, ignoreCase: bool)
    requires ParseIdentifiers(s).Success?
    ensures ParseIdentifiersNormalized(RenderIdents(NormalizedIdents(ParseIdentifiers(s).value, ignoreCase)), ignoreCase)
         == ParseIdentifiersNormalized(s, ignoreCase)
  {
    var ids := ParseIdentifiers(s).value;
    var normalized := NormalizedIdents(ids, ignoreCase);
    forall i | 0 <= i < |normalized| ensures Printable(normalized[i]) {
      if ids[i].quote.None? && !ignoreCase {
        LowerAsciiKeepsWords(ids[i].value);
      }
    }
    ParseRendered(normalized);
    var once := ParseIdentifiersNormalized(s, ignoreCase);
    var twice := ParseIdentifiersNormalized(RenderIdents(normalized), ignoreCase);
    assert |twice.value| == |once.value|;
    forall i | 0 <= i < |once.value| ensures twice.value[i] == once.value[i] {
      assert twice.value[i] == NormalizePart(normalized[i], ignoreCase);
      LowerAsciiIdempotent(ids[i].value);
    }
    assert twice.value == once.value;
  }

  /** The unquoted parts of a case-folding normalisation hold no upper-case ASCII letter. */
  lemma {:induction false} NormalizedUnquotedAreLower(s: string, i: nat, k: nat)
    requires ParseIdentifiers(s).Success? && i < |ParseIdentifiers(s).value|
    requires ParseIdentifiers(s).value[i].quote.None?
    requires k < |ParseIdentifiersNormalized(s, false).value[i]|
    ensures !('A' <= ParseIdentifiersNormalized(s, false).value[i][k] <= 'Z')
  {
    LowerAsciiIdempotent(ParseIdentifiers(s).value[i].value);
  }

  /** `parse_identifiers` never yields an empty list: empty input is an error. */
  lemma {:induction false} EmptyStringIsAnError()
    ensures ParseIdentifiers("") == Failure(EmptyInput)
  {
  }

  /** An opening delimiter that is never closed is a tokenizer error, reported before any parsing. */
  lemma {:induction false} UnterminatedQuoteIsAnError(v: string)
    requires '"' !in v
    ensures ParseIdentifiers("\"" + v) == Failure(UnterminatedDelimitedIdentifier('"'))
  {
    var s := "\"" + v;
    assert s[0] == '"' && s[1..] == v;
    assert Tokenize(s) == Failure(UnterminatedDelimitedIdentifier('"'));
  }

  /** A word followed by a period and nothing else is the trailing-period error. */
  lemma {:induction false} TrailingPeriodIsAnError(w: string)
    requires IsWord(w)
    ensures ParseIdentifiers(w + ".") == Failure(TrailingPeriod)
  {
    assert Tokenize("") == Success([]);
    TokenizePeriod("");
    assert "." + "" == "." && [Period] + [] == [Period];
    assert Tokenize(".") == Success([Period]);
    TokenizeBareWord(w, ".");
    assert [Word(w, None)] + [Period] == [Word(w, None), Period];
    assert ParseTail([Period]) == Failure(TrailingPeriod);
  }

  // ---------------------------------------------------------------------------
  // The worked examples of src/mdl/utils.rs, for any part values

  lemma {:induction false} JoinThree(parts: seq<string>)
    requires |parts| == 3
    ensures JoinDots(parts) == parts[0] + "." + parts[1] + "." + parts[2]
  {
    assert parts[1..][1..] == [parts[2]];
    assert JoinDots(parts[1..]) == parts[1] + "." + parts[2];
  }

  /** `"Catalog"."Schema"."Table"`: three quoted parts, case kept even when folding. */
  lemma {:induction false} QuotedPartsKeepTheirCase(a: string, b: string, c: string)
    requires '"' !in a && '"' !in b && '"' !in c
    ensures ParseIdentifiers("\"" + a + "\".\"" + b + "\".\"" + c + "\"")
         == Success([Ident(a, Some('"')), Ident(b, Some('"')), Ident(c, Some('"'))])
    ensures ParseIdentifiersNormalized("\"" + a + "\".\"" + b + "\".\"" + c + "\"", false) == Success([a, b, c])
  {
    var ids := [Ident(a, Some('"')), Ident(b, Some('"')), Ident(c, Some('"'))];
    var r := Rendered(ids);
    JoinThree(r);
    assert RenderIdents(ids) == "\"" + a + "\".\"" + b + "\".\"" + c + "\"";
    ParseRendered(ids);
    var normalized := ParseIdentifiersNormalized(RenderIdents(ids), false).value;
    assert normalized == [a, b, c];
  }

  /** `Catalog.Schema.Table`: three bare parts, ASCII lower-cased by the normalisation. */
  lemma {:induction false} UnquotedPartsAreLowerCased(a: string, b: string, c: string)
    requires IsWord(a) && IsWord(b) && IsWord(c)
    ensures ParseIdentifiers(a + "." + b + "." + c) == Success([Ident(a, None), Ident(b, None), Ident(c, None)])
    ensures ParseIdentifiersNormalized(a + "." + b + "." + c, false) == Success([LowerAscii(a), LowerAscii(b), LowerAscii(c)])
  {
    var parts := [a, b, c];
    JoinThree(parts);
    ParseDottedWords(parts);
    assert Bare(parts) == [Ident(a, None), Ident(b, None), Ident(c, None)];
    var normalized := ParseIdentifiersNormalized(JoinDots(parts), false).value;
    assert normalized == [LowerAscii(a), LowerAscii(b), LowerAscii(c)];
  }

  /** `"MyTable"`: a single quoted part. */
  lemma {:induction false} SingleQuotedPart(a: string)
    requires '"' !in a
    ensures ParseIdentifiers("\"" + a + "\"") == Success([Ident(a, Some('"'))])
  {
    var ids := [Ident(a, Some('"'))];
    assert RenderIdents(ids) == "\"" + a + "\"";
    ParseRendered(ids);
  }
}
