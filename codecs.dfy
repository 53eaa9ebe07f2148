/**
  The two field codecs shared by the manifest records: the legacy boolean (a JSON bool or a
  non-negative integer in, always a bool out) and the table reference (a structured
  `{catalog, schema, table}` object on the wire, one dotted string in memory).
*/
module Codecs {
  import opened Wrappers
  import opened Json
  import opened Identifiers

  // ---------------------------------------------------------------------------
  // bool_from_int

  function DecodeLegacyBool(v: JsonValue): (r: Result<bool, DecodeError>)
    ensures v.Bool? ==> r == Success(v.b)
    ensures v.UInt? ==> r == Success(v.n != 0)
    ensures !v.Bool? && !v.UInt? ==> r == Failure(InvalidBoolean)
  {
    match v
    case Bool(b) => Success(b)
    case UInt(n) => Success(n != 0)
    case _ => Failure(InvalidBoolean)
  }

  /** Always the native boolean: the integer form is never written back. */
  function EncodeLegacyBool(b: bool): (v: JsonValue)
    ensures v.Bool?
  {
    Bool(b)
  }

  lemma LegacyBoolRoundTrip(b: bool)
    ensures DecodeLegacyBool(EncodeLegacyBool(b)) == Success(b)
  {
  }

  /** Re-encoding a decoded value reproduces it only when it was already a boolean. */
  lemma LegacyBoolReencode(v: JsonValue)
    requires DecodeLegacyBool(v).Success?
    ensures EncodeLegacyBool(DecodeLegacyBool(v).value) == v <==> v.Bool?
  {
  }

  lemma LegacyBoolExamples()
    ensures DecodeLegacyBool(Bool(true)) == Success(true)
    ensures DecodeLegacyBool(Bool(false)) == Success(false)
    ensures DecodeLegacyBool(UInt(0)) == Success(false)
    ensures DecodeLegacyBool(UInt(1)) == Success(true)
    ensures DecodeLegacyBool(UInt(2)) == Success(true)
    ensures DecodeLegacyBool(Str("1")) == Failure(InvalidBoolean)
    ensures DecodeLegacyBool(NegInt(-1)) == Failure(InvalidBoolean)
    ensures DecodeLegacyBool(Float("1.5")) == Failure(InvalidBoolean)
    ensures DecodeLegacyBool(Null) == Failure(InvalidBoolean)
  {
  }

  // ---------------------------------------------------------------------------
  // table_reference

  datatype TableReference = TableReference(catalog: Option<string>, schema: Option<string>, table: Option<string>)

  const TableReferenceFields: seq<string> := ["catalog", "schema", "table"]

  lemma TableReferenceFieldsDistinct()
    ensures Distinct(TableReferenceFields)
  {
    ApartNamesAreDistinct(TableReferenceFields);
  }

  /** The derived `Deserialize` of the struct: three optional strings, each defaulting to `None`. */
  function DecodeTableReferenceStruct(v: JsonValue): Result<TableReference, DecodeError> {
    var ms :- AsObject(v, "TableReference");
    var catalog :- WithDefault(ms, "catalog", DecodeOptionalString, None);
    var schema :- WithDefault(ms, "schema", DecodeOptionalString, None);
    var table :- WithDefault(ms, "table", DecodeOptionalString, None);
    Success(TableReference(catalog, schema, table))
  }

  /** The derived `Serialize`: all three members, `None` written as null. */
  function EncodeTableReferenceStruct(t: TableReference): JsonValue {
    Obj(Members(TableReferenceFields,
      [EncodeOptionalString(t.catalog), EncodeOptionalString(t.schema), EncodeOptionalString(t.table)]))
  }

  /** A field that counts as a part: present and non-empty. */
  function Part(field: Option<string>): seq<string> {
    if field.Some? && field.value != [] then [field.value] else []
  }

  /** The present, non-empty strings among `fields`, in order. */
  function NonEmpty(fields: seq<Option<string>>): (r: seq<string>)
    ensures forall i | 0 <= i < |r| :: r[i] != []
  {
    if fields == [] then [] else Part(fields[0]) + NonEmpty(fields[1..])
  }

  function PresentParts(t: TableReference): seq<string> {
    NonEmpty([t.catalog, t.schema, t.table])
  }

  lemma PresentPartsSplit(t: TableReference)
    ensures PresentParts(t) == Part(t.catalog) + Part(t.schema) + Part(t.table)
  {
    var fields := [t.catalog, t.schema, t.table];
    assert fields[1..] == [t.schema, t.table];
    assert fields[1..][1..] == [t.table];
    assert fields[1..][1..][1..] == [];
    assert NonEmpty([t.table]) == Part(t.table) + NonEmpty([]);
    assert NonEmpty([t.schema, t.table]) == Part(t.schema) + Part(t.table);
    assert NonEmpty(fields) == Part(t.catalog) + (Part(t.schema) + Part(t.table));
  }

  lemma {:induction false} JoinDotsOfNonEmpty(parts: seq<string>)
    requires forall i | 0 <= i < |parts| :: parts[i] != []
    ensures JoinDots(parts) == [] <==> parts == []
  {
    if |parts| > 1 {
      assert (parts[0] + "." + JoinDots(parts[1..]))[|parts[0]|] == '.';
    }
  }

  /**
    The in-memory string a structured reference stands for: its present, non-empty fields
    joined with `.`, and `None` rather than an empty string when nothing is left.
  */
  function Flatten(t: TableReference): (r: Option<string>)
    ensures r.Some? <==> PresentParts(t) != []
    ensures r.Some? ==> r.value == JoinDots(PresentParts(t)) && r.value != []
  {
    JoinDotsOfNonEmpty(PresentParts(t));
    var joined := JoinDots(PresentParts(t));
    if joined == [] then None else Some(joined)
  }

  /** `table_reference::deserialize`: null is `None`, an object is flattened. */
  function DecodeTableRef(v: JsonValue): (r: Result<Option<string>, DecodeError>)
    ensures v.Null? ==> r == Success(None)
    // any other value is read as the structure and flattened
    ensures !v.Null? && DecodeTableReferenceStruct(v).Success? ==> r == Success(Flatten(DecodeTableReferenceStruct(v).value))
    // and a value that is not a valid structure is an error
    ensures !v.Null? && DecodeTableReferenceStruct(v).Failure? ==> r == Failure(DecodeTableReferenceStruct(v).error)
    ensures r.Success? && r.value.Some? ==> r.value.value != []
  {
    if v.Null? then Success(None)
    else
      var t :- DecodeTableReferenceStruct(v);
      Success(Flatten(t))
  }

  datatype EncodeError =
    | TableReferenceParse(tableRef: string, cause: ParserError)   // "Failed to parse table reference: …"
    | TableReferenceTooLong(tableRef: string)                     // "Invalid table reference: …"

  /** Parts assigned from the right: the last is the table, the one before the schema, then the catalog. */
  function AssignFromRight(parts: seq<string>): (t: TableReference)
    requires |parts| <= 3
    ensures t.table == if |parts| >= 1 then Some(parts[|parts| - 1]) else None
    ensures t.schema == if |parts| >= 2 then Some(parts[|parts| - 2]) else None
    ensures t.catalog == if |parts| == 3 then Some(parts[0]) else None
  {
    if |parts| == 3 then TableReference(Some(parts[0]), Some(parts[1]), Some(parts[2]))
    else if |parts| == 2 then TableReference(None, Some(parts[0]), Some(parts[1]))
    else if |parts| == 1 then TableReference(None, None, Some(parts[0]))
    else TableReference(None, None, None)
  }

  /** `table_reference::serialize`. */
  function EncodeTableRef(tableRef: Option<string>): (r: Result<JsonValue, EncodeError>)
    ensures tableRef.None? ==> r == Success(Null)
    // a parse error is reported as such
    ensures tableRef.Some? && ParseIdentifiers(tableRef.value).Failure? ==>
      r == Failure(TableReferenceParse(tableRef.value, ParseIdentifiers(tableRef.value).error))
    // so is a reference of more than three parts
    ensures tableRef.Some? && ParseIdentifiers(tableRef.value).Success? && |ParseIdentifiers(tableRef.value).value| > 3 ==>
      r == Failure(TableReferenceTooLong(tableRef.value))
    // otherwise the case-normalised parts are assigned from the right
    ensures tableRef.Some? && ParseIdentifiers(tableRef.value).Success? && |ParseIdentifiers(tableRef.value).value| <= 3 ==>
      r.Success? &&
      var parts := ParseIdentifiersNormalized(tableRef.value, false).value;
      1 <= |parts| <= 3 && r.value == EncodeTableReferenceStruct(AssignFromRight(parts))
  {
    match tableRef
    case None => Success(Null)
    case Some(s) =>
      match ParseIdentifiersNormalized(s, false)
      case Failure(e) => Failure(TableReferenceParse(s, e))
      case Success(parts) =>
        if |parts| > 3 then Failure(TableReferenceTooLong(s))
        else Success(EncodeTableReferenceStruct(AssignFromRight(parts)))
  }

  // ---------------------------------------------------------------------------
  // Round trips

  lemma OptionalStringRoundTrip(o: Option<string>)
    ensures DecodeOptionalString(EncodeOptionalString(o)) == Success(o)
  {
  }

  lemma {:induction false} TableReferenceStructRoundTrip(t: TableReference)
    ensures DecodeTableReferenceStruct(EncodeTableReferenceStruct(t)) == Success(t)
  {
    var values := [EncodeOptionalString(t.catalog), EncodeOptionalString(t.schema), EncodeOptionalString(t.table)];
    TableReferenceFieldsDistinct();
    FieldOfMembers(TableReferenceFields, values, 0);
    FieldOfMembers(TableReferenceFields, values, 1);
    FieldOfMembers(TableReferenceFields, values, 2);
    OptionalStringRoundTrip(t.catalog);
    OptionalStringRoundTrip(t.schema);
    OptionalStringRoundTrip(t.table);
  }

  /** Right-assigned non-empty parts are read back in their order. */
  lemma {:induction false} PresentPartsOfAssigned(parts: seq<string>)
    requires |parts| <= 3
    requires forall i | 0 <= i < |parts| :: parts[i] != []
    ensures PresentParts(AssignFromRight(parts)) == parts
  {
    PresentPartsSplit(AssignFromRight(parts));
    if |parts| == 3 {
      assert parts == [parts[0]] + [parts[1]] + [parts[2]];
    } else if |parts| == 2 {
      assert parts == [parts[0]] + [parts[1]];
    }
  }

  /**
    A reference in canonical form: it normalises to one to three non-empty parts that,
    joined with `.`, give the reference itself back.
  */
  predicate Canonical(tableRef: string) {
    var parts := ParseIdentifiersNormalized(tableRef, false);
    parts.Success? && 1 <= |parts.value| <= 3
    && (forall i | 0 <= i < |parts.value| :: parts.value[i] != [])
    && JoinDots(parts.value) == tableRef
  }

  /** A canonical reference survives encoding and decoding unchanged. */
  lemma {:induction false} CanonicalRoundTrip(tableRef: string)
    requires Canonical(tableRef)
    ensures EncodeTableRef(Some(tableRef)).Success?
    ensures DecodeTableRef(EncodeTableRef(Some(tableRef)).value) == Success(Some(tableRef))
  {
    var parts := ParseIdentifiersNormalized(tableRef, false).value;
    var t := AssignFromRight(parts);
    TableReferenceStructRoundTrip(t);
    PresentPartsOfAssigned(parts);
  }

  /** One to three lower-case bare words, dotted, are canonical. */
  lemma {:induction false} LowerWordsAreCanonical(parts: seq<string>)
    requires 1 <= |parts| <= 3
    requires forall i | 0 <= i < |parts| :: IsWord(parts[i]) && LowerAscii(parts[i]) == parts[i]
    ensures Canonical(JoinDots(parts))
  {
    ParseDottedWords(parts);
    var normalized := ParseIdentifiersNormalized(JoinDots(parts), false).value;
    assert normalized == parts;
  }

  /** Encoding a dotted run of bare words: each is lower-cased, and they are assigned from the right. */
  lemma {:induction false} EncodeDottedWords(parts: seq<string>)
    requires 1 <= |parts| <= 3
    requires forall i | 0 <= i < |parts| :: IsWord(parts[i])
    ensures EncodeTableRef(Some(JoinDots(parts))) ==
      Success(EncodeTableReferenceStruct(AssignFromRight(seq(|parts|, i requires 0 <= i < |parts| => LowerAscii(parts[i])))))
  {
    ParseDottedWords(parts);
    var normalized := ParseIdentifiersNormalized(JoinDots(parts), false).value;
    assert normalized == seq(|parts|, i requires 0 <= i < |parts| => LowerAscii(parts[i]));
  }

  /** More than three parts cannot be encoded. */
  lemma {:induction false} FourWordsAreTooLong(parts: seq<string>)
    requires |parts| == 4
    requires forall i | 0 <= i < |parts| :: IsWord(parts[i])
    ensures EncodeTableRef(Some(JoinDots(parts))) == Failure(TableReferenceTooLong(JoinDots(parts)))
  {
    ParseDottedWords(parts);
  }

  /** The parser never yields zero parts, so an encoded reference always names its table. */
  lemma EncodedReferenceHasTable(tableRef: string)
    requires EncodeTableRef(Some(tableRef)).Success?
    ensures EncodeTableRef(Some(tableRef)).value != EncodeTableReferenceStruct(TableReference(None, None, None))
  {
    var parts := ParseIdentifiersNormalized(tableRef, false).value;
    TableReferenceStructRoundTrip(AssignFromRight(parts));
    TableReferenceStructRoundTrip(TableReference(None, None, None));
  }

  /**
    Decoding a structure of bare words and encoding it again: the words are lower-cased and
    re-assigned from the right, so a missing schema moves the catalog into the schema slot.
  */
  lemma {:induction false} DecodeThenEncodeWords(t: TableReference)
    requires t.catalog.Some? ==> IsWord(t.catalog.value)
    requires t.schema.Some? ==> IsWord(t.schema.value)
    requires t.table.Some? ==> IsWord(t.table.value)
    requires t != TableReference(None, None, None)
    ensures DecodeTableRef(EncodeTableReferenceStruct(t)).Success?
    ensures var parts := PresentParts(t);
      1 <= |parts| <= 3 &&
      EncodeTableRef(DecodeTableRef(EncodeTableReferenceStruct(t)).value) ==
        Success(EncodeTableReferenceStruct(AssignFromRight(seq(|parts|, i requires 0 <= i < |parts| => LowerAscii(parts[i])))))
  {
    TableReferenceStructRoundTrip(t);
    var parts := PresentParts(t);
    PresentPartsSplit(t);
    assert forall p | p in parts :: IsWord(p);
    assert parts != [];
    EncodeDottedWords(parts);
  }

  /** `{"catalog":"C","schema":"S","table":"T"}` comes back lower-cased. */
  lemma {:induction false} FullReferenceComesBackLowerCased(c: string, s: string, t: string)
    requires IsWord(c) && IsWord(s) && IsWord(t)
    ensures DecodeTableRef(EncodeTableReferenceStruct(TableReference(Some(c), Some(s), Some(t)))).Success?
    ensures EncodeTableRef(DecodeTableRef(EncodeTableReferenceStruct(TableReference(Some(c), Some(s), Some(t)))).value)
         == Success(EncodeTableReferenceStruct(TableReference(Some(LowerAscii(c)), Some(LowerAscii(s)), Some(LowerAscii(t)))))
  {
    FullReferenceDecodesDotted(c, s, t);
    EncodeDottedWords([c, s, t]);
    var lowered := seq(3, i requires 0 <= i < 3 => LowerAscii([c, s, t][i]));
    assert lowered == [LowerAscii(c), LowerAscii(s), LowerAscii(t)];
  }

  lemma FullReferenceDecodesDotted(c: string, s: string, t: string)
    requires c != [] && s != [] && t != []
    ensures DecodeTableRef(EncodeTableReferenceStruct(TableReference(Some(c), Some(s), Some(t)))) == Success(Some(JoinDots([c, s, t])))
  {
    TableReferenceStructRoundTrip(TableReference(Some(c), Some(s), Some(t)));
    PresentPartsOfAssigned([c, s, t]);
  }

  /** `{"table":"T"}` comes back as `{"catalog":null,"schema":null,"table":"t"}`. */
  lemma {:induction false} TableOnlyComesBackLowerCased(t: string)
    requires IsWord(t)
    ensures DecodeTableRef(EncodeTableReferenceStruct(TableReference(None, None, Some(t)))).Success?
    ensures EncodeTableRef(DecodeTableRef(EncodeTableReferenceStruct(TableReference(None, None, Some(t)))).value)
         == Success(EncodeTableReferenceStruct(TableReference(None, None, Some(LowerAscii(t)))))
  {
    var r := TableReference(None, None, Some(t));
    DecodeThenEncodeWords(r);
    PresentPartsSplit(r);
    var parts := PresentParts(r);
    assert parts == [t];
    var lowered := seq(|parts|, i requires 0 <= i < |parts| => LowerAscii(parts[i]));
    assert lowered == [LowerAscii(t)];
  }

  /** `{"catalog":"","table":"t"}`: an empty field is no part, and a missing one defaults to `None`. */
  lemma {:induction false} EmptyCatalogIsSkipped(t: string)
    requires t != []
    ensures DecodeTableRef(Obj([Member("catalog", Str("")), Member("table", Str(t))])) == Success(Some(t))
  {
    var ms := [Member("catalog", Str("")), Member("table", Str(t))];
    FieldFound(ms, "catalog", 0);
    FieldMissing(ms, "schema");
    FieldFound(ms, "table", 1);
    var ref := TableReference(Some(""), None, Some(t));
    assert DecodeTableReferenceStruct(Obj(ms)) == Success(ref);
    PresentPartsSplit(ref);
    assert PresentParts(ref) == [t];
  }

  /** `{"catalog":"c","table":"t"}`: without a schema the catalog is joined straight to the table. */
  lemma {:induction false} CatalogWithoutSchemaIsJoined(c: string, t: string)
    requires c != [] && t != []
    ensures DecodeTableRef(Obj([Member("catalog", Str(c)), Member("table", Str(t))])) == Success(Some(c + "." + t))
  {
    var ms := [Member("catalog", Str(c)), Member("table", Str(t))];
    FieldFound(ms, "catalog", 0);
    FieldMissing(ms, "schema");
    FieldFound(ms, "table", 1);
    var ref := TableReference(Some(c), None, Some(t));
    assert DecodeTableReferenceStruct(Obj(ms)) == Success(ref);
    PresentPartsSplit(ref);
    assert PresentParts(ref) == [c, t];
    assert [c, t][1..] == [t];
    assert JoinDots([c, t]) == c + "." + t;
  }

  /** An opening quote that is never closed cannot be encoded: the parse error is reported. */
  lemma UnterminatedQuoteCannotBeEncoded(v: string)
    requires '"' !in v
    ensures EncodeTableRef(Some("\"" + v)) == Failure(TableReferenceParse("\"" + v, UnterminatedDelimitedIdentifier('"')))
  {
    UnterminatedQuoteIsAnError(v);
  }

  /** Neither can a reference that ends in a period. */
  lemma TrailingPeriodCannotBeEncoded(w: string)
    requires IsWord(w)
    ensures EncodeTableRef(Some(w + ".")) == Failure(TableReferenceParse(w + ".", TrailingPeriod))
  {
    TrailingPeriodIsAnError(w);
  }

  /** `"Catalog"."Schema"."Table"` encodes with its case kept, and decodes back to the dotted parts. */
  lemma {:induction false} QuotedReferenceKeepsCase(a: string, b: string, c: string)
    requires a != [] && b != [] && c != []
    requires '"' !in a && '"' !in b && '"' !in c
    ensures EncodeTableRef(Some("\"" + a + "\".\"" + b + "\".\"" + c + "\"")) ==
      Success(EncodeTableReferenceStruct(TableReference(Some(a), Some(b), Some(c))))
    ensures DecodeTableRef(EncodeTableReferenceStruct(TableReference(Some(a), Some(b), Some(c))))
         == Success(Some(a + "." + b + "." + c))
  {
    QuotedPartsKeepTheirCase(a, b, c);
    TableReferenceStructRoundTrip(TableReference(Some(a), Some(b), Some(c)));
    PresentPartsOfAssigned([a, b, c]);
    JoinThree([a, b, c]);
  }
}
