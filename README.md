# Semantic manifest (MDL) data model and JSON codecs

This project models the semantic manifest of the mimir well engine and proves properties of that model. The manifest lists:

- models and their columns;
- relationships, metrics, views and the data source;
- row- and column-level access controls with their session properties.

Each record has a JSON wire form. The model covers the records and the codecs that define that form:

- the derived serde codecs, with their per-field annotations (`rename_all`, `default`, `alias`, `skip_serializing`, `with`);
- the legacy boolean codec (`bool_from_int`);
- the table-reference codec, which turns a dotted SQL identifier into a `{catalog, schema, table}` object and back;
- the SQL multi-part identifier parser that the table-reference codec relies on;
- `NormalizedExpr`, the column-level security threshold, which travels as text.

Everything is pure logic, so the model is datatypes, functions and lemmas in six modules:

| file | module | models |
|---|---|---|
| `wrappers.dfy` | `Wrappers` | `Option` and `Result`, with failure propagation |
| `json.dfy` | `Json` | JSON values as serde_json holds them; how derived `Deserialize` reads struct fields (unknown keys ignored, a duplicate known key an error, a missing field an error unless it has a default); the codecs for options and sequences |
| `identifiers.dfy` | `Identifiers` | `parse_identifiers` and `parse_identifiers_normalized` (`src/mdl/utils.rs`), over a tokenizer and parser for sqlparser's multi-part identifiers |
| `cls.dfy` | `Cls` | `NormalizedExpr::new`, `is_string`, `Display` and `FromStr` (`src/mdl/cls.rs`) |
| `codecs.dfy` | `Codecs` | `bool_from_int` and `table_reference` (`src/mdl/manifest.rs`) |
| `mdl.dfy` | `Mdl` | every record and enum of `mdl_macro/src/lib.rs`, with its decoder, encoder and round-trip lemmas |

A JSON object is an ordered sequence of members, so the model can state what happens to a duplicate key or to an extra member.

Decoders return `Result<T, DecodeError>`. The encoders for records that hold a table reference return `Result<JsonValue, EncodeError>`, because `table_reference::serialize` can fail.

## Model

| member | source | states |
|---|---|---|
| `Identifiers.ParseMultipart` | src/mdl/utils.rs:7 | A multi-part identifier is one or more parts. Over tokens the tokenizer produced, every part it returns is printable. |
| `Identifiers.ParseIdentifiers` | src/mdl/utils.rs:4-9 | Success gives at least one part, and every part reads back as itself once rendered. |
| `Identifiers.TokenizeWellFormed` | src/mdl/utils.rs:6 | Every word the tokenizer produces is a bare identifier word or quoted text free of its delimiter. |
| `Identifiers.ParseIdentifiersNormalized` | src/mdl/utils.rs:11-24 | A parse error is passed on unchanged. Otherwise there is one string per parsed part, in order. Quoted parts are kept verbatim. With `ignore_case` nothing changes. Without it, unquoted parts are ASCII lower-cased. |
| `Identifiers.LowerAscii` | src/mdl/utils.rs:20 | The length is kept, and each character is mapped by ASCII lower-casing. |
| `Identifiers.ParseRendered` | src/mdl/utils.rs:4-9 | Rendering printable parts and parsing the result gives the parts back (display is the inverse of parsing). |
| `Identifiers.ParseRenderParse` | src/mdl/utils.rs:4-9 | Re-parsing the display form of any successful parse gives the same parse. |
| `Identifiers.ParseDottedWords` | src/mdl/utils.rs:4-9 | Bare words joined with `.` parse to unquoted parts with the same values. |
| `Identifiers.LowerAsciiIdempotent` | src/mdl/utils.rs:20 | Lower-casing twice is lower-casing once, and the result has no upper-case ASCII letter. |
| `Identifiers.NormalizeIdempotent` | src/mdl/utils.rs:11-24 | Rendering the normalised parts with their quoting and normalising again gives the same parts. |
| `Identifiers.NormalizedUnquotedAreLower` | src/mdl/utils.rs:17-21 | An unquoted part, normalised without `ignore_case`, holds no upper-case ASCII letter. |
| `Identifiers.EmptyStringIsAnError` | src/mdl/utils.rs:4-9 | The empty string does not parse, so no reference has zero parts. |
| `Identifiers.UnterminatedQuoteIsAnError` | src/mdl/utils.rs:6 | `"` followed by text without a closing `"` is the unterminated-delimited-identifier error. The tokenizer reports it before any parsing. |
| `Identifiers.TrailingPeriodIsAnError` | src/mdl/utils.rs:7 | A bare word followed by a period and nothing else is the trailing-period error. |
| `Identifiers.QuotedPartsKeepTheirCase` | src/mdl/utils.rs:58-65 | `"a"."b"."c"` parses to three double-quoted parts and normalises to `[a, b, c]` with case kept (also the test at lines 30-42). |
| `Identifiers.UnquotedPartsAreLowerCased` | src/mdl/utils.rs:67-74 | `a.b.c` of bare words parses to three unquoted parts and normalises to their lower-cased values (also the test at lines 44-56). |
| `Identifiers.SingleQuotedPart` | src/mdl/utils.rs:76-84 | `"a"` parses to one double-quoted part. |
| `Cls.New` | src/mdl/cls.rs:17-31 | The tag is String exactly when `is_string` holds. A string keeps what lies between the outer quotes, inner quotes included. Any other text is kept as written. Rendering the result gives the input back. |
| `Cls.FromStr` | src/mdl/cls.rs:48-53 | Never fails on non-empty text. The tag agrees with `is_string`, and the value renders back to the text. |
| `Cls.NewRender` | src/mdl/cls.rs:39-46 | `new(display(x)) == x` exactly for the values that round-trip: strings, and numeric values that are non-empty and do not look quoted. |
| `Cls.QuotedNumericComesBackAsString` | src/mdl/cls.rs:20-24 | A numeric value written `'x'` comes back as the string `x`: the tag is not carried on the wire. |
| `Cls.QuotedLiteral` | src/mdl/cls.rs:20-24 | `'abc'` is the string `abc` and renders back to `'abc'`. |
| `Cls.NumberLiteral` | src/mdl/cls.rs:25-30 | `42` is numeric `42` and renders back to `42`. |
| `Cls.InnerQuotesKept` | src/mdl/cls.rs:22 | Only the outer pair of quotes is removed from `'a'b'`. |
| `Cls.LoneQuoteIsNumeric` | src/mdl/cls.rs:34-36 | A lone `'` is too short to be a string. |
| `Cls.UnquotedTextIsNumeric` | src/mdl/cls.rs:25-30 | Any text not starting with a quote is numeric, with no check that it is a number. |
| `Codecs.DecodeLegacyBool` | src/mdl/manifest.rs:8-19 | A JSON boolean is itself. A non-negative integer is true exactly when non-zero. Anything else is the "invalid type for boolean" error. |
| `Codecs.EncodeLegacyBool` | src/mdl/manifest.rs:21-26 | Always writes a native JSON boolean. |
| `Codecs.LegacyBoolRoundTrip` | src/mdl/manifest.rs:8-26 | Decoding an encoded boolean gives it back. |
| `Codecs.LegacyBoolReencode` | src/mdl/manifest.rs:8-26 | Re-encoding a decoded value reproduces the input exactly when the input was a boolean: integers come back as booleans. |
| `Codecs.LegacyBoolExamples` | src/mdl/manifest.rs:13-18 | true, false, 0, 1 and 2 decode. A string, a negative number, a float and null are rejected. |
| `Codecs.NonEmpty` | src/mdl/manifest.rs:54-58 | Flattening keeps only non-empty parts. |
| `Codecs.Flatten` | src/mdl/manifest.rs:47-62 | A structured reference is `None` exactly when none of its fields is a non-empty string. Otherwise it is the non-empty fields joined with `.`, which is never empty. |
| `Codecs.DecodeTableRef` | src/mdl/manifest.rs:43-63 | null is `None`. Any other value is read as the three-field structure, and an error there is the result. A valid structure is flattened: its present, non-empty fields joined with `.`, or `None` when none is left. A decoded reference is never the empty string. |
| `Codecs.AssignFromRight` | src/mdl/manifest.rs:82-102 | The last part is the table, the one before it the schema, and the first of three the catalog. Missing slots are `None`. |
| `Codecs.EncodeTableRef` | src/mdl/manifest.rs:65-108 | `None` is null. A parse error is reported as a parse error. More than three parts is "Invalid table reference". A reference that parses to one to three parts always encodes: its normalised parts are assigned from the right and written as the struct. |
| `Codecs.TableReferenceStructRoundTrip` | src/mdl/manifest.rs:36-41 | The derived struct codec round-trips every reference. |
| `Codecs.PresentPartsOfAssigned` | src/mdl/manifest.rs:54-59 | Flattening non-empty parts assigned from the right gives them back in order. |
| `Codecs.CanonicalRoundTrip` | src/mdl/manifest.rs:43-108 | A reference that normalises to one to three non-empty parts that join back to itself encodes, and decodes to itself. |
| `Codecs.LowerWordsAreCanonical` | src/mdl/manifest.rs:65-108 | One to three lower-case bare words, dotted, are canonical, so they round-trip. |
| `Codecs.EncodeDottedWords` | src/mdl/manifest.rs:191-214 | `a.b.c`, `b.c` and `c` of bare words encode as the struct of their lower-cased parts assigned from the right (`catalog` and `schema` null when missing). |
| `Codecs.FourWordsAreTooLong` | src/mdl/manifest.rs:76-80 | Four dotted words are rejected as an invalid table reference. |
| `Codecs.EncodedReferenceHasTable` | src/mdl/manifest.rs:100-102 | An encoded reference never has all three fields null: the default branch cannot be reached. |
| `Codecs.DecodeThenEncodeWords` | src/mdl/manifest.rs:43-108 | Decoding a struct of bare words and encoding it again lower-cases the words and re-assigns them from the right. |
| `Codecs.FullReferenceComesBackLowerCased` | src/mdl/manifest.rs:43-108 | `{"catalog":"C","schema":"S","table":"T"}` comes back with each part lower-cased. |
| `Codecs.TableOnlyComesBackLowerCased` | src/mdl/manifest.rs:43-108 | `{"table":"T"}` comes back as `{"catalog":null,"schema":null,"table":"t"}`. |
| `Codecs.EmptyCatalogIsSkipped` | src/mdl/manifest.rs:47-62 | `{"catalog":"","table":"t"}` decodes to `t`: an empty field is no part, and a missing field is `None`. |
| `Codecs.CatalogWithoutSchemaIsJoined` | src/mdl/manifest.rs:47-62 | `{"catalog":"c","table":"t"}` decodes to `c.t`: with no schema, the catalog is joined straight to the table. |
| `Codecs.UnterminatedQuoteCannotBeEncoded` | src/mdl/manifest.rs:69-73 | A reference with an unclosed `"` fails to encode with the parse error. |
| `Codecs.TrailingPeriodCannotBeEncoded` | src/mdl/manifest.rs:69-73 | A bare word followed by a period fails to encode with the trailing-period parse error. |
| `Codecs.QuotedReferenceKeepsCase` | src/mdl/manifest.rs:216-226 | `"a"."b"."c"` encodes with the case of every part kept, and decodes to `a.b.c`. |
| `Mdl.DecodeDataSource` | mdl_macro/src/lib.rs:136-148 | Accepts exactly the upper-case names and the lower-case aliases. Any other string is an unknown variant. A non-string is a type error. |
| `Mdl.DataSourceRoundTrip` | mdl_macro/src/lib.rs:136-148 | Each data source decodes from its written name and from its alias. |
| `Mdl.DataSourceMixedCaseRejected` | mdl_macro/src/lib.rs:139-147 | `MySQL` and `DuckDB` are rejected: the aliases are matched exactly. |
| `Mdl.DecodeJoinType` | mdl_macro/src/lib.rs:51-62 | Accepts exactly the SCREAMING_SNAKE names and the snake-case aliases. Anything else is an unknown variant or a type error. |
| `Mdl.JoinTypeRoundTrip` | mdl_macro/src/lib.rs:51-62 | Each join type decodes from its written name and from its alias. |
| `Mdl.DecodeTimeUnit` | mdl_macro/src/lib.rs:107-115 | Accepts exactly the six variant names as written, and a success is the encoding of its result. |
| `Mdl.TimeUnitRoundTrip` | mdl_macro/src/lib.rs:107-115 | Each time unit round-trips. |
| `Mdl.DecodeOperator` | mdl_macro/src/lib.rs:234-243 | Accepts exactly the six SCREAMING_SNAKE names, and a success is the encoding of its result. |
| `Mdl.OperatorRoundTrip` | mdl_macro/src/lib.rs:234-243 | Each operator round-trips. |
| `Mdl.NewSessionProperty` | mdl_macro/src/lib.rs:292-300 | Keeps the three given fields and stores the lower-cased name. |
| `Mdl.NormalizedName` | mdl_macro/src/lib.rs:303-305 | The normalised name is the ASCII lower-casing of the name: as long as the name, with no upper-case ASCII letter. |
| `Mdl.DecodeSessionProperty` | mdl_macro/src/lib.rs:308-329 | A decoded property always stores the lower-cased form of its name. |
| `Mdl.NormalizedNameIgnoresCase` | mdl_macro/src/lib.rs:293 | Names differing only in letter case share their normalised name. |
| `Mdl.EncodeOmitsNormalizedName` | mdl_macro/src/lib.rs:286-287 | The wire form never carries the normalised name, and properties differing only there encode alike. |
| `Mdl.DecodeIgnoresNormalizedName` | mdl_macro/src/lib.rs:313-323 | A `normalizedName` member in the payload changes nothing: the name is recomputed. |
| `Mdl.SessionPropertyDecodeReadsThreeFields` | mdl_macro/src/lib.rs:315-319 | Decoding depends only on the `name`, `required` and `defaultExpr` members. |
| `Mdl.SessionPropertyRoundTrip` | mdl_macro/src/lib.rs:279-329 | Decoding an encoded property gives it back exactly when its stored name is the lower-cased name. |
| `Mdl.SessionPropertyFieldDefaults` | src/model/manifest.rs:51-63 | A payload without `defaultExpr` decodes with `None`, and one without `required` is a missing-field error. |
| `Mdl.UserIdNormalizedName` | src/model/manifest.rs:21-28 | `UserId` is known as `userid`. |
| `Mdl.MyPropertyNormalizedName` | src/model/manifest.rs:77-90 | `MY_PROPERTY` is known as `my_property`. |
| `Mdl.DecodeSessionPropertyExample` | src/model/manifest.rs:37-49 | `{"name":n,"required":true,"defaultExpr":d}` decodes to `n`, true, `Some(d)`, with `n` lower-cased as its normalised name. |
| `Mdl.PropertiesRoundTrip` | mdl_macro/src/lib.rs:223 | A list of normalised properties round-trips. |
| `Mdl.DecodeRowLevelAccessControl` | mdl_macro/src/lib.rs:337-345 | The required properties of a decoded control are all normalised. |
| `Mdl.RowLevelAccessControlRoundTrip` | mdl_macro/src/lib.rs:337-345 | A control with normalised properties round-trips. |
| `Mdl.RowLevelAccessControlDefaults` | mdl_macro/src/lib.rs:341-342 | `requiredProperties` may be left out and is then empty. |
| `Mdl.DecodeThreshold` | mdl_macro/src/lib.rs:251 | A non-string is a type error. The empty string is the panic of `NormalizedExpr::new`, as an error. A success renders back to the decoded text. |
| `Mdl.ThresholdRoundTrip` | mdl_macro/src/lib.rs:251-256 | A threshold comes back from the wire exactly when it is one that round-trips through `new` and `display`. |
| `Mdl.DecodeColumnLevelAccessControl` | mdl_macro/src/lib.rs:219-226 | A decoded control has normalised properties and a non-empty threshold rendering. |
| `Mdl.ColumnLevelAccessControlRoundTrip` | mdl_macro/src/lib.rs:219-226 | A control with normalised properties and a round-tripping threshold round-trips. |
| `Mdl.OptionalAccessControlRoundTrip` | mdl_macro/src/lib.rs:209 | An optional well-formed control round-trips, with `None` as null. |
| `Mdl.DecodeNoneAsEmptyString` | mdl_macro/src/lib.rs:204-206 | The empty string and null are `None`, and nothing else is. A present value is the string as written, never empty. Any other JSON type is an error. |
| `Mdl.EncodeNoneAsEmptyString` | mdl_macro/src/lib.rs:204-206 | Always writes a string. |
| `Mdl.NoneAsEmptyStringRoundTrip` | mdl_macro/src/lib.rs:204-206 | Every option round-trips except `Some("")`, which comes back as `None`. |
| `Mdl.DecodeColumn` | mdl_macro/src/lib.rs:191-210 | A decoded column never holds an empty expression. |
| `Mdl.ColumnRoundTrip` | mdl_macro/src/lib.rs:191-210 | A column with no empty expression and a well-formed access control round-trips. |
| `Mdl.ColumnDefaults` | mdl_macro/src/lib.rs:196-209 | Only `name` and `type` are required. The flags default to false and the rest to `None`. Without `type` the result is a missing-field error. |
| `Mdl.ColumnLegacyFlags` | mdl_macro/src/lib.rs:200-208 | The flags accept the legacy integers 1, 0 and 7 as true, false and true. |
| `Mdl.ColumnNullFlagRejected` | mdl_macro/src/lib.rs:202-203 | An explicit null flag is rejected: the flags have a default, they are not optional. |
| `Mdl.ColumnEmptyExpression` | mdl_macro/src/lib.rs:204-206 | An empty expression reads as absent, and an absent one is written as the empty string. |
| `Mdl.DecodeColumns` | mdl_macro/src/lib.rs:169 | No decoded column in a list holds an empty expression. |
| `Mdl.ColumnsRoundTrip` | mdl_macro/src/lib.rs:169 | A list of well-formed columns round-trips. |
| `Mdl.StringsRoundTrip` | mdl_macro/src/lib.rs:39 | A list of strings round-trips. |
| `Mdl.RelationshipRoundTrip` | mdl_macro/src/lib.rs:34-42 | Every relationship round-trips. |
| `Mdl.RelationshipsRoundTrip` | mdl_macro/src/lib.rs:19 | Every list of relationships round-trips. |
| `Mdl.TimeUnitsRoundTrip` | mdl_macro/src/lib.rs:97 | Every list of time units round-trips. |
| `Mdl.TimeGrainRoundTrip` | mdl_macro/src/lib.rs:92-98 | Every time grain round-trips. |
| `Mdl.TimeGrainsRoundTrip` | mdl_macro/src/lib.rs:79 | Every list of time grains round-trips. |
| `Mdl.DecodeMetric` | mdl_macro/src/lib.rs:71-83 | No dimension or measure column of a decoded metric holds an empty expression. |
| `Mdl.MetricDefaults` | mdl_macro/src/lib.rs:74-82 | Only `name`, `baseObject`, `dimension`, `measure` and `timeGrain` are required. Any well-formed metric written with just those five members decodes with `cached` false and `refreshTime` `None`. |
| `Mdl.MetricLegacyCached` | mdl_macro/src/lib.rs:80-81 | `cached` goes through the legacy boolean codec: a metric whose `cached` member is the integer `n` decodes with `cached` equal to `n != 0`. |
| `Mdl.MetricRoundTrip` | mdl_macro/src/lib.rs:71-83 | A metric with well-formed columns round-trips. |
| `Mdl.MetricsRoundTrip` | mdl_macro/src/lib.rs:21 | A list of well-formed metrics round-trips. |
| `Mdl.ViewRoundTrip` | mdl_macro/src/lib.rs:124-128 | Every view round-trips. |
| `Mdl.ViewsRoundTrip` | mdl_macro/src/lib.rs:23 | Every list of views round-trips. |
| `Mdl.RowLevelAccessControlsRoundTrip` | mdl_macro/src/lib.rs:180-181 | A list of controls with normalised properties round-trips. |
| `Mdl.EncodeModel` | mdl_macro/src/lib.rs:167-168 | A model fails to encode exactly when its table reference does, with the same error. |
| `Mdl.TableReferenceField` | mdl_macro/src/lib.rs:167-168 | A missing `tableReference` is `None`, and a decoded one is never empty. |
| `Mdl.DecodeModel` | mdl_macro/src/lib.rs:156-182 | A decoded model never holds an empty table reference. |
| `Mdl.ModelRoundTrip` | mdl_macro/src/lib.rs:156-182 | A model whose table reference is absent or canonical, with well-formed columns and controls, encodes and decodes back to itself. |
| `Mdl.ModelDefaults` | mdl_macro/src/lib.rs:159-181 | Only `name` and `columns` are required. `cached` defaults to false and the rest to absent or empty. |
| `Mdl.ModelRequiresColumns` | mdl_macro/src/lib.rs:169 | A model without `columns` is a missing-field error. |
| `Mdl.EncodeManifest` | mdl_macro/src/lib.rs:11-26 | A manifest encodes exactly when every model does. |
| `Mdl.DecodeModels` | mdl_macro/src/lib.rs:17 | No decoded model holds an empty table reference. |
| `Mdl.DecodeManifest` | mdl_macro/src/lib.rs:11-26 | No model of a decoded manifest holds an empty table reference. |
| `Mdl.ManifestRoundTrip` | mdl_macro/src/lib.rs:11-26 | A manifest whose models and metrics are well-formed encodes and decodes back to itself. |
| `Mdl.ManifestDefaults` | mdl_macro/src/lib.rs:14-25 | Only `catalog` and `schema` are required. The lists default to empty and the data source to `None`. |
| `Mdl.ManifestNullDataSource` | mdl_macro/src/lib.rs:24-25 | An explicit null data source is `None` as well. |
| `Mdl.ManifestEncodeIsAllOrNothing` | mdl_macro/src/lib.rs:17 | One model whose table reference cannot be encoded makes the whole manifest fail. |
| `Json.DecodeEach` | mdl_macro/src/lib.rs:17 | A `Vec` decodes exactly when every item does, and the items are decoded in place. |
| `Json.TryEncodeEach` | mdl_macro/src/lib.rs:17 | A `Vec` whose items can fail to encode encodes exactly when every item does. |
| `Json.FieldOfMembers` | mdl_macro/src/lib.rs:11-13 | Each field of a struct encoded with distinct field names reads back as its value. |
| `Json.FieldIgnoresOtherKey` | mdl_macro/src/lib.rs:313-319 | A member with another key does not change what a field reads: unknown keys are ignored. |
| `Json.EachRoundTrip` | mdl_macro/src/lib.rs:17 | A `Vec` round-trips when each item does. |
| `Json.TryEachRoundTrip` | mdl_macro/src/lib.rs:17 | A `Vec` with fallible encoding encodes and round-trips when each item does. |

## Left out

- The SQL tokenizer is the part of sqlparser that identifiers need: whitespace, `.`, ASCII words `[A-Za-z_][A-Za-z0-9_$#@]*`, and words delimited by `"` or `` ` ``. Left out are doubled-quote escapes inside a delimited word, comments, `[...]` identifiers, non-ASCII identifier letters, words that begin with `#` or `@`, and number or keyword lexing. Any other character is a token of its own, which the parser rejects.
- Mdl.NewSessionProperty: uses ASCII lower-casing for Rust's Unicode `to_lowercase`. The two agree on ASCII names; non-ASCII letters are not folded in the model.
- Cls.New: requires a non-empty expression where `NormalizedExpr::new` panics. On the wire that panic is the `EmptyExprPanic` decode error (`Mdl.DecodeThreshold`), not an abort of the process.
- Integer width: `UInt` is an unbounded natural number, with no `u64` bound. Numbers beyond `u64` and floats are not distinguished except as "not a non-negative integer".
- Error choice: when several fields are bad, the model reports the first one in field-declaration order. serde reports in document order. Which error comes back can differ; that an error comes back does not.
- serde also accepts a struct written as a JSON array, and an enum written as a one-member map. Neither form is modelled; only the object and string forms are.
- `NormalizedExprType`'s own derived codec is not modelled. On the wire a threshold travels only through `Display` and `FromStr`.
- `Arc` sharing, `Debug`/`Hash`/`Eq` derives and the procedural-macro plumbing carry no behaviour of their own.
- The HTTP API, the connectors, the analyzer, the rewriter and the configuration are not part of this model.
- `DataSource`'s `#[default]` variant (`Datafusion`) is not modelled. No modelled operation consults it: a manifest without a data source decodes to `None`.
- The error messages of `EncodeError` and `DecodeError` are kept as their kind and offending text, not as the formatted strings.

## Behaviour worth knowing

- **Table-reference case.** A structured reference `{"catalog":"C","schema":"S","table":"T"}` is decoded to `C.S.T`. When it is encoded again, the unquoted parts are lower-cased (`Codecs.FullReferenceComesBackLowerCased`), so it does not come back unchanged. Only references already in canonical form round-trip (`Codecs.CanonicalRoundTrip`).
- **Table-reference slots.** A structure with a catalog and a table but no schema comes back with the catalog in the schema slot (`Codecs.DecodeThenEncodeWords`).
- **`NormalizedExpr` round trip.** `new(display(x))` gives `x` back for every string value, inner quotes included. The values that do not come back are numeric values that look quoted and the empty numeric value (`Cls.NewRender`).
- **Data-source aliases.** The aliases are exact lower-case strings, not case-insensitive matches (`Mdl.DataSourceMixedCaseRejected`).
- **Column names.** Nothing enforces that column names are unique within a model.
