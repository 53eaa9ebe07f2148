/**
  The semantic-manifest records (manifest, models, columns, relationships, metrics, views,
  access controls, session properties) and the enums they use, each with its JSON wire
  form as the derived serde codecs and the per-field annotations define it.
*/
module Mdl {
  import opened Wrappers
  import opened Json
  import opened Identifiers
  import opened Cls
  import opened Codecs

  // ---------------------------------------------------------------------------
  // Enums: one wire name per variant, plus a lower-case alias where the Rust enum declares one

  datatype DataSource = MySql | Datafusion | Postgres | DuckDb

  function DataSourceName(x: DataSource): string {
    match x
    case MySql => "MYSQL"
    case Datafusion => "DATAFUSION"
    case Postgres => "POSTGRES"
    case DuckDb => "DUCKDB"
  }

  function DataSourceAlias(x: DataSource): string {
    match x
    case MySql => "mysql"
    case Datafusion => "datafusion"
    case Postgres => "postgres"
    case DuckDb => "duckdb"
  }

  function EncodeDataSource(x: DataSource): JsonValue {
    Str(DataSourceName(x))
  }

  /** Accepts exactly the upper-case names and their lower-case aliases; nothing else. */
  function DecodeDataSource(v: JsonValue): (r: Result<DataSource, DecodeError>)
    ensures !v.Str? ==> r == Failure(InvalidType("enum DataSource"))
    ensures v.Str? ==> (r.Success? <==> v.s in {"MYSQL", "mysql", "DATAFUSION", "datafusion", "POSTGRES", "postgres", "DUCKDB", "duckdb"})
    ensures v.Str? && r.Failure? ==> r == Failure(UnknownVariant(v.s))
    ensures r.Success? ==> v.s == DataSourceName(r.value) || v.s == DataSourceAlias(r.value)
  {
    if !v.Str? then Failure(InvalidType("enum DataSource"))
    else match v.s
      case "MYSQL" => Success(MySql)
      case "mysql" => Success(MySql)
      case "DATAFUSION" => Success(Datafusion)
      case "datafusion" => Success(Datafusion)
      case "POSTGRES" => Success(Postgres)
      case "postgres" => Success(Postgres)
      case "DUCKDB" => Success(DuckDb)
      case "duckdb" => Success(DuckDb)
      case _ => Failure(UnknownVariant(v.s))
  }

  lemma DataSourceRoundTrip(x: DataSource)
    ensures DecodeDataSource(EncodeDataSource(x)) == Success(x)
    ensures DecodeDataSource(Str(DataSourceAlias(x))) == Success(x)
  {
  }

  /** Aliases are matched exactly: a mixed-case spelling is not accepted. */
  lemma DataSourceMixedCaseRejected()
    ensures DecodeDataSource(Str("MySQL")) == Failure(UnknownVariant("MySQL"))
    ensures DecodeDataSource(Str("DuckDB")) == Failure(UnknownVariant("DuckDB"))
  {
  }

  datatype JoinType = OneToOne | OneToMany | ManyToOne | ManyToMany

  function JoinTypeName(x: JoinType): string {
    match x
    case OneToOne => "ONE_TO_ONE"
    case OneToMany => "ONE_TO_MANY"
    case ManyToOne => "MANY_TO_ONE"
    case ManyToMany => "MANY_TO_MANY"
  }

  function JoinTypeAlias(x: JoinType): string {
    match x
    case OneToOne => "one_to_one"
    case OneToMany => "one_to_many"
    case ManyToOne => "many_to_one"
    case ManyToMany => "many_to_many"
  }

  function EncodeJoinType(x: JoinType): JsonValue {
    Str(JoinTypeName(x))
  }

  function DecodeJoinType(v: JsonValue): (r: Result<JoinType, DecodeError>)
    ensures !v.Str? ==> r == Failure(InvalidType("enum JoinType"))
    ensures v.Str? ==> (r.Success? <==> v.s in {"ONE_TO_ONE", "one_to_one", "ONE_TO_MANY", "one_to_many",
                                                "MANY_TO_ONE", "many_to_one", "MANY_TO_MANY", "many_to_many"})
    ensures v.Str? && r.Failure? ==> r == Failure(UnknownVariant(v.s))
    ensures r.Success? ==> v.s == JoinTypeName(r.value) || v.s == JoinTypeAlias(r.value)
  {
    if !v.Str? then Failure(InvalidType("enum JoinType"))
    else match v.s
      case "ONE_TO_ONE" => Success(OneToOne)
      case "one_to_one" => Success(OneToOne)
      case "ONE_TO_MANY" => Success(OneToMany)
      case "one_to_many" => Success(OneToMany)
      case "MANY_TO_ONE" => Success(ManyToOne)
      case "many_to_one" => Success(ManyToOne)
      case "MANY_TO_MANY" => Success(ManyToMany)
      case "many_to_many" => Success(ManyToMany)
      case _ => Failure(UnknownVariant(v.s))
  }

  lemma JoinTypeRoundTrip(x: JoinType)
    ensures DecodeJoinType(EncodeJoinType(x)) == Success(x)
    ensures DecodeJoinType(Str(JoinTypeAlias(x))) == Success(x)
  {
  }

  /** No rename: the wire names are the variant names as written. */
  datatype TimeUnit = Year | Month | Day | Hour | Minute | Second

  function TimeUnitName(x: TimeUnit): string {
    match x
    case Year => "Year"
    case Month => "Month"
    case Day => "Day"
    case Hour => "Hour"
    case Minute => "Minute"
    case Second => "Second"
  }

  function EncodeTimeUnit(x: TimeUnit): JsonValue {
    Str(TimeUnitName(x))
  }

  function DecodeTimeUnit(v: JsonValue): (r: Result<TimeUnit, DecodeError>)
    ensures !v.Str? ==> r == Failure(InvalidType("enum TimeUnit"))
    ensures v.Str? ==> (r.Success? <==> v.s in {"Year", "Month", "Day", "Hour", "Minute", "Second"})
    ensures v.Str? && r.Failure? ==> r == Failure(UnknownVariant(v.s))
    ensures r.Success? ==> v == EncodeTimeUnit(r.value)
  {
    if !v.Str? then Failure(InvalidType("enum TimeUnit"))
    else match v.s
      case "Year" => Success(Year)
      case "Month" => Success(Month)
      case "Day" => Success(Day)
      case "Hour" => Success(Hour)
      case "Minute" => Success(Minute)
      case "Second" => Success(Second)
      case _ => Failure(UnknownVariant(v.s))
  }

  lemma TimeUnitRoundTrip(x: TimeUnit)
    ensures DecodeTimeUnit(EncodeTimeUnit(x)) == Success(x)
  {
  }

  datatype ColumnLevelOperator = Equals | NotEquals | GreaterThan | LessThan | GreaterThanOrEquals | LessThanOrEquals

  function OperatorName(x: ColumnLevelOperator): string {
    match x
    case Equals => "EQUALS"
    case NotEquals => "NOT_EQUALS"
    case GreaterThan => "GREATER_THAN"
    case LessThan => "LESS_THAN"
    case GreaterThanOrEquals => "GREATER_THAN_OR_EQUALS"
    case LessThanOrEquals => "LESS_THAN_OR_EQUALS"
  }

  function EncodeOperator(x: ColumnLevelOperator): JsonValue {
    Str(OperatorName(x))
  }

  function DecodeOperator(v: JsonValue): (r: Result<ColumnLevelOperator, DecodeError>)
    ensures !v.Str? ==> r == Failure(InvalidType("enum ColumnLevelOperator"))
    ensures v.Str? ==> (r.Success? <==> v.s in {"EQUALS", "NOT_EQUALS", "GREATER_THAN", "LESS_THAN",
                                                "GREATER_THAN_OR_EQUALS", "LESS_THAN_OR_EQUALS"})
    ensures v.Str? && r.Failure? ==> r == Failure(UnknownVariant(v.s))
    ensures r.Success? ==> v == EncodeOperator(r.value)
  {
    if !v.Str? then Failure(InvalidType("enum ColumnLevelOperator"))
    else match v.s
      case "EQUALS" => Success(Equals)
      case "NOT_EQUALS" => Success(NotEquals)
      case "GREATER_THAN" => Success(GreaterThan)
      case "LESS_THAN" => Success(LessThan)
      case "GREATER_THAN_OR_EQUALS" => Success(GreaterThanOrEquals)
      case "LESS_THAN_OR_EQUALS" => Success(LessThanOrEquals)
      case _ => Failure(UnknownVariant(v.s))
  }

  lemma OperatorRoundTrip(x: ColumnLevelOperator)
    ensures DecodeOperator(EncodeOperator(x)) == Success(x)
  {
  }

  // ---------------------------------------------------------------------------
  // SessionProperty

  datatype SessionProperty = SessionProperty(name: string, required: bool, defaultExpr: Option<string>, normalizedName: string)

  /** The invariant every constructed or decoded property keeps: the stored key is the lower-cased name. */
  predicate Normalized(p: SessionProperty) {
    p.normalizedName == LowerAscii(p.name)
  }

  /** `SessionProperty::new`. */
  function NewSessionProperty(name: string, required: bool, defaultExpr: Option<string>): (p: SessionProperty)
    ensures p.name == name && p.required == required && p.defaultExpr == defaultExpr
    ensures Normalized(p)
  {
    SessionProperty(name, required, defaultExpr, LowerAscii(name))
  }

  /** `normalized_name()`: the case-insensitive identity of the property. */
  function NormalizedName(p: SessionProperty): (n: string)
    requires Normalized(p)
    ensures n == LowerAscii(p.name)
    ensures |n| == |p.name|
    ensures forall i | 0 <= i < |n| :: !('A' <= n[i] <= 'Z')
  {
    LowerAsciiIdempotent(p.name);
    p.normalizedName
  }

  const SessionPropertyFields: seq<string> := ["name", "required", "defaultExpr"]

  lemma SessionPropertyFieldsDistinct()
    ensures Distinct(SessionPropertyFields)
  {
    ApartNamesAreDistinct(SessionPropertyFields);
  }

  /** The derived `Serialize`: `normalizedName` is skipped. */
  function EncodeSessionProperty(p: SessionProperty): JsonValue {
    Obj(Members(SessionPropertyFields, [Str(p.name), Bool(p.required), EncodeOptionalString(p.defaultExpr)]))
  }

  /** The hand-written `Deserialize`: reads the three wire fields and recomputes the normalised name. */
  function DecodeSessionProperty(v: JsonValue): (r: Result<SessionProperty, DecodeError>)
    ensures r.Success? ==> Normalized(r.value)
  {
    var ms :- AsObject(v, "SessionPropertyHelper");
    var name :- Required(ms, "name", DecodeString);
    var required :- Required(ms, "required", DecodeBool);
    var defaultExpr :- WithDefault(ms, "defaultExpr", DecodeOptionalString, None);
    Success(NewSessionProperty(name, required, defaultExpr))
  }

  /** Two properties whose names differ only in letter case share their normalised name. */
  lemma {:induction false} NormalizedNameIgnoresCase(a: string, b: string, required: bool, defaultExpr: Option<string>)
    requires |a| == |b| && forall i | 0 <= i < |a| :: LowerChar(a[i]) == LowerChar(b[i])
    ensures NormalizedName(NewSessionProperty(a, required, defaultExpr)) == NormalizedName(NewSessionProperty(b, required, defaultExpr))
  {
    assert LowerAscii(a) == LowerAscii(b);
  }

  /** The wire form never carries the normalised name: properties differing only there encode alike. */
  lemma EncodeOmitsNormalizedName(p: SessionProperty, other: string)
    ensures EncodeSessionProperty(p) == EncodeSessionProperty(p.(normalizedName := other))
    ensures forall m | m in EncodeSessionProperty(p).members :: m.key != "normalizedName"
  {
  }

  /** A `normalizedName` member in the payload is ignored. */
  lemma DecodeIgnoresNormalizedName(ms: seq<Member>, stale: JsonValue)
    ensures DecodeSessionProperty(Obj(ms + [Member("normalizedName", stale)])) == DecodeSessionProperty(Obj(ms))
  {
    var extra := Member("normalizedName", stale);
    assert Apart(extra.key, "name") && Apart(extra.key, "required") && Apart(extra.key, "defaultExpr");
    FieldIgnoresOtherKey(ms, extra, "name");
    FieldIgnoresOtherKey(ms, extra, "required");
    FieldIgnoresOtherKey(ms, extra, "defaultExpr");
    SessionPropertyDecodeReadsThreeFields(ms + [extra], ms);
  }

  /** Decoding looks at the `name`, `required` and `defaultExpr` members and nothing else. */
  lemma SessionPropertyDecodeReadsThreeFields(a: seq<Member>, b: seq<Member>)
    requires Field(a, "name") == Field(b, "name")
    requires Field(a, "required") == Field(b, "required")
    requires Field(a, "defaultExpr") == Field(b, "defaultExpr")
    ensures DecodeSessionProperty(Obj(a)) == DecodeSessionProperty(Obj(b))
  {
  }

  /** Decoding an encoded property gives it back exactly when its stored name was normalised. */
  lemma SessionPropertyRoundTrip(p: SessionProperty)
    ensures DecodeSessionProperty(EncodeSessionProperty(p)) == Success(p) <==> Normalized(p)
  {
    var values := [Str(p.name), Bool(p.required), EncodeOptionalString(p.defaultExpr)];
    SessionPropertyFieldsDistinct();
    FieldOfMembers(SessionPropertyFields, values, 0);
    FieldOfMembers(SessionPropertyFields, values, 1);
    FieldOfMembers(SessionPropertyFields, values, 2);
    OptionalStringRoundTrip(p.defaultExpr);
  }

  /** A payload without `defaultExpr` decodes with `None`, and `required` cannot be left out. */
  lemma SessionPropertyFieldDefaults(name: string, required: bool)
    ensures DecodeSessionProperty(Obj([Member("name", Str(name)), Member("required", Bool(required))]))
         == Success(NewSessionProperty(name, required, None))
    ensures DecodeSessionProperty(Obj([Member("name", Str(name))])) == Failure(MissingField("required"))
  {
    var ms := [Member("name", Str(name)), Member("required", Bool(required))];
    FieldFound(ms, "name", 0);
    FieldFound(ms, "required", 1);
    FieldMissing(ms, "defaultExpr");
    FieldFound([Member("name", Str(name))], "name", 0);
    FieldMissing([Member("name", Str(name))], "required");
  }

  /** `UserId` is known as `userid`. */
  lemma UserIdNormalizedName()
    ensures NormalizedName(NewSessionProperty("UserId", true, Some("123"))) == "userid"
  {
    LowerAsciiOf("UserId", "userid");
  }

  /** `MY_PROPERTY` is known as `my_property`. */
  lemma MyPropertyNormalizedName()
    ensures NormalizedName(NewSessionProperty("MY_PROPERTY", false, None)) == "my_property"
  {
    LowerAsciiOf("MY_PROPERTY", "my_property");
  }

  /** Decoding keeps the name as written and derives its normalised form. */
  lemma DecodeSessionPropertyExample(name: string, defaultExpr: string)
    ensures DecodeSessionProperty(Obj([Member("name", Str(name)), Member("required", Bool(true)), Member("defaultExpr", Str(defaultExpr))]))
         == Success(SessionProperty(name, true, Some(defaultExpr), LowerAscii(name)))
  {
    var ms := [Member("name", Str(name)), Member("required", Bool(true)), Member("defaultExpr", Str(defaultExpr))];
    FieldFound(ms, "name", 0);
    FieldFound(ms, "required", 1);
    FieldFound(ms, "defaultExpr", 2);
  }

  function EncodeProperties(ps: seq<SessionProperty>): JsonValue {
    Arr(EncodeEach(ps, EncodeSessionProperty))
  }

  function DecodeProperties(v: JsonValue): Result<seq<SessionProperty>, DecodeError> {
    DecodeArray(v, DecodeSessionProperty)
  }

  predicate AllNormalized(ps: seq<SessionProperty>) {
    forall i | 0 <= i < |ps| :: Normalized(ps[i])
  }

  lemma PropertiesRoundTrip(ps: seq<SessionProperty>)
    requires AllNormalized(ps)
    ensures DecodeProperties(EncodeProperties(ps)) == Success(ps)
  {
    forall p | p in ps ensures DecodeSessionProperty(EncodeSessionProperty(p)) == Success(p) {
      SessionPropertyRoundTrip(p);
    }
    EachRoundTrip(ps, EncodeSessionProperty, DecodeSessionProperty);
  }

  // ---------------------------------------------------------------------------
  // Access controls

  datatype RowLevelAccessControl = RowLevelAccessControl(name: string, requiredProperties: seq<SessionProperty>, condition: string)

  const RowLevelAccessControlFields: seq<string> := ["name", "requiredProperties", "condition"]

  lemma RowLevelAccessControlFieldsDistinct()
    ensures Distinct(RowLevelAccessControlFields)
  {
    ApartNamesAreDistinct(RowLevelAccessControlFields);
  }

  function EncodeRowLevelAccessControl(c: RowLevelAccessControl): JsonValue {
    Obj(Members(RowLevelAccessControlFields, [Str(c.name), EncodeProperties(c.requiredProperties), Str(c.condition)]))
  }

  function DecodeRowLevelAccessControl(v: JsonValue): (r: Result<RowLevelAccessControl, DecodeError>)
    ensures r.Success? ==> AllNormalized(r.value.requiredProperties)
  {
    var ms :- AsObject(v, "RowLevelAccessControl");
    var name :- Required(ms, "name", DecodeString);
    var requiredProperties :- WithDefault(ms, "requiredProperties", DecodeProperties, []);
    var condition :- Required(ms, "condition", DecodeString);
    Success(RowLevelAccessControl(name, requiredProperties, condition))
  }

  lemma RowLevelAccessControlRoundTrip(c: RowLevelAccessControl)
    requires AllNormalized(c.requiredProperties)
    ensures DecodeRowLevelAccessControl(EncodeRowLevelAccessControl(c)) == Success(c)
  {
    var values := [Str(c.name), EncodeProperties(c.requiredProperties), Str(c.condition)];
    RowLevelAccessControlFieldsDistinct();
    FieldOfMembers(RowLevelAccessControlFields, values, 0);
    FieldOfMembers(RowLevelAccessControlFields, values, 1);
    FieldOfMembers(RowLevelAccessControlFields, values, 2);
    PropertiesRoundTrip(c.requiredProperties);
  }

  /** `requiredProperties` may be left out and is then empty. */
  lemma RowLevelAccessControlDefaults(name: string, condition: string)
    ensures DecodeRowLevelAccessControl(Obj([Member("name", Str(name)), Member("condition", Str(condition))]))
         == Success(RowLevelAccessControl(name, [], condition))
  {
    var ms := [Member("name", Str(name)), Member("condition", Str(condition))];
    FieldFound(ms, "name", 0);
    FieldMissing(ms, "requiredProperties");
    FieldFound(ms, "condition", 1);
  }

  /** The threshold travels as its text rendering; the empty text makes `NormalizedExpr::new` panic. */
  function DecodeThreshold(v: JsonValue): (r: Result<NormalizedExpr, DecodeError>)
    ensures !v.Str? ==> r == Failure(InvalidType("a string"))
    ensures v == Str("") ==> r == Failure(EmptyExprPanic)
    ensures r.Success? ==> v == Str(Render(r.value))
  {
    if !v.Str? then Failure(InvalidType("a string"))
    else if v.s == [] then Failure(EmptyExprPanic)
    else Success(FromStr(v.s).value)
  }

  function EncodeThreshold(x: NormalizedExpr): JsonValue {
    Str(Render(x))
  }

  /** The thresholds the wire form carries unchanged. */
  predicate ThresholdRoundTrips(x: NormalizedExpr) {
    Render(x) != [] && RoundTrips(x)
  }

  lemma ThresholdRoundTrip(x: NormalizedExpr)
    requires Render(x) != []
    ensures DecodeThreshold(EncodeThreshold(x)) == Success(x) <==> RoundTrips(x)
  {
    NewRender(x);
  }

  datatype ColumnLevelAccessControl = ColumnLevelAccessControl(
    name: string,
    requiredProperties: seq<SessionProperty>,
    operator: ColumnLevelOperator,
    threshold: NormalizedExpr)

  const ColumnLevelAccessControlFields: seq<string> := ["name", "requiredProperties", "operator", "threshold"]

  lemma ColumnLevelAccessControlFieldsDistinct()
    ensures Distinct(ColumnLevelAccessControlFields)
  {
    ApartNamesAreDistinct(ColumnLevelAccessControlFields);
  }

  function EncodeColumnLevelAccessControl(c: ColumnLevelAccessControl): JsonValue {
    Obj(Members(ColumnLevelAccessControlFields,
      [Str(c.name), EncodeProperties(c.requiredProperties), EncodeOperator(c.operator), EncodeThreshold(c.threshold)]))
  }

  function DecodeColumnLevelAccessControl(v: JsonValue): (r: Result<ColumnLevelAccessControl, DecodeError>)
    ensures r.Success? ==> AllNormalized(r.value.requiredProperties) && Render(r.value.threshold) != []
  {
    var ms :- AsObject(v, "ColumnLevelAccessControl");
    var name :- Required(ms, "name", DecodeString);
    var requiredProperties :- Required(ms, "requiredProperties", DecodeProperties);
    var operator :- Required(ms, "operator", DecodeOperator);
    var threshold :- Required(ms, "threshold", DecodeThreshold);
    Success(ColumnLevelAccessControl(name, requiredProperties, operator, threshold))
  }

  predicate ColumnLevelAccessControlWellFormed(c: ColumnLevelAccessControl) {
    AllNormalized(c.requiredProperties) && ThresholdRoundTrips(c.threshold)
  }

  lemma ColumnLevelAccessControlRoundTrip(c: ColumnLevelAccessControl)
    requires ColumnLevelAccessControlWellFormed(c)
    ensures DecodeColumnLevelAccessControl(EncodeColumnLevelAccessControl(c)) == Success(c)
  {
    var values := [Str(c.name), EncodeProperties(c.requiredProperties), EncodeOperator(c.operator), EncodeThreshold(c.threshold)];
    ColumnLevelAccessControlFieldsDistinct();
    FieldOfMembers(ColumnLevelAccessControlFields, values, 0);
    FieldOfMembers(ColumnLevelAccessControlFields, values, 1);
    FieldOfMembers(ColumnLevelAccessControlFields, values, 2);
    FieldOfMembers(ColumnLevelAccessControlFields, values, 3);
    PropertiesRoundTrip(c.requiredProperties);
    OperatorRoundTrip(c.operator);
    ThresholdRoundTrip(c.threshold);
  }

  function DecodeOptionalAccessControl(v: JsonValue): Result<Option<ColumnLevelAccessControl>, DecodeError> {
    DecodeOption(v, DecodeColumnLevelAccessControl)
  }

  function EncodeOptionalAccessControl(o: Option<ColumnLevelAccessControl>): JsonValue {
    EncodeOption(o, EncodeColumnLevelAccessControl)
  }

  lemma OptionalAccessControlRoundTrip(o: Option<ColumnLevelAccessControl>)
    requires o.Some? ==> ColumnLevelAccessControlWellFormed(o.value)
    ensures DecodeOptionalAccessControl(EncodeOptionalAccessControl(o)) == Success(o)
  {
    if o.Some? {
      ColumnLevelAccessControlRoundTrip(o.value);
    }
  }

  // ---------------------------------------------------------------------------
  // Column

  /** `NoneAsEmptyString` decode: the empty string and null are `None`. */
  function DecodeNoneAsEmptyString(v: JsonValue): (r: Result<Option<string>, DecodeError>)
    ensures r.Success? ==> r.value != Some([])
    ensures r == Success(None) <==> v == Str([]) || v.Null?
    ensures r.Success? && r.value.Some? ==> v == Str(r.value.value)
    ensures r.Failure? <==> !v.Str? && !v.Null?
  {
    match v
    case Null => Success(None)
    case Str(s) => if s == [] then Success(None) else Success(Some(s))
    case _ => Failure(InvalidType("a string"))
  }

  /** `NoneAsEmptyString` encode: `None` is written as the empty string. */
  function EncodeNoneAsEmptyString(o: Option<string>): (v: JsonValue)
    ensures v.Str?
  {
    match o
    case None => Str([])
    case Some(s) => Str(s)
  }

  lemma NoneAsEmptyStringRoundTrip(o: Option<string>)
    ensures DecodeNoneAsEmptyString(EncodeNoneAsEmptyString(o)) == Success(o) <==> o != Some([])
  {
  }

  datatype Column = Column(
    name: string,
    columnType: string,                 // `type` on the wire
    relationship: Option<string>,
    isCalculated: bool,
    notNull: bool,
    expression: Option<string>,
    isHidden: bool,
    columnLevelAccessControl: Option<ColumnLevelAccessControl>)

  const ColumnFields: seq<string> :=
    ["name", "type", "relationship", "isCalculated", "notNull", "expression", "isHidden", "columnLevelAccessControl"]

  lemma ColumnFieldsDistinct()
    ensures Distinct(ColumnFields)
  {
    ApartNamesAreDistinct(ColumnFields);
  }

  function ColumnValues(c: Column): seq<JsonValue> {
    [Str(c.name), Str(c.columnType), EncodeOptionalString(c.relationship), EncodeLegacyBool(c.isCalculated),
     EncodeLegacyBool(c.notNull), EncodeNoneAsEmptyString(c.expression), EncodeLegacyBool(c.isHidden),
     EncodeOptionalAccessControl(c.columnLevelAccessControl)]
  }

  function EncodeColumn(c: Column): JsonValue {
    Obj(Members(ColumnFields, ColumnValues(c)))
  }

  function DecodeColumn(v: JsonValue): (r: Result<Column, DecodeError>)
    ensures r.Success? ==> r.value.expression != Some([])
  {
    var ms :- AsObject(v, "Column");
    var name :- Required(ms, "name", DecodeString);
    var columnType :- Required(ms, "type", DecodeString);
    var relationship :- WithDefault(ms, "relationship", DecodeOptionalString, None);
    var isCalculated :- WithDefault(ms, "isCalculated", DecodeLegacyBool, false);
    var notNull :- WithDefault(ms, "notNull", DecodeLegacyBool, false);
    var expression :- WithDefault(ms, "expression", DecodeNoneAsEmptyString, None);
    var isHidden :- WithDefault(ms, "isHidden", DecodeLegacyBool, false);
    var columnLevelAccessControl :- WithDefault(ms, "columnLevelAccessControl", DecodeOptionalAccessControl, None);
    Success(Column(name, columnType, relationship, isCalculated, notNull, expression, isHidden, columnLevelAccessControl))
  }

  predicate ColumnWellFormed(c: Column) {
    c.expression != Some([])
    && (c.columnLevelAccessControl.Some? ==> ColumnLevelAccessControlWellFormed(c.columnLevelAccessControl.value))
  }

  /** The first four members of an encoded column read back as the column's fields. */
  lemma ColumnLeadingFields(c: Column)
    ensures var ms := Members(ColumnFields, ColumnValues(c));
      && Required(ms, "name", DecodeString) == Success(c.name)
      && Required(ms, "type", DecodeString) == Success(c.columnType)
      && WithDefault(ms, "relationship", DecodeOptionalString, None) == Success(c.relationship)
      && WithDefault(ms, "isCalculated", DecodeLegacyBool, false) == Success(c.isCalculated)
  {
    var values := ColumnValues(c);
    ColumnFieldsDistinct();
    FieldOfMembers(ColumnFields, values, 0);
    FieldOfMembers(ColumnFields, values, 1);
    FieldOfMembers(ColumnFields, values, 2);
    FieldOfMembers(ColumnFields, values, 3);
    OptionalStringRoundTrip(c.relationship);
  }

  /** The last four members of an encoded well-formed column read back as the column's fields. */
  lemma ColumnTrailingFields(c: Column)
    requires ColumnWellFormed(c)
    ensures var ms := Members(ColumnFields, ColumnValues(c));
      && WithDefault(ms, "notNull", DecodeLegacyBool, false) == Success(c.notNull)
      && WithDefault(ms, "expression", DecodeNoneAsEmptyString, None) == Success(c.expression)
      && WithDefault(ms, "isHidden", DecodeLegacyBool, false) == Success(c.isHidden)
      && WithDefault(ms, "columnLevelAccessControl", DecodeOptionalAccessControl, None) == Success(c.columnLevelAccessControl)
  {
    var values := ColumnValues(c);
    ColumnFieldsDistinct();
    FieldOfMembers(ColumnFields, values, 4);
    FieldOfMembers(ColumnFields, values, 5);
    FieldOfMembers(ColumnFields, values, 6);
    FieldOfMembers(ColumnFields, values, 7);
    NoneAsEmptyStringRoundTrip(c.expression);
    OptionalAccessControlRoundTrip(c.columnLevelAccessControl);
  }

  lemma ColumnRoundTrip(c: Column)
    requires ColumnWellFormed(c)
    ensures DecodeColumn(EncodeColumn(c)) == Success(c)
  {
    ColumnLeadingFields(c);
    ColumnTrailingFields(c);
  }

  /** Only `name` and `type` are required; the flags default to false and the rest to `None`. */
  lemma ColumnDefaults(name: string, columnType: string)
    ensures DecodeColumn(Obj([Member("name", Str(name)), Member("type", Str(columnType))]))
         == Success(Column(name, columnType, None, false, false, None, false, None))
    ensures DecodeColumn(Obj([Member("name", Str(name))])) == Failure(MissingField("type"))
  {
    var ms := [Member("name", Str(name)), Member("type", Str(columnType))];
    FieldFound(ms, "name", 0);
    FieldFound(ms, "type", 1);
    OptionalColumnFieldsMissing(ms);
    FieldFound([Member("name", Str(name))], "name", 0);
    FieldMissing([Member("name", Str(name))], "type");
  }

  /** The six optional column fields are absent from an object holding only `name` and `type`. */
  lemma OptionalColumnFieldsMissing(ms: seq<Member>)
    requires forall j | 0 <= j < |ms| :: ms[j].key in {"name", "type"}
    ensures Field(ms, "relationship") == Success(None)
    ensures Field(ms, "isCalculated") == Success(None)
    ensures Field(ms, "notNull") == Success(None)
    ensures Field(ms, "expression") == Success(None)
    ensures Field(ms, "isHidden") == Success(None)
    ensures Field(ms, "columnLevelAccessControl") == Success(None)
  {
    FieldMissing(ms, "relationship");
    FieldMissing(ms, "isCalculated");
    FieldMissing(ms, "notNull");
    FieldMissing(ms, "expression");
    FieldMissing(ms, "isHidden");
    FieldMissing(ms, "columnLevelAccessControl");
  }

  /** The flags take the legacy integers: zero is false, any other is true. */
  lemma ColumnLegacyFlags(name: string, columnType: string)
    ensures DecodeColumn(Obj(LegacyFlagMembers(name, columnType)))
         == Success(Column(name, columnType, None, true, false, None, true, None))
  {
    LegacyFlagFields(name, columnType);
    LegacyFlagTrailingFields(name, columnType);
  }

  /** A column object with the three flags written as integers 1, 0 and 7. */
  function LegacyFlagMembers(name: string, columnType: string): seq<Member> {
    [Member("name", Str(name)), Member("type", Str(columnType)),
     Member("isCalculated", UInt(1)), Member("notNull", UInt(0)), Member("isHidden", UInt(7))]
  }

  lemma LegacyFlagFields(name: string, columnType: string)
    ensures var ms := LegacyFlagMembers(name, columnType);
      && Field(ms, "name") == Success(Some(Str(name)))
      && Field(ms, "type") == Success(Some(Str(columnType)))
      && Field(ms, "relationship") == Success(None)
      && Field(ms, "isCalculated") == Success(Some(UInt(1)))
  {
    var ms := LegacyFlagMembers(name, columnType);
    FieldFound(ms, "name", 0);
    FieldFound(ms, "type", 1);
    FieldMissing(ms, "relationship");
    FieldFound(ms, "isCalculated", 2);
  }

  lemma LegacyFlagTrailingFields(name: string, columnType: string)
    ensures var ms := LegacyFlagMembers(name, columnType);
      && Field(ms, "notNull") == Success(Some(UInt(0)))
      && Field(ms, "expression") == Success(None)
      && Field(ms, "isHidden") == Success(Some(UInt(7)))
      && Field(ms, "columnLevelAccessControl") == Success(None)
  {
    var ms := LegacyFlagMembers(name, columnType);
    FieldFound(ms, "notNull", 3);
    FieldMissing(ms, "expression");
    FieldFound(ms, "isHidden", 4);
    FieldMissing(ms, "columnLevelAccessControl");
  }

  /** An explicit null is not a boolean: the flags have a default, not an `Option`. */
  lemma ColumnNullFlagRejected(name: string, columnType: string)
    ensures DecodeColumn(Obj([Member("name", Str(name)), Member("type", Str(columnType)), Member("notNull", Null)]))
         == Failure(InvalidBoolean)
  {
    var ms := [Member("name", Str(name)), Member("type", Str(columnType)), Member("notNull", Null)];
    FieldFound(ms, "name", 0);
    FieldFound(ms, "type", 1);
    FieldMissing(ms, "relationship");
    FieldMissing(ms, "isCalculated");
    FieldFound(ms, "notNull", 2);
  }

  /** An empty expression reads as absent and is written back as the empty string. */
  lemma ColumnEmptyExpression(name: string, columnType: string)
    ensures DecodeColumn(Obj(EmptyExpressionMembers(name, columnType)))
         == Success(Column(name, columnType, None, false, false, None, false, None))
    ensures ColumnValues(Column(name, columnType, None, false, false, None, false, None))[5] == Str([])
  {
    var ms := EmptyExpressionMembers(name, columnType);
    FieldFound(ms, "name", 0);
    FieldFound(ms, "type", 1);
    FieldFound(ms, "expression", 2);
    EmptyExpressionMissingFields(name, columnType);
  }

  /** A column object whose expression is the empty string. */
  function EmptyExpressionMembers(name: string, columnType: string): seq<Member> {
    [Member("name", Str(name)), Member("type", Str(columnType)), Member("expression", Str([]))]
  }

  lemma EmptyExpressionMissingFields(name: string, columnType: string)
    ensures var ms := EmptyExpressionMembers(name, columnType);
      && Field(ms, "relationship") == Success(None)
      && Field(ms, "isCalculated") == Success(None)
      && Field(ms, "notNull") == Success(None)
      && Field(ms, "isHidden") == Success(None)
      && Field(ms, "columnLevelAccessControl") == Success(None)
  {
    var ms := EmptyExpressionMembers(name, columnType);
    FieldMissing(ms, "relationship");
    FieldMissing(ms, "isCalculated");
    FieldMissing(ms, "notNull");
    FieldMissing(ms, "isHidden");
    FieldMissing(ms, "columnLevelAccessControl");
  }

  function EncodeColumns(cs: seq<Column>): JsonValue {
    Arr(EncodeEach(cs, EncodeColumn))
  }

  predicate NoEmptyExpression(cs: seq<Column>) {
    forall i | 0 <= i < |cs| :: cs[i].expression != Some([])
  }

  function DecodeColumns(v: JsonValue): (r: Result<seq<Column>, DecodeError>)
    ensures r.Success? ==> NoEmptyExpression(r.value)
  {
    DecodeArray(v, DecodeColumn)
  }

  predicate ColumnsWellFormed(cs: seq<Column>) {
    forall i | 0 <= i < |cs| :: ColumnWellFormed(cs[i])
  }

  lemma ColumnsRoundTrip(cs: seq<Column>)
    requires ColumnsWellFormed(cs)
    ensures DecodeColumns(EncodeColumns(cs)) == Success(cs)
  {
    forall c | c in cs ensures DecodeColumn(EncodeColumn(c)) == Success(c) {
      ColumnRoundTrip(c);
    }
    EachRoundTrip(cs, EncodeColumn, DecodeColumn);
  }

  // ---------------------------------------------------------------------------
  // Relationship, TimeGrain, Metric, View

  datatype Relationship = Relationship(name: string, models: seq<string>, joinType: JoinType, condition: string)

  const RelationshipFields: seq<string> := ["name", "models", "joinType", "condition"]

  lemma RelationshipFieldsDistinct()
    ensures Distinct(RelationshipFields)
  {
    ApartNamesAreDistinct(RelationshipFields);
  }

  function EncodeStrings(ss: seq<string>): JsonValue {
    Arr(EncodeEach(ss, s => Str(s)))
  }

  function DecodeStrings(v: JsonValue): Result<seq<string>, DecodeError> {
    DecodeArray(v, DecodeString)
  }

  lemma StringsRoundTrip(ss: seq<string>)
    ensures DecodeStrings(EncodeStrings(ss)) == Success(ss)
  {
    EachRoundTrip(ss, s => Str(s), DecodeString);
  }

  function EncodeRelationship(r: Relationship): JsonValue {
    Obj(Members(RelationshipFields, [Str(r.name), EncodeStrings(r.models), EncodeJoinType(r.joinType), Str(r.condition)]))
  }

  function DecodeRelationship(v: JsonValue): Result<Relationship, DecodeError> {
    var ms :- AsObject(v, "Relationship");
    var name :- Required(ms, "name", DecodeString);
    var models :- Required(ms, "models", DecodeStrings);
    var joinType :- Required(ms, "joinType", DecodeJoinType);
    var condition :- Required(ms, "condition", DecodeString);
    Success(Relationship(name, models, joinType, condition))
  }

  lemma RelationshipRoundTrip(r: Relationship)
    ensures DecodeRelationship(EncodeRelationship(r)) == Success(r)
  {
    var values := [Str(r.name), EncodeStrings(r.models), EncodeJoinType(r.joinType), Str(r.condition)];
    RelationshipFieldsDistinct();
    FieldOfMembers(RelationshipFields, values, 0);
    FieldOfMembers(RelationshipFields, values, 1);
    FieldOfMembers(RelationshipFields, values, 2);
    FieldOfMembers(RelationshipFields, values, 3);
    StringsRoundTrip(r.models);
    JoinTypeRoundTrip(r.joinType);
  }

  function EncodeRelationships(rs: seq<Relationship>): JsonValue {
    Arr(EncodeEach(rs, EncodeRelationship))
  }

  function DecodeRelationships(v: JsonValue): Result<seq<Relationship>, DecodeError> {
    DecodeArray(v, DecodeRelationship)
  }

  lemma RelationshipsRoundTrip(rs: seq<Relationship>)
    ensures DecodeRelationships(EncodeRelationships(rs)) == Success(rs)
  {
    forall r | r in rs ensures DecodeRelationship(EncodeRelationship(r)) == Success(r) {
      RelationshipRoundTrip(r);
    }
    EachRoundTrip(rs, EncodeRelationship, DecodeRelationship);
  }

  datatype TimeGrain = TimeGrain(name: string, refColumn: string, dateParts: seq<TimeUnit>)

  const TimeGrainFields: seq<string> := ["name", "refColumn", "dateParts"]

  lemma TimeGrainFieldsDistinct()
    ensures Distinct(TimeGrainFields)
  {
    ApartNamesAreDistinct(TimeGrainFields);
  }

  function EncodeTimeUnits(us: seq<TimeUnit>): JsonValue {
    Arr(EncodeEach(us, EncodeTimeUnit))
  }

  function DecodeTimeUnits(v: JsonValue): Result<seq<TimeUnit>, DecodeError> {
    DecodeArray(v, DecodeTimeUnit)
  }

  lemma TimeUnitsRoundTrip(us: seq<TimeUnit>)
    ensures DecodeTimeUnits(EncodeTimeUnits(us)) == Success(us)
  {
    forall u | u in us ensures DecodeTimeUnit(EncodeTimeUnit(u)) == Success(u) {
      TimeUnitRoundTrip(u);
    }
    EachRoundTrip(us, EncodeTimeUnit, DecodeTimeUnit);
  }

  function EncodeTimeGrain(g: TimeGrain): JsonValue {
    Obj(Members(TimeGrainFields, [Str(g.name), Str(g.refColumn), EncodeTimeUnits(g.dateParts)]))
  }

  function DecodeTimeGrain(v: JsonValue): Result<TimeGrain, DecodeError> {
    var ms :- AsObject(v, "TimeGrain");
    var name :- Required(ms, "name", DecodeString);
    var refColumn :- Required(ms, "refColumn", DecodeString);
    var dateParts :- Required(ms, "dateParts", DecodeTimeUnits);
    Success(TimeGrain(name, refColumn, dateParts))
  }

  lemma TimeGrainRoundTrip(g: TimeGrain)
    ensures DecodeTimeGrain(EncodeTimeGrain(g)) == Success(g)
  {
    var values := [Str(g.name), Str(g.refColumn), EncodeTimeUnits(g.dateParts)];
    TimeGrainFieldsDistinct();
    FieldOfMembers(TimeGrainFields, values, 0);
    FieldOfMembers(TimeGrainFields, values, 1);
    FieldOfMembers(TimeGrainFields, values, 2);
    TimeUnitsRoundTrip(g.dateParts);
  }

  function EncodeTimeGrains(gs: seq<TimeGrain>): JsonValue {
    Arr(EncodeEach(gs, EncodeTimeGrain))
  }

  function DecodeTimeGrains(v: JsonValue): Result<seq<TimeGrain>, DecodeError> {
    DecodeArray(v, DecodeTimeGrain)
  }

  lemma TimeGrainsRoundTrip(gs: seq<TimeGrain>)
    ensures DecodeTimeGrains(EncodeTimeGrains(gs)) == Success(gs)
  {
    forall g | g in gs ensures DecodeTimeGrain(EncodeTimeGrain(g)) == Success(g) {
      TimeGrainRoundTrip(g);
    }
    EachRoundTrip(gs, EncodeTimeGrain, DecodeTimeGrain);
  }

  datatype Metric = Metric(
    name: string,
    baseObject: string,
    dimension: seq<Column>,
    measure: seq<Column>,
    timeGrain: seq<TimeGrain>,
    cached: bool,
    refreshTime: Option<string>)

  const MetricFields: seq<string> := ["name", "baseObject", "dimension", "measure", "timeGrain", "cached", "refreshTime"]

  lemma MetricFieldsDistinct()
    ensures Distinct(MetricFields)
  {
    ApartNamesAreDistinct(MetricFields);
  }

  function MetricValues(m: Metric): seq<JsonValue> {
    [Str(m.name), Str(m.baseObject), EncodeColumns(m.dimension), EncodeColumns(m.measure),
     EncodeTimeGrains(m.timeGrain), EncodeLegacyBool(m.cached), EncodeOptionalString(m.refreshTime)]
  }

  function EncodeMetric(m: Metric): JsonValue {
    Obj(Members(MetricFields, MetricValues(m)))
  }

  function DecodeMetric(v: JsonValue): (r: Result<Metric, DecodeError>)
    ensures r.Success? ==> NoEmptyExpression(r.value.dimension) && NoEmptyExpression(r.value.measure)
  {
    var ms :- AsObject(v, "Metric");
    var name :- Required(ms, "name", DecodeString);
    var baseObject :- Required(ms, "baseObject", DecodeString);
    var dimension :- Required(ms, "dimension", DecodeColumns);
    var measure :- Required(ms, "measure", DecodeColumns);
    var timeGrain :- Required(ms, "timeGrain", DecodeTimeGrains);
    var cached :- WithDefault(ms, "cached", DecodeLegacyBool, false);
    var refreshTime :- WithDefault(ms, "refreshTime", DecodeOptionalString, None);
    Success(Metric(name, baseObject, dimension, measure, timeGrain, cached, refreshTime))
  }

  predicate MetricWellFormed(m: Metric) {
    ColumnsWellFormed(m.dimension) && ColumnsWellFormed(m.measure)
  }

  /** The members of an encoded metric read back as the metric's fields. */
  lemma MetricFieldsRead(m: Metric)
    requires MetricWellFormed(m)
    ensures var ms := Members(MetricFields, MetricValues(m));
      && Required(ms, "name", DecodeString) == Success(m.name)
      && Required(ms, "baseObject", DecodeString) == Success(m.baseObject)
      && Required(ms, "dimension", DecodeColumns) == Success(m.dimension)
      && Required(ms, "measure", DecodeColumns) == Success(m.measure)
      && Required(ms, "timeGrain", DecodeTimeGrains) == Success(m.timeGrain)
      && WithDefault(ms, "cached", DecodeLegacyBool, false) == Success(m.cached)
      && WithDefault(ms, "refreshTime", DecodeOptionalString, None) == Success(m.refreshTime)
  {
    var values := MetricValues(m);
    MetricFieldsDistinct();
    FieldOfMembers(MetricFields, values, 0);
    FieldOfMembers(MetricFields, values, 1);
    FieldOfMembers(MetricFields, values, 2);
    FieldOfMembers(MetricFields, values, 3);
    FieldOfMembers(MetricFields, values, 4);
    FieldOfMembers(MetricFields, values, 5);
    FieldOfMembers(MetricFields, values, 6);
    ColumnsRoundTrip(m.dimension);
    ColumnsRoundTrip(m.measure);
    TimeGrainsRoundTrip(m.timeGrain);
    OptionalStringRoundTrip(m.refreshTime);
  }

  lemma MetricRoundTrip(m: Metric)
    requires MetricWellFormed(m)
    ensures DecodeMetric(EncodeMetric(m)) == Success(m)
  {
    MetricFieldsRead(m);
  }

  /** A metric decodes to the fields its seven members read as. */
  lemma DecodeMetricOfFields(ms: seq<Member>, m: Metric)
    requires Required(ms, "name", DecodeString) == Success(m.name)
    requires Required(ms, "baseObject", DecodeString) == Success(m.baseObject)
    requires Required(ms, "dimension", DecodeColumns) == Success(m.dimension)
    requires Required(ms, "measure", DecodeColumns) == Success(m.measure)
    requires Required(ms, "timeGrain", DecodeTimeGrains) == Success(m.timeGrain)
    requires WithDefault(ms, "cached", DecodeLegacyBool, false) == Success(m.cached)
    requires WithDefault(ms, "refreshTime", DecodeOptionalString, None) == Success(m.refreshTime)
    ensures DecodeMetric(Obj(ms)) == Success(m)
  {
  }

  /** The members every metric must carry. */
  const MetricRequiredFields: seq<string> := ["name", "baseObject", "dimension", "measure", "timeGrain"]

  function MetricRequiredValues(m: Metric): seq<JsonValue> {
    [Str(m.name), Str(m.baseObject), EncodeColumns(m.dimension), EncodeColumns(m.measure), EncodeTimeGrains(m.timeGrain)]
  }

  lemma MetricRequiredFieldsDistinct()
    ensures Distinct(MetricRequiredFields)
  {
    ApartNamesAreDistinct(MetricRequiredFields);
  }

  lemma MetricRequiredFieldsRead(m: Metric)
    requires MetricWellFormed(m)
    ensures var ms := Members(MetricRequiredFields, MetricRequiredValues(m));
      && Required(ms, "name", DecodeString) == Success(m.name)
      && Required(ms, "baseObject", DecodeString) == Success(m.baseObject)
      && Required(ms, "dimension", DecodeColumns) == Success(m.dimension)
      && Required(ms, "measure", DecodeColumns) == Success(m.measure)
      && Required(ms, "timeGrain", DecodeTimeGrains) == Success(m.timeGrain)
  {
    var values := MetricRequiredValues(m);
    MetricRequiredFieldsDistinct();
    FieldOfMembers(MetricRequiredFields, values, 0);
    FieldOfMembers(MetricRequiredFields, values, 1);
    FieldOfMembers(MetricRequiredFields, values, 2);
    FieldOfMembers(MetricRequiredFields, values, 3);
    FieldOfMembers(MetricRequiredFields, values, 4);
    ColumnsRoundTrip(m.dimension);
    ColumnsRoundTrip(m.measure);
    TimeGrainsRoundTrip(m.timeGrain);
  }

  /**
    Only the first five fields are required: an encoded metric without its `cached` and
    `refreshTime` members decodes with `cached` false and `refreshTime` `None`.
  */
  lemma MetricDefaults(m: Metric)
    requires MetricWellFormed(m)
    ensures DecodeMetric(Obj(Members(MetricRequiredFields, MetricRequiredValues(m))))
         == Success(m.(cached := false, refreshTime := None))
  {
    MetricRequiredFieldsRead(m);
    MetricOptionalFieldsAbsent(m);
  }

  lemma MetricOptionalFieldsAbsent(m: Metric)
    ensures var ms := Members(MetricRequiredFields, MetricRequiredValues(m));
      Field(ms, "cached") == Success(None) && Field(ms, "refreshTime") == Success(None)
  {
    FieldAbsent(MetricRequiredFields, MetricRequiredValues(m), "cached");
    FieldAbsent(MetricRequiredFields, MetricRequiredValues(m), "refreshTime");
  }

  /** `cached` goes through the legacy boolean codec: the integer `n` reads as `n != 0`. */
  lemma MetricLegacyCached(m: Metric, n: nat)
    requires MetricWellFormed(m)
    ensures DecodeMetric(Obj(Members(MetricFields, MetricValues(m)[5 := UInt(n)])))
         == Success(m.(cached := n != 0))
  {
    var values := MetricValues(m)[5 := UInt(n)];
    MetricFieldsDistinct();
    FieldOfMembers(MetricFields, values, 0);
    FieldOfMembers(MetricFields, values, 1);
    FieldOfMembers(MetricFields, values, 2);
    FieldOfMembers(MetricFields, values, 3);
    FieldOfMembers(MetricFields, values, 4);
    FieldOfMembers(MetricFields, values, 5);
    FieldOfMembers(MetricFields, values, 6);
    ColumnsRoundTrip(m.dimension);
    ColumnsRoundTrip(m.measure);
    TimeGrainsRoundTrip(m.timeGrain);
    OptionalStringRoundTrip(m.refreshTime);
    DecodeMetricOfFields(Members(MetricFields, values), m.(cached := n != 0));
  }

  function EncodeMetrics(ms: seq<Metric>): JsonValue {
    Arr(EncodeEach(ms, EncodeMetric))
  }

  function DecodeMetrics(v: JsonValue): Result<seq<Metric>, DecodeError> {
    DecodeArray(v, DecodeMetric)
  }

  lemma MetricsRoundTrip(ms: seq<Metric>)
    requires forall i | 0 <= i < |ms| :: MetricWellFormed(ms[i])
    ensures DecodeMetrics(EncodeMetrics(ms)) == Success(ms)
  {
    forall x | x in ms ensures DecodeMetric(EncodeMetric(x)) == Success(x) {
      MetricRoundTrip(x);
    }
    EachRoundTrip(ms, EncodeMetric, DecodeMetric);
  }

  datatype View = View(name: string, statement: string)

  const ViewFields: seq<string> := ["name", "statement"]

  lemma ViewFieldsDistinct()
    ensures Distinct(ViewFields)
  {
    ApartNamesAreDistinct(ViewFields);
  }

  function EncodeView(w: View): JsonValue {
    Obj(Members(ViewFields, [Str(w.name), Str(w.statement)]))
  }

  function DecodeView(v: JsonValue): Result<View, DecodeError> {
    var ms :- AsObject(v, "View");
    var name :- Required(ms, "name", DecodeString);
    var statement :- Required(ms, "statement", DecodeString);
    Success(View(name, statement))
  }

  lemma ViewRoundTrip(w: View)
    ensures DecodeView(EncodeView(w)) == Success(w)
  {
    ViewFieldsDistinct();
    FieldOfMembers(ViewFields, [Str(w.name), Str(w.statement)], 0);
    FieldOfMembers(ViewFields, [Str(w.name), Str(w.statement)], 1);
  }

  function EncodeViews(ws: seq<View>): JsonValue {
    Arr(EncodeEach(ws, EncodeView))
  }

  function DecodeViews(v: JsonValue): Result<seq<View>, DecodeError> {
    DecodeArray(v, DecodeView)
  }

  lemma ViewsRoundTrip(ws: seq<View>)
    ensures DecodeViews(EncodeViews(ws)) == Success(ws)
  {
    forall w | w in ws ensures DecodeView(EncodeView(w)) == Success(w) {
      ViewRoundTrip(w);
    }
    EachRoundTrip(ws, EncodeView, DecodeView);
  }

  // ---------------------------------------------------------------------------
  // Model

  datatype Model = Model(
    name: string,
    refSql: Option<string>,
    baseObject: Option<string>,
    tableReference: Option<string>,
    columns: seq<Column>,
    primaryKey: Option<string>,
    cached: bool,
    refreshTime: Option<string>,
    rowLevelAccessControls: seq<RowLevelAccessControl>)

  const ModelFields: seq<string> :=
    ["name", "refSql", "baseObject", "tableReference", "columns", "primaryKey", "cached", "refreshTime", "rowLevelAccessControls"]

  lemma ModelFieldsDistinct()
    ensures Distinct(ModelFields)
  {
    ApartNamesAreDistinct(ModelFields);
  }

  function EncodeRowLevelAccessControls(cs: seq<RowLevelAccessControl>): JsonValue {
    Arr(EncodeEach(cs, EncodeRowLevelAccessControl))
  }

  function DecodeRowLevelAccessControls(v: JsonValue): Result<seq<RowLevelAccessControl>, DecodeError> {
    DecodeArray(v, DecodeRowLevelAccessControl)
  }

  predicate RowLevelAccessControlsWellFormed(cs: seq<RowLevelAccessControl>) {
    forall i | 0 <= i < |cs| :: AllNormalized(cs[i].requiredProperties)
  }

  lemma RowLevelAccessControlsRoundTrip(cs: seq<RowLevelAccessControl>)
    requires RowLevelAccessControlsWellFormed(cs)
    ensures DecodeRowLevelAccessControls(EncodeRowLevelAccessControls(cs)) == Success(cs)
  {
    forall c | c in cs ensures DecodeRowLevelAccessControl(EncodeRowLevelAccessControl(c)) == Success(c) {
      RowLevelAccessControlRoundTrip(c);
    }
    EachRoundTrip(cs, EncodeRowLevelAccessControl, DecodeRowLevelAccessControl);
  }

  function ModelValues(m: Model, tableReference: JsonValue): seq<JsonValue> {
    [Str(m.name), EncodeOptionalString(m.refSql), EncodeOptionalString(m.baseObject), tableReference,
     EncodeColumns(m.columns), EncodeOptionalString(m.primaryKey), EncodeLegacyBool(m.cached),
     EncodeOptionalString(m.refreshTime), EncodeRowLevelAccessControls(m.rowLevelAccessControls)]
  }

  /** Fails exactly when the table reference cannot be encoded. */
  function EncodeModel(m: Model): (r: Result<JsonValue, EncodeError>)
    ensures r.Failure? <==> EncodeTableRef(m.tableReference).Failure?
    ensures r.Failure? ==> r.error == EncodeTableRef(m.tableReference).error
  {
    var tableReference :- EncodeTableRef(m.tableReference);
    Success(Obj(Members(ModelFields, ModelValues(m, tableReference))))
  }

  /** `tableReference` goes through the table-reference codec and is absent by default. */
  function TableReferenceField(ms: seq<Member>): (r: Result<Option<string>, DecodeError>)
    ensures Field(ms, "tableReference") == Success(None) ==> r == Success(None)
    ensures r.Success? ==> r.value != Some([])
  {
    WithDefault(ms, "tableReference", DecodeTableRef, None)
  }

  function DecodeModel(v: JsonValue): (r: Result<Model, DecodeError>)
    ensures r.Success? ==> r.value.tableReference != Some([])
  {
    var ms :- AsObject(v, "Model");
    var name :- Required(ms, "name", DecodeString);
    var refSql :- WithDefault(ms, "refSql", DecodeOptionalString, None);
    var baseObject :- WithDefault(ms, "baseObject", DecodeOptionalString, None);
    var tableReference :- TableReferenceField(ms);
    var columns :- Required(ms, "columns", DecodeColumns);
    var primaryKey :- WithDefault(ms, "primaryKey", DecodeOptionalString, None);
    var cached :- WithDefault(ms, "cached", DecodeLegacyBool, false);
    var refreshTime :- WithDefault(ms, "refreshTime", DecodeOptionalString, None);
    var rowLevelAccessControls :- WithDefault(ms, "rowLevelAccessControls", DecodeRowLevelAccessControls, []);
    Success(Model(name, refSql, baseObject, tableReference, columns, primaryKey, cached, refreshTime, rowLevelAccessControls))
  }

  predicate ModelWellFormed(m: Model) {
    (m.tableReference.Some? ==> Canonical(m.tableReference.value))
    && ColumnsWellFormed(m.columns)
    && RowLevelAccessControlsWellFormed(m.rowLevelAccessControls)
  }

  /** The first five members of an encoded model read back as the model's fields. */
  lemma ModelLeadingFields(m: Model, tableReference: JsonValue)
    requires ModelWellFormed(m)
    requires DecodeTableRef(tableReference) == Success(m.tableReference)
    ensures var ms := Members(ModelFields, ModelValues(m, tableReference));
      && Required(ms, "name", DecodeString) == Success(m.name)
      && WithDefault(ms, "refSql", DecodeOptionalString, None) == Success(m.refSql)
      && WithDefault(ms, "baseObject", DecodeOptionalString, None) == Success(m.baseObject)
      && TableReferenceField(ms) == Success(m.tableReference)
      && Required(ms, "columns", DecodeColumns) == Success(m.columns)
  {
    var values := ModelValues(m, tableReference);
    ModelFieldsDistinct();
    FieldOfMembers(ModelFields, values, 0);
    FieldOfMembers(ModelFields, values, 1);
    FieldOfMembers(ModelFields, values, 2);
    FieldOfMembers(ModelFields, values, 3);
    FieldOfMembers(ModelFields, values, 4);
    OptionalStringRoundTrip(m.refSql);
    OptionalStringRoundTrip(m.baseObject);
    ColumnsRoundTrip(m.columns);
  }

  /** The last four members of an encoded model read back as the model's fields. */
  lemma ModelTrailingFields(m: Model, tableReference: JsonValue)
    requires ModelWellFormed(m)
    ensures var ms := Members(ModelFields, ModelValues(m, tableReference));
      && WithDefault(ms, "primaryKey", DecodeOptionalString, None) == Success(m.primaryKey)
      && WithDefault(ms, "cached", DecodeLegacyBool, false) == Success(m.cached)
      && WithDefault(ms, "refreshTime", DecodeOptionalString, None) == Success(m.refreshTime)
      && WithDefault(ms, "rowLevelAccessControls", DecodeRowLevelAccessControls, []) == Success(m.rowLevelAccessControls)
  {
    var values := ModelValues(m, tableReference);
    ModelFieldsDistinct();
    FieldOfMembers(ModelFields, values, 5);
    FieldOfMembers(ModelFields, values, 6);
    FieldOfMembers(ModelFields, values, 7);
    FieldOfMembers(ModelFields, values, 8);
    OptionalStringRoundTrip(m.primaryKey);
    OptionalStringRoundTrip(m.refreshTime);
    RowLevelAccessControlsRoundTrip(m.rowLevelAccessControls);
  }

  /** A model whose table reference is absent or canonical encodes, and decoding the result gives it back. */
  lemma ModelRoundTrip(m: Model)
    requires ModelWellFormed(m)
    ensures EncodeModel(m).Success?
    ensures DecodeModel(EncodeModel(m).value) == Success(m)
  {
    if m.tableReference.Some? {
      CanonicalRoundTrip(m.tableReference.value);
    }
    var tableReference := EncodeTableRef(m.tableReference).value;
    ModelLeadingFields(m, tableReference);
    ModelTrailingFields(m, tableReference);
  }

  /** Only `name` and `columns` are required; `cached` defaults to false, the rest to absent or empty. */
  lemma ModelDefaults(name: string)
    ensures DecodeModel(Obj([Member("name", Str(name)), Member("columns", Arr([]))]))
         == Success(Model(name, None, None, None, [], None, false, None, []))
  {
    var ms := [Member("name", Str(name)), Member("columns", Arr([]))];
    FieldFound(ms, "name", 0);
    FieldMissing(ms, "refSql");
    FieldMissing(ms, "baseObject");
    FieldMissing(ms, "tableReference");
    FieldFound(ms, "columns", 1);
    FieldMissing(ms, "primaryKey");
    FieldMissing(ms, "cached");
    FieldMissing(ms, "refreshTime");
    FieldMissing(ms, "rowLevelAccessControls");
  }

  lemma ModelRequiresColumns(name: string)
    ensures DecodeModel(Obj([Member("name", Str(name))])) == Failure(MissingField("columns"))
  {
    var ms := [Member("name", Str(name))];
    FieldFound(ms, "name", 0);
    FieldMissing(ms, "refSql");
    FieldMissing(ms, "baseObject");
    FieldMissing(ms, "tableReference");
    FieldMissing(ms, "columns");
  }

  // ---------------------------------------------------------------------------
  // Manifest

  datatype Manifest = Manifest(
    catalog: string,
    schema: string,
    models: seq<Model>,
    relationships: seq<Relationship>,
    metrics: seq<Metric>,
    views: seq<View>,
    dataSource: Option<DataSource>)

  const ManifestFields: seq<string> := ["catalog", "schema", "models", "relationships", "metrics", "views", "dataSource"]

  lemma ManifestFieldsDistinct()
    ensures Distinct(ManifestFields)
  {
    ApartNamesAreDistinct(ManifestFields);
  }

  function ManifestValues(m: Manifest, models: seq<JsonValue>): seq<JsonValue> {
    [Str(m.catalog), Str(m.schema), Arr(models), EncodeRelationships(m.relationships),
     EncodeMetrics(m.metrics), EncodeViews(m.views), EncodeOption(m.dataSource, EncodeDataSource)]
  }

  /** Fails exactly when some model's table reference cannot be encoded. */
  function EncodeManifest(m: Manifest): (r: Result<JsonValue, EncodeError>)
    ensures r.Success? <==> forall i | 0 <= i < |m.models| :: EncodeModel(m.models[i]).Success?
  {
    var models :- TryEncodeEach(m.models, EncodeModel);
    Success(Obj(Members(ManifestFields, ManifestValues(m, models))))
  }

  function DecodeModels(v: JsonValue): (r: Result<seq<Model>, DecodeError>)
    ensures r.Success? ==> forall i | 0 <= i < |r.value| :: r.value[i].tableReference != Some([])
  {
    DecodeArray(v, DecodeModel)
  }

  function DecodeOptionalDataSource(v: JsonValue): Result<Option<DataSource>, DecodeError> {
    DecodeOption(v, DecodeDataSource)
  }

  function DecodeManifest(v: JsonValue): (r: Result<Manifest, DecodeError>)
    ensures r.Success? ==> forall i | 0 <= i < |r.value.models| :: r.value.models[i].tableReference != Some([])
  {
    var ms :- AsObject(v, "Manifest");
    var catalog :- Required(ms, "catalog", DecodeString);
    var schema :- Required(ms, "schema", DecodeString);
    var models :- WithDefault(ms, "models", DecodeModels, []);
    var relationships :- WithDefault(ms, "relationships", DecodeRelationships, []);
    var metrics :- WithDefault(ms, "metrics", DecodeMetrics, []);
    var views :- WithDefault(ms, "views", DecodeViews, []);
    var dataSource :- WithDefault(ms, "dataSource", DecodeOptionalDataSource, None);
    Success(Manifest(catalog, schema, models, relationships, metrics, views, dataSource))
  }

  predicate ManifestWellFormed(m: Manifest) {
    (forall i | 0 <= i < |m.models| :: ModelWellFormed(m.models[i]))
    && forall i | 0 <= i < |m.metrics| :: MetricWellFormed(m.metrics[i])
  }

  /** The first three members of an encoded manifest read back as its fields. */
  lemma ManifestLeadingFields(m: Manifest, models: seq<JsonValue>)
    requires DecodeEach(models, DecodeModel) == Success(m.models)
    ensures var ms := Members(ManifestFields, ManifestValues(m, models));
      && Required(ms, "catalog", DecodeString) == Success(m.catalog)
      && Required(ms, "schema", DecodeString) == Success(m.schema)
      && WithDefault(ms, "models", DecodeModels, []) == Success(m.models)
  {
    var values := ManifestValues(m, models);
    ManifestFieldsDistinct();
    FieldOfMembers(ManifestFields, values, 0);
    FieldOfMembers(ManifestFields, values, 1);
    FieldOfMembers(ManifestFields, values, 2);
    assert DecodeModels(Arr(models)) == Success(m.models);
  }

  /** The relationships and metrics members of an encoded well-formed manifest read back as its fields. */
  lemma ManifestMiddleFields(m: Manifest, models: seq<JsonValue>)
    requires forall i | 0 <= i < |m.metrics| :: MetricWellFormed(m.metrics[i])
    ensures var ms := Members(ManifestFields, ManifestValues(m, models));
      && WithDefault(ms, "relationships", DecodeRelationships, []) == Success(m.relationships)
      && WithDefault(ms, "metrics", DecodeMetrics, []) == Success(m.metrics)
  {
    var values := ManifestValues(m, models);
    ManifestFieldsDistinct();
    FieldOfMembers(ManifestFields, values, 3);
    FieldOfMembers(ManifestFields, values, 4);
    RelationshipsRoundTrip(m.relationships);
    MetricsRoundTrip(m.metrics);
  }

  /** The views member of an encoded manifest reads back as its views. */
  lemma ManifestViewsField(m: Manifest, models: seq<JsonValue>)
    ensures WithDefault(Members(ManifestFields, ManifestValues(m, models)), "views", DecodeViews, []) == Success(m.views)
  {
    ManifestFieldsDistinct();
    FieldOfMembers(ManifestFields, ManifestValues(m, models), 5);
    ViewsRoundTrip(m.views);
  }

  /** The data-source member of an encoded manifest reads back as its data source. */
  lemma ManifestDataSourceField(m: Manifest, models: seq<JsonValue>)
    ensures WithDefault(Members(ManifestFields, ManifestValues(m, models)), "dataSource", DecodeOptionalDataSource, None)
         == Success(m.dataSource)
  {
    ManifestFieldsDistinct();
    FieldOfMembers(ManifestFields, ManifestValues(m, models), 6);
    if m.dataSource.Some? {
      DataSourceRoundTrip(m.dataSource.value);
    }
  }

  /** A well-formed manifest encodes, and decoding the result gives it back. */
  lemma ManifestRoundTrip(m: Manifest)
    requires ManifestWellFormed(m)
    ensures EncodeManifest(m).Success?
    ensures DecodeManifest(EncodeManifest(m).value) == Success(m)
  {
    forall x | x in m.models ensures EncodeModel(x).Success? && DecodeModel(EncodeModel(x).value) == Success(x) {
      ModelRoundTrip(x);
    }
    TryEachRoundTrip(m.models, EncodeModel, DecodeModel);
    var models := TryEncodeEach(m.models, EncodeModel).value;
    ManifestLeadingFields(m, models);
    ManifestMiddleFields(m, models);
    ManifestViewsField(m, models);
    ManifestDataSourceField(m, models);
  }

  /** Only `catalog` and `schema` are required; the lists default to empty and the data source to `None`. */
  lemma ManifestDefaults(catalog: string, schema: string)
    ensures DecodeManifest(Obj([Member("catalog", Str(catalog)), Member("schema", Str(schema))]))
         == Success(Manifest(catalog, schema, [], [], [], [], None))
  {
    var ms := [Member("catalog", Str(catalog)), Member("schema", Str(schema))];
    FieldFound(ms, "catalog", 0);
    FieldFound(ms, "schema", 1);
    FieldMissing(ms, "models");
    FieldMissing(ms, "relationships");
    FieldMissing(ms, "metrics");
    FieldMissing(ms, "views");
    FieldMissing(ms, "dataSource");
  }

  /** An explicit null data source is `None` as well. */
  lemma ManifestNullDataSource(catalog: string, schema: string)
    ensures DecodeManifest(Obj(NullDataSourceMembers(catalog, schema)))
         == Success(Manifest(catalog, schema, [], [], [], [], None))
  {
    var ms := NullDataSourceMembers(catalog, schema);
    FieldFound(ms, "catalog", 0);
    FieldFound(ms, "schema", 1);
    FieldFound(ms, "dataSource", 2);
    NullDataSourceMissingLists(catalog, schema);
  }

  /** A manifest object with only its names and an explicit null data source. */
  function NullDataSourceMembers(catalog: string, schema: string): seq<Member> {
    [Member("catalog", Str(catalog)), Member("schema", Str(schema)), Member("dataSource", Null)]
  }

  lemma NullDataSourceMissingLists(catalog: string, schema: string)
    ensures var ms := NullDataSourceMembers(catalog, schema);
      && Field(ms, "models") == Success(None)
      && Field(ms, "relationships") == Success(None)
      && Field(ms, "metrics") == Success(None)
      && Field(ms, "views") == Success(None)
  {
    var ms := NullDataSourceMembers(catalog, schema);
    FieldMissing(ms, "models");
    FieldMissing(ms, "relationships");
    FieldMissing(ms, "metrics");
    FieldMissing(ms, "views");
  }

  /** One model whose table reference cannot be encoded makes the whole manifest fail. */
  lemma ManifestEncodeIsAllOrNothing(m: Manifest, i: nat)
    requires i < |m.models| && EncodeModel(m.models[i]).Failure?
    ensures EncodeManifest(m).Failure?
  {
  }
}
