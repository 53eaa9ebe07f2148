/**
  The JSON wire form as serde_json holds it, and the field-level decoding rules that
  serde's derived `Deserialize` applies to a struct: members are looked up by key,
  unknown keys are ignored, a known key given twice is an error, a missing field is
  an error unless the field has a default (an `Option` field defaults to `None`).
*/
module Json {
  import opened Wrappers

  datatype JsonValue =
    | Null
    | Bool(b: bool)
    | UInt(n: nat)          // a non-negative integer; `nat` is unbounded, so the u64 ceiling is not modelled
    | NegInt(i: int)        // a negative integer
    | Float(text: string)   // any other number; its digits are never interpreted here
    | Str(s: string)
    | Arr(items: seq<JsonValue>)
    | Obj(members: seq<Member>)

  /** One `"key": value` pair of an object, in document order. */
  datatype Member = Member(key: string, value: JsonValue)

  datatype DecodeError =
    | InvalidType(expected: string)
    | InvalidBoolean                 // "invalid type for boolean"
    | MissingField(field: string)
    | DuplicateField(field: string)
    | UnknownVariant(variant: string)
    | EmptyExprPanic                 // `NormalizedExpr::new` panics ("expr is null or empty")

  type Decoder<T> = JsonValue -> Result<T, DecodeError>

  // ---------------------------------------------------------------------------
  // Object members

  /** How many members of `ms` carry `key`. */
  function Count(ms: seq<Member>, key: string): (n: nat)
    ensures n <= |ms|
    ensures n == 0 <==> forall i | 0 <= i < |ms| :: ms[i].key != key
  {
    if ms == [] then 0
    else (if ms[0].key == key then 1 else 0) + Count(ms[1..], key)
  }

  /** The value of the first member of `ms` that carries `key`. */
  function Find(ms: seq<Member>, key: string): (r: Option<JsonValue>)
    ensures r.None? <==> forall i | 0 <= i < |ms| :: ms[i].key != key
  {
    if ms == [] then None
    else if ms[0].key == key then Some(ms[0].value)
    else Find(ms[1..], key)
  }

  /** The member `key` of a struct being decoded: absent, present once, or a duplicate. */
  function Field(ms: seq<Member>, key: string): Result<Option<JsonValue>, DecodeError> {
    if Count(ms, key) > 1 then Failure(DuplicateField(key)) else Success(Find(ms, key))
  }

  /** A field with no default: missing is an error. */
  function Required<T>(ms: seq<Member>, key: string, dec: Decoder<T>): Result<T, DecodeError> {
    var found :- Field(ms, key);
    match found
    case None => Failure(MissingField(key))
    case Some(v) => dec(v)
  }

  /** A field with `#[serde(default)]` (or of `Option` type): missing gives `default`. */
  function WithDefault<T>(ms: seq<Member>, key: string, dec: Decoder<T>, default: T): Result<T, DecodeError> {
    var found :- Field(ms, key);
    match found
    case None => Success(default)
    case Some(v) => dec(v)
  }

  /** The members of a value that must be a JSON object (the struct `name`). */
  function AsObject(v: JsonValue, name: string): Result<seq<Member>, DecodeError> {
    if v.Obj? then Success(v.members) else Failure(InvalidType("struct " + name))
  }

  predicate Distinct(ks: seq<string>) {
    forall i, j | 0 <= i < j < |ks| :: ks[i] != ks[j]
  }

  /** Two field names that differ in length or in their first letter. */
  predicate Apart(a: string, b: string) {
    |a| != |b| || (a != [] && b != [] && a[0] != b[0])
  }

  /** The name at `i` is apart from every name from position `j` on. */
  predicate ApartAfter(ks: seq<string>, i: nat, j: nat)
    requires i < |ks|
    decreases |ks| - j
  {
    j >= |ks| || (Apart(ks[i], ks[j]) && ApartAfter(ks, i, j + 1))
  }

  /** Every name from position `i` on is apart from the names after it. */
  predicate PairwiseApartFrom(ks: seq<string>, i: nat)
    decreases |ks| - i
  {
    i >= |ks| || (ApartAfter(ks, i, i + 1) && PairwiseApartFrom(ks, i + 1))
  }

  /**
    A cheap sufficient condition for distinct field names, which evaluates on literal lists
    by indexing alone, without quantifiers or slices.
  */
  predicate PairwiseApart(ks: seq<string>) {
    PairwiseApartFrom(ks, 0)
  }

  lemma {:induction false} ApartAfterDiffers(ks: seq<string>, i: nat, j: nat)
    requires i < |ks| && ApartAfter(ks, i, j)
    ensures forall k | j <= k < |ks| :: ks[k] != ks[i]
    decreases |ks| - j
  {
    if j < |ks| {
      ApartAfterDiffers(ks, i, j + 1);
    }
  }

  lemma {:induction false} PairwiseApartFromDistinct(ks: seq<string>, i: nat)
    requires PairwiseApartFrom(ks, i)
    ensures forall a, b | i <= a < b < |ks| :: ks[a] != ks[b]
    decreases |ks| - i
  {
    if i < |ks| {
      ApartAfterDiffers(ks, i, i + 1);
      PairwiseApartFromDistinct(ks, i + 1);
    }
  }

  lemma ApartNamesAreDistinct(ks: seq<string>)
    requires PairwiseApart(ks)
    ensures Distinct(ks)
  {
    PairwiseApartFromDistinct(ks, 0);
  }

  /** The members of an encoded struct: its field names paired with the encoded values. */
  function Members(keys: seq<string>, values: seq<JsonValue>): (ms: seq<Member>)
    requires |keys| == |values|
    ensures |ms| == |keys|
    ensures forall i | 0 <= i < |ms| :: ms[i] == Member(keys[i], values[i])
  {
    seq(|keys|, i requires 0 <= i < |keys| => Member(keys[i], values[i]))
  }

  /** A struct encoded with distinct field names gives back each field's value. */
  lemma {:induction false} FieldOfMembers(keys: seq<string>, values: seq<JsonValue>, i: nat)
    requires |keys| == |values| && Distinct(keys) && i < |keys|
    ensures Field(Members(keys, values), keys[i]) == Success(Some(values[i]))
  {
    var ms := Members(keys, values);
    assert ms[1..] == Members(keys[1..], values[1..]);
    if i == 0 {
      forall j | 0 <= j < |ms[1..]| ensures ms[1..][j].key != keys[0] {
        assert ms[1..][j].key == keys[1..][j] == keys[j + 1];
      }
    } else {
      assert Distinct(keys[1..]) by {
        forall a, b | 0 <= a < b < |keys[1..]| ensures keys[1..][a] != keys[1..][b] {
          assert keys[1..][a] == keys[a + 1] && keys[1..][b] == keys[b + 1];
        }
      }
      FieldOfMembers(keys[1..], values[1..], i - 1);
      assert keys[i] == keys[1..][i - 1];
      assert keys[0] != keys[i];
    }
  }

  /** The member `i` is the only one whose key is not apart from `key`: the field reads as its value. */
  lemma {:induction false} FieldFound(ms: seq<Member>, key: string, i: nat)
    requires i < |ms| && ms[i].key == key
    requires forall j | 0 <= j < |ms| && j != i :: Apart(ms[j].key, key)
    ensures Field(ms, key) == Success(Some(ms[i].value))
  {
    if i == 0 {
      forall j | 0 <= j < |ms[1..]| ensures ms[1..][j].key != key {
        assert Apart(ms[j + 1].key, key);
      }
    } else {
      assert Apart(ms[0].key, key);
      forall j | 0 <= j < |ms[1..]| && j != i - 1 ensures Apart(ms[1..][j].key, key) {
        assert ms[1..][j] == ms[j + 1];
      }
      FieldFound(ms[1..], key, i - 1);
    }
  }

  /** Every key is apart from `key`: the field is absent. */
  lemma FieldMissing(ms: seq<Member>, key: string)
    requires forall j | 0 <= j < |ms| :: Apart(ms[j].key, key)
    ensures Field(ms, key) == Success(None)
  {
    forall j | 0 <= j < |ms| ensures ms[j].key != key {
      assert Apart(ms[j].key, key);
    }
  }

  /** A key that no member carries reads as absent. */
  lemma FieldAbsent(keys: seq<string>, values: seq<JsonValue>, key: string)
    requires |keys| == |values| && key !in keys
    ensures Field(Members(keys, values), key) == Success(None)
  {
    var ms := Members(keys, values);
    forall i | 0 <= i < |ms| ensures ms[i].key != key {
      assert ms[i].key == keys[i];
    }
  }

  /** A member appended with another key does not change what `key` reads. */
  lemma {:induction false} FieldIgnoresOtherKey(ms: seq<Member>, extra: Member, key: string)
    requires extra.key != key
    ensures Field(ms + [extra], key) == Field(ms, key)
  {
    CountIgnoresOtherKey(ms, extra, key);
    FindIgnoresOtherKey(ms, extra, key);
  }

  lemma {:induction false} CountIgnoresOtherKey(ms: seq<Member>, extra: Member, key: string)
    requires extra.key != key
    ensures Count(ms + [extra], key) == Count(ms, key)
  {
    if ms == [] {
      assert ms + [extra] == [extra];
    } else {
      assert (ms + [extra])[1..] == ms[1..] + [extra];
      CountIgnoresOtherKey(ms[1..], extra, key);
    }
  }

  lemma {:induction false} FindIgnoresOtherKey(ms: seq<Member>, extra: Member, key: string)
    requires extra.key != key
    ensures Find(ms + [extra], key) == Find(ms, key)
  {
    if ms == [] {
      assert ms + [extra] == [extra];
    } else {
      assert (ms + [extra])[1..] == ms[1..] + [extra];
      FindIgnoresOtherKey(ms[1..], extra, key);
    }
  }

  // ---------------------------------------------------------------------------
  // Primitive, optional and sequence values

  function DecodeString(v: JsonValue): Result<string, DecodeError> {
    if v.Str? then Success(v.s) else Failure(InvalidType("a string"))
  }

  /** A plain `bool`: only a JSON boolean is accepted. */
  function DecodeBool(v: JsonValue): Result<bool, DecodeError> {
    if v.Bool? then Success(v.b) else Failure(InvalidType("a boolean"))
  }

  /** `Option<T>`: null is `None`, anything else must decode as `T`. */
  function DecodeOption<T>(v: JsonValue, dec: Decoder<T>): Result<Option<T>, DecodeError> {
    if v.Null? then Success(None)
    else
      var x :- dec(v);
      Success(Some(x))
  }

  function DecodeOptionalString(v: JsonValue): Result<Option<string>, DecodeError> {
    DecodeOption(v, DecodeString)
  }

  /** `Vec<T>`: a JSON array whose every item decodes. */
  function DecodeArray<T>(v: JsonValue, dec: Decoder<T>): Result<seq<T>, DecodeError> {
    if v.Arr? then DecodeEach(v.items, dec) else Failure(InvalidType("a sequence"))
  }

  /** Decodes the items in order; the first failure is the result. */
  function DecodeEach<T>(items: seq<JsonValue>, dec: Decoder<T>): (r: Result<seq<T>, DecodeError>)
    ensures r.Success? <==> forall i | 0 <= i < |items| :: dec(items[i]).Success?
    ensures r.Success? ==> |r.value| == |items| && forall i | 0 <= i < |items| :: dec(items[i]) == Success(r.value[i])
  {
    if items == [] then Success([])
    else
      var x :- dec(items[0]);
      var rest :- DecodeEach(items[1..], dec);
      assert forall i | 1 <= i < |items| :: items[i] == items[1..][i - 1];
      Success([x] + rest)
  }

  function EncodeOption<T>(o: Option<T>, enc: T -> JsonValue): JsonValue {
    match o
    case None => Null
    case Some(x) => enc(x)
  }

  function EncodeOptionalString(o: Option<string>): JsonValue {
    EncodeOption(o, s => Str(s))
  }

  function EncodeEach<T>(xs: seq<T>, enc: T -> JsonValue): (r: seq<JsonValue>)
    ensures |r| == |xs|
  {
    if xs == [] then [] else [enc(xs[0])] + EncodeEach(xs[1..], enc)
  }

  /** Encodes the items in order with an encoder that may fail; the first failure is the result. */
  function TryEncodeEach<T, E>(xs: seq<T>, enc: T -> Result<JsonValue, E>): (r: Result<seq<JsonValue>, E>)
    ensures r.Success? <==> forall i | 0 <= i < |xs| :: enc(xs[i]).Success?
  {
    if xs == [] then Success([])
    else
      var x :- enc(xs[0]);
      var rest :- TryEncodeEach(xs[1..], enc);
      assert forall i | 1 <= i < |xs| :: xs[i] == xs[1..][i - 1];
      Success([x] + rest)
  }

  lemma {:induction false} EachRoundTrip<T>(xs: seq<T>, enc: T -> JsonValue, dec: Decoder<T>)
    requires forall x | x in xs :: dec(enc(x)) == Success(x)
    ensures DecodeEach(EncodeEach(xs, enc), dec) == Success(xs)
  {
    if xs != [] {
      EachRoundTrip(xs[1..], enc, dec);
      assert xs == [xs[0]] + xs[1..];
    }
  }

  lemma {:induction false} TryEachRoundTrip<T, E>(xs: seq<T>, enc: T -> Result<JsonValue, E>, dec: Decoder<T>)
    requires forall x | x in xs :: enc(x).Success? && dec(enc(x).value) == Success(x)
    ensures TryEncodeEach(xs, enc).Success?
    ensures DecodeEach(TryEncodeEach(xs, enc).value, dec) == Success(xs)
  {
    if xs != [] {
      TryEachRoundTrip(xs[1..], enc, dec);
      assert xs == [xs[0]] + xs[1..];
    }
  }
}
