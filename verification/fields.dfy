/** Field types of a database model and the check of a value against them
    (src/resources/database/field.go).

    Go passes values as `interface{}` and the validators only ask for their
    dynamic type; `Dyn` is that dynamic type, with the contents where a
    check looks inside (the strings of an enum, the items of a list). */
module Fields {
  import opened Wrappers

  /** A Go dynamic value, by dynamic type. `Items` is `[]interface{}`; the
      typed slices are separate types in Go and so separate cases here.
      The payload of a float plays no part in any check. */
  datatype Dyn =
    | Str(s: string)
    | Int64(i: int)
    | Float64(x: real)
    | Bool(b: bool)
    | Time(unixNano: int)
    | Bytes(bytes: seq<bv8>)
    | Items(items: seq<Dyn>)
    | Strings(strs: seq<string>)
    | Int64s(ints: seq<int>)
    | Float64s(xs: seq<real>)
    | Times(times: seq<int>)
    | ByteSlices(slices: seq<seq<bv8>>)
    | Other(goType: string)

  /** The scalar type names. A `ScalarType` is a Go string, so any other
      name can occur too. */
  const STRING: string := "String"
  const INT: string := "Int"
  const BIG_INT: string := "BigInt"
  const FLOAT: string := "Float"
  const DECIMAL: string := "Decimal"
  const BOOLEAN: string := "Boolean"
  const DATE_TIME: string := "DateTime"
  const BYTES: string := "Bytes"

  predicate KnownScalar(name: string) {
    name == STRING || name == INT || name == BIG_INT || name == FLOAT
    || name == DECIMAL || name == BOOLEAN || name == DATE_TIME || name == BYTES
  }

  datatype FieldType =
    | Scalar(name: string)
    | Enum(values: seq<string>)
    | List(item: FieldType)
    | Object(fields: seq<Field>)

  datatype Field = Field(name: string, typ: FieldType, optional: bool)

  /** Why a value was refused. `Mismatch` is "expected <expected>, got
      <its type>". */
  datatype FieldError =
    | Mismatch(expected: string, got: Dyn)
    | UnknownScalar(name: string)
    | NotAMember(values: seq<string>, member: string)
    | ListMismatch(item: FieldType, got: Dyn)
    | ObjectNotSupported

  /** The dynamic type a known scalar type asks for. */
  predicate ScalarHolds(name: string, v: Dyn) {
    if name == STRING then v.Str?
    else if name == INT || name == BIG_INT then v.Int64?
    else if name == FLOAT || name == DECIMAL then v.Float64?
    else if name == BOOLEAN then v.Bool?
    else if name == DATE_TIME then v.Time?
    else if name == BYTES then v.Bytes?
    else false
  }

  /** `ScalarType.ValidateInterface`. */
  function ValidateScalar(name: string, v: Dyn): (r: Outcome<FieldError>)
    ensures r.Pass? <==> KnownScalar(name) && ScalarHolds(name, v)
    ensures !KnownScalar(name) ==> r == Fail(UnknownScalar(name))
    ensures r.Fail? && KnownScalar(name) ==> r.error.Mismatch? && r.error.got == v
  {
    if name == STRING then
      if v.Str? then Pass else Fail(Mismatch("string", v))
    else if name == INT || name == BIG_INT then
      if v.Int64? then Pass else Fail(Mismatch("int", v))
    else if name == FLOAT || name == DECIMAL then
      if v.Float64? then Pass else Fail(Mismatch("float", v))
    else if name == BOOLEAN then
      if v.Bool? then Pass else Fail(Mismatch("bool", v))
    else if name == DATE_TIME then
      if v.Time? then Pass else Fail(Mismatch("time.Time", v))
    else if name == BYTES then
      if v.Bytes? then Pass else Fail(Mismatch("[]byte", v))
    else Fail(UnknownScalar(name))
  }

  /** `ValidateInterface` of each field type. An enum takes a string among
      its values; a list takes a `[]interface{}` whose items all pass (the
      empty list included), and reports the first item that does not; an
      object takes nothing. */
  function ValidateInterface(t: FieldType, v: Dyn): (r: Outcome<FieldError>)
    ensures t.Enum? ==> (r.Pass? <==> v.Str? && v.s in t.values)
    ensures t.List? ==> (r.Pass? <==>
      v.Items? && forall i | 0 <= i < |v.items| :: ValidateInterface(t.item, v.items[i]).Pass?)
    ensures t.Object? ==> r == Fail(ObjectNotSupported)
    decreases t, 0
  {
    match t
    case Scalar(name) => ValidateScalar(name, v)
    case Enum(values) =>
      if !v.Str? then Fail(Mismatch("string", v))
      else if v.s in values then Pass
      else Fail(NotAMember(values, v.s))
    case List(item) =>
      if !v.Items? then Fail(ListMismatch(item, v))
      else ValidateItems(item, v.items)
    case Object(_) => Fail(ObjectNotSupported)
  }

  /** The loop over a list's items: the first failure, or `Pass`. */
  function ValidateItems(item: FieldType, xs: seq<Dyn>): (r: Outcome<FieldError>)
    ensures r.Pass? <==> forall i | 0 <= i < |xs| :: ValidateInterface(item, xs[i]).Pass?
    ensures r.Fail? ==> exists i | 0 <= i < |xs| ::
      ValidateInterface(item, xs[i]) == r && forall j | 0 <= j < i :: ValidateInterface(item, xs[j]).Pass?
    decreases item, 1, |xs|
  {
    if xs == [] then Pass
    else
      match ValidateInterface(item, xs[0])
      case Fail(e) => Fail(e)
      case Pass =>
        var r := ValidateItems(item, xs[1..]);
        assert forall i | 1 <= i < |xs| :: xs[i] == xs[1..][i - 1];
        r
  }
}
