/** Query filters and the check of query arguments against a model
    (src/resources/database/filter.go, and `ValidateQueryArguments` of
    src/resources/database/interface.go, which needs the filters). */
module Filters {
  import opened Wrappers
  import opened Fields
  import opened Models

  /** `ScalarCondition` values; any other integer is an invalid condition. */
  const EQUALS := 1
  const CONTAINS := 2
  const STARTS_WITH := 3
  const ENDS_WITH := 4
  const LESS_THAN := 5
  const LESS_THAN_EQUALS := 6
  const GREATER_THAN := 7
  const GREATER_THAN_EQUALS := 8
  const IN := 9
  const IS_SET := 10

  /** `EnumCondition` values. */
  const ENUM_EQUALS := 1
  const ENUM_IN := 2
  const ENUM_IS_SET := 3

  /** `ListCondition` values. */
  const LIST_EQUALS := 1
  const LIST_HAS := 2
  const LIST_HAS_EVERY := 3
  const LIST_HAS_SOME := 4
  const LIST_IS_EMPTY := 5
  const LIST_IS_SET := 6

  /** A filter; `mode` and a composite's `condition` play no part in
      validation. */
  datatype Filter =
    | ScalarFilter(condition: int, mode: string, key: string, value: Dyn)
    | EnumFilter(condition: int, key: string, value: Dyn)
    | ListFilter(condition: int, key: string, value: Dyn)
    | CompositeFilter(condition: int, filters: seq<Filter>)

  /** Why a filter was refused. `BadValue` wraps the error about the
      filter's value for its condition. */
  datatype FilterError =
    | Lookup(error: ModelError)
    | InvalidScalarType(key: string)
    | InvalidDataType(key: string)
    | ForbiddenCondition(key: string, condition: int, scalar: string)
    | InvalidCondition(key: string)
    | OptionalOnly(key: string)
    | BadValue(key: string, condition: int, reason: FieldError)
    | NotEnum(key: string, typ: FieldType)
    | NotList(key: string, typ: FieldType)

  /* ---------------------------------------------------------------------
     ScalarFilter
     --------------------------------------------------------------------- */

  /** The ordering comparisons. */
  predicate Ordering(c: int) {
    c == LESS_THAN || c == LESS_THAN_EQUALS || c == GREATER_THAN || c == GREATER_THAN_EQUALS
  }

  /** The substring conditions. */
  predicate Substring(c: int) {
    c == CONTAINS || c == STARTS_WITH || c == ENDS_WITH
  }

  /** The conditions whose value is checked against the scalar type, per
      case of the switch on the type. */
  predicate ValueChecked(s: string, c: int) {
    if s == STRING || s == BYTES then c == EQUALS || Substring(c)
    else if s == BOOLEAN then c == EQUALS
    else c == EQUALS || Ordering(c)
  }

  /** The conditions refused outright, per case of the switch on the type. */
  predicate Refused(s: string, c: int) {
    if s == STRING || s == BYTES then Ordering(c)
    else if s == BOOLEAN then Substring(c) || Ordering(c) || c == IN
    else Substring(c)
  }

  /** The slice type `In` asks for. */
  function InType(s: string): string {
    if s == STRING then "[]string"
    else if s == INT || s == BIG_INT then "[]int64"
    else if s == FLOAT || s == DECIMAL then "[]float64"
    else if s == DATE_TIME then "[]time.Time"
    else "[][]byte"
  }

  predicate InHolds(s: string, v: Dyn) {
    if s == STRING then v.Strings?
    else if s == INT || s == BIG_INT then v.Int64s?
    else if s == FLOAT || s == DECIMAL then v.Float64s?
    else if s == DATE_TIME then v.Times?
    else v.ByteSlices?
  }

  /** `IsSet`, the same for every kind of filter: only on an optional
      field, and only with a bool. */
  function IsSetCheck(key: string, field: Field, v: Dyn): (r: Outcome<FilterError>)
    ensures r.Pass? <==> field.optional && v.Bool?
  {
    if !field.optional then Fail(OptionalOnly(key))
    else if !v.Bool? then Fail(BadValue(key, IS_SET, Mismatch("bool", v)))
    else Pass
  }

  /** `ScalarFilter.Validate`, written as the source is, by scalar type.
      The contract reads the other way, by family of conditions: text types
      take equality and the substring conditions and refuse ordering;
      numbers and times take equality and ordering and refuse substrings;
      booleans take only equality and `IsSet`. Every type takes `IsSet` on
      an optional field with a bool, and `In` with its own slice type except
      booleans; any other condition number is invalid. A key that is not a
      field, or names a field that is not scalar, is refused whatever the
      condition. */
  function ValidateScalarFilter(m: Model, c: int, key: string, v: Dyn): (r: Outcome<FilterError>)
    ensures GetField(m, key).Err? ==> r == Fail(Lookup(NoSuchField(key, m.name)))
    ensures GetField(m, key).Ok? && !GetField(m, key).value.typ.Scalar? ==> r == Fail(InvalidScalarType(key))
    ensures GetField(m, key).Ok? && GetField(m, key).value.typ.Scalar? && !KnownScalar(GetField(m, key).value.typ.name) ==>
      r == Fail(InvalidDataType(key))
    ensures GetField(m, key).Ok? && GetField(m, key).value.typ.Scalar? && KnownScalar(GetField(m, key).value.typ.name) ==>
      var field := GetField(m, key).value;
      var s := field.typ.name;
      && (c == EQUALS ==> (r.Pass? <==> ScalarHolds(s, v)))
      && (Substring(c) ==>
            if s == STRING || s == BYTES then (r.Pass? <==> ScalarHolds(s, v))
            else r == Fail(ForbiddenCondition(key, c, s)))
      && (Ordering(c) ==>
            if s == STRING || s == BYTES || s == BOOLEAN then r == Fail(ForbiddenCondition(key, c, s))
            else (r.Pass? <==> ScalarHolds(s, v)))
      && (c == IN ==>
            if s == BOOLEAN then r == Fail(ForbiddenCondition(key, c, s)) else (r.Pass? <==> InHolds(s, v)))
      && (c == IS_SET ==> (r.Pass? <==> field.optional && v.Bool?))
      && (!(EQUALS <= c <= IS_SET) ==> r == Fail(InvalidCondition(key)))
  {
    match GetField(m, key)
    case Err(e) => Fail(Lookup(e))
    case Ok(field) =>
      if !field.typ.Scalar? then Fail(InvalidScalarType(key))
      else
        var s := field.typ.name;
        if !KnownScalar(s) then Fail(InvalidDataType(key))
        else if ValueChecked(s, c) then
          match ValidateScalar(s, v)
          case Fail(e) => Fail(BadValue(key, c, e))
          case Pass => Pass
        else if Refused(s, c) then Fail(ForbiddenCondition(key, c, s))
        else if c == IN then
          if InHolds(s, v) then Pass else Fail(BadValue(key, c, Mismatch(InType(s), v)))
        else if c == IS_SET then IsSetCheck(key, field, v)
        else Fail(InvalidCondition(key))
  }

  /* ---------------------------------------------------------------------
     EnumFilter and ListFilter
     --------------------------------------------------------------------- */

  /** The loop of `EnumConditionIn`: the first value not in the enum. */
  function EnumValues(t: FieldType, key: string, strs: seq<string>): (r: Outcome<FilterError>)
    requires t.Enum?
    ensures r.Pass? <==> forall i | 0 <= i < |strs| :: strs[i] in t.values
  {
    if strs == [] then Pass
    else match ValidateInterface(t, Str(strs[0]))
      case Fail(e) => Fail(BadValue(key, ENUM_IN, e))
      case Pass =>
        assert forall i | 1 <= i < |strs| :: strs[i] == strs[1..][i - 1];
        EnumValues(t, key, strs[1..])
  }

  /** `EnumFilter.Validate`: `Equals` takes a member of the enum, `In` a
      `[]string` of members, `IsSet` a bool on an optional field. */
  function ValidateEnumFilter(m: Model, condition: int, key: string, v: Dyn): (r: Outcome<FilterError>)
    ensures GetField(m, key).Ok? && GetField(m, key).value.typ.Enum? ==>
      var t := GetField(m, key).value.typ;
      && (condition == ENUM_EQUALS ==> (r.Pass? <==> v.Str? && v.s in t.values))
      && (condition == ENUM_IN ==>
            (r.Pass? <==> v.Strings? && forall i | 0 <= i < |v.strs| :: v.strs[i] in t.values))
      && (condition == ENUM_IS_SET ==> (r.Pass? <==> GetField(m, key).value.optional && v.Bool?))
      && (!(ENUM_EQUALS <= condition <= ENUM_IS_SET) ==> r == Fail(InvalidCondition(key)))
  {
    match GetField(m, key)
    case Err(e) => Fail(Lookup(e))
    case Ok(field) =>
      if !field.typ.Enum? then Fail(NotEnum(key, field.typ))
      else if condition == ENUM_EQUALS then
        match ValidateInterface(field.typ, v)
        case Fail(e) => Fail(BadValue(key, condition, e))
        case Pass => Pass
      else if condition == ENUM_IN then
        if !v.Strings? then Fail(BadValue(key, condition, Mismatch("[]string", v)))
        else EnumValues(field.typ, key, v.strs)
      else if condition == ENUM_IS_SET then IsSetCheck(key, field, v)
      else Fail(InvalidCondition(key))
  }

  /** `ListFilter.Validate`: `Equals`, `HasEvery` and `HasSome` take a list
      of the field's type, `Has` one item of it, `IsEmpty` a bool and
      `IsSet` a bool on an optional field. */
  function ValidateListFilter(m: Model, condition: int, key: string, v: Dyn): (r: Outcome<FilterError>)
    ensures GetField(m, key).Ok? && GetField(m, key).value.typ.List? ==>
      var t := GetField(m, key).value.typ;
      && (condition == LIST_EQUALS || condition == LIST_HAS_EVERY || condition == LIST_HAS_SOME ==>
            (r.Pass? <==> ValidateInterface(t, v).Pass?))
      && (condition == LIST_HAS ==> (r.Pass? <==> ValidateInterface(t.item, v).Pass?))
      && (condition == LIST_IS_EMPTY ==> (r.Pass? <==> v.Bool?))
      && (condition == LIST_IS_SET ==> (r.Pass? <==> GetField(m, key).value.optional && v.Bool?))
      && (!(LIST_EQUALS <= condition <= LIST_IS_SET) ==> r == Fail(InvalidCondition(key)))
  {
    match GetField(m, key)
    case Err(e) => Fail(Lookup(e))
    case Ok(field) =>
      if !field.typ.List? then Fail(NotList(key, field.typ))
      else if condition == LIST_EQUALS || condition == LIST_HAS_EVERY || condition == LIST_HAS_SOME then
        match ValidateInterface(field.typ, v)
        case Fail(e) => Fail(BadValue(key, condition, e))
        case Pass => Pass
      else if condition == LIST_HAS then
        match ValidateInterface(field.typ.item, v)
        case Fail(e) => Fail(BadValue(key, condition, e))
        case Pass => Pass
      else if condition == LIST_IS_EMPTY then
        if v.Bool? then Pass else Fail(BadValue(key, condition, Mismatch("bool", v)))
      else if condition == LIST_IS_SET then IsSetCheck(key, field, v)
      else Fail(InvalidCondition(key))
  }

  /* ---------------------------------------------------------------------
     Filter.Validate and CompositeFilter
     --------------------------------------------------------------------- */

  /** The condition that means "is set" for each kind of leaf filter. */
  predicate AsksIsSet(f: Filter) {
    match f
    case ScalarFilter(c, _, _, _) => c == IS_SET
    case EnumFilter(c, _, _) => c == ENUM_IS_SET
    case ListFilter(c, _, _) => c == LIST_IS_SET
    case CompositeFilter(_, _) => false
  }

  /** The kind of field each kind of leaf filter applies to. */
  predicate Applies(f: Filter, t: FieldType) {
    match f
    case ScalarFilter(_, _, _, _) => t.Scalar? && KnownScalar(t.name)
    case EnumFilter(_, _, _) => t.Enum?
    case ListFilter(_, _, _) => t.List?
    case CompositeFilter(_, _) => false
  }

  /** `Validate` of each kind of filter. Whatever the kind, asking whether
      a field is set is valid exactly on an optional field with a bool; a
      composite is valid exactly when all its filters are, the empty one
      included. */
  function Validate(f: Filter, m: Model): (r: Outcome<FilterError>)
    ensures AsksIsSet(f) && GetField(m, f.key).Ok? && Applies(f, GetField(m, f.key).value.typ) ==>
      (r.Pass? <==> GetField(m, f.key).value.optional && f.value.Bool?)
    ensures f.CompositeFilter? ==>
      (r.Pass? <==> forall i | 0 <= i < |f.filters| :: Validate(f.filters[i], m).Pass?)
    ensures f == CompositeFilter(f.condition, []) ==> r == Pass
  {
    match f
    case ScalarFilter(c, _, key, v) => ValidateScalarFilter(m, c, key, v)
    case EnumFilter(c, key, v) => ValidateEnumFilter(m, c, key, v)
    case ListFilter(c, key, v) => ValidateListFilter(m, c, key, v)
    case CompositeFilter(_, fs) => ValidateAll(fs, m)
  }

  /** `CompositeFilter.Validate`: the first sub-filter's error, whatever
      the composite's condition. */
  function ValidateAll(fs: seq<Filter>, m: Model): (r: Outcome<FilterError>)
    ensures r.Pass? <==> forall i | 0 <= i < |fs| :: Validate(fs[i], m).Pass?
    ensures r.Fail? ==> exists i | 0 <= i < |fs| ::
      Validate(fs[i], m) == r && forall j | 0 <= j < i :: Validate(fs[j], m).Pass?
  {
    if fs == [] then Pass
    else
      match Validate(fs[0], m)
      case Fail(e) => Fail(e)
      case Pass =>
        var r := ValidateAll(fs[1..], m);
        assert forall i | 1 <= i < |fs| :: fs[i] == fs[1..][i - 1];
        r
  }

  /* ---------------------------------------------------------------------
     ValidateQueryArguments
     --------------------------------------------------------------------- */

  /** `QueryArguments`; `orderBy` maps a field name to its sort order. */
  datatype QueryArguments = QueryArguments(
    limit: nat, skip: nat, filter: Filter,
    orderBy: map<string, int>, distinct: seq<string>, groupBy: seq<string>)

  predicate HasField(m: Model, name: string) {
    GetField(m, name).Ok?
  }

  /** A Go map's iteration order over `keys`: every key exactly once, in an
      order the language leaves unspecified. */
  predicate IterationOrder(order: seq<string>, keys: set<string>) {
    && (forall i | 0 <= i < |order| :: order[i] in keys)
    && (forall k | k in keys :: k in order)
    && (forall i, j | 0 <= i < j < |order| :: order[i] != order[j])
  }

  /** The loop over a list of field names: the first name that is not a
      field of the model. */
  function KnownFields(m: Model, names: seq<string>): (r: Outcome<FilterError>)
    ensures r.Pass? <==> forall i | 0 <= i < |names| :: HasField(m, names[i])
    ensures r.Fail? ==> exists i | 0 <= i < |names| ::
      !HasField(m, names[i]) && r == Fail(Lookup(NoSuchField(names[i], m.name)))
      && forall j | 0 <= j < i :: HasField(m, names[j])
  {
    var r := FirstFailure(names, n => CheckField(m, n));
    assert forall i | 0 <= i < |names| :: CheckField(m, names[i]) == (n => CheckField(m, n))(names[i]);
    r
  }

  /** One name of that loop: `GetField`'s error, as a lookup failure. */
  function CheckField(m: Model, name: string): (r: Outcome<FilterError>)
    ensures r.Pass? <==> HasField(m, name)
    ensures r.Fail? ==> r == Fail(Lookup(NoSuchField(name, m.name)))
  {
    match GetField(m, name)
    case Err(e) => Fail(Lookup(e))
    case Ok(_) => Pass
  }

  /** A check applied to each name in turn, stopping at the first failure. */
  function FirstFailure(names: seq<string>, check: string -> Outcome<FilterError>): (r: Outcome<FilterError>)
    ensures r.Pass? <==> forall i | 0 <= i < |names| :: check(names[i]).Pass?
    ensures r.Fail? ==> exists i | 0 <= i < |names| ::
      check(names[i]) == r && forall j | 0 <= j < i :: check(names[j]).Pass?
  {
    if names == [] then Pass
    else match check(names[0])
      case Fail(e) => Fail(e)
      case Pass =>
        var r := FirstFailure(names[1..], check);
        assert forall i | 1 <= i < |names| :: names[i] == names[1..][i - 1];
        r
  }

  /** `Model.ValidateQueryArguments`: the filter first, then the names of
      `orderBy` in `order`, the map's iteration order, then `distinct`, then
      `groupBy`. Which unknown `orderBy` name is reported depends on that
      order; whether one is reported does not. */
  function ValidateQueryArguments(m: Model, q: QueryArguments, order: seq<string>): (r: Outcome<FilterError>)
    requires IterationOrder(order, q.orderBy.Keys)
    ensures r.Pass? <==>
      && Validate(q.filter, m).Pass?
      && (forall k | k in q.orderBy :: HasField(m, k))
      && (forall i | 0 <= i < |q.distinct| :: HasField(m, q.distinct[i]))
      && (forall i | 0 <= i < |q.groupBy| :: HasField(m, q.groupBy[i]))
    ensures Validate(q.filter, m).Fail? ==> r == Validate(q.filter, m)
    ensures Validate(q.filter, m).Pass? && r.Fail? ==>
      exists name | name in q.orderBy.Keys + (set i | 0 <= i < |q.distinct| :: q.distinct[i])
                                           + (set i | 0 <= i < |q.groupBy| :: q.groupBy[i]) ::
        !HasField(m, name) && r == Fail(Lookup(NoSuchField(name, m.name)))
  {
    match Validate(q.filter, m)
    case Fail(e) => Fail(e)
    case Pass =>
      match KnownFields(m, order)
      case Fail(e) => Fail(e)
      case Pass =>
        match KnownFields(m, q.distinct)
        case Fail(e) => Fail(e)
        case Pass => KnownFields(m, q.groupBy)
  }
}
