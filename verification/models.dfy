/** Database models: their normalised field list, field lookup, table
    name and the check of write arguments
    (src/resources/database/interface.go). */
module Models {
  import opened Wrappers
  import opened Fields

  datatype Model = Model(name: string, fields: seq<Field>)

  /** Errors of the model's checks; `Invalid` wraps the error of the field
      type's own check. */
  datatype ModelError =
    | NoSuchField(field: string, model: string)
    | Required(field: string)
    | Invalid(cause: FieldError)

  /* ---------------------------------------------------------------------
     normalizedFieldList
     --------------------------------------------------------------------- */

  /** `normalizedFieldList`: the fields in order, each object field
      replaced by its own normalised fields renamed `parent.child`. No
      object type is left. */
  function Normalize(list: seq<Field>): (out: seq<Field>)
    ensures forall i | 0 <= i < |out| :: !out[i].typ.Object?
    decreases list
  {
    if list == [] then [] else NormalizeField(list[0]) + Normalize(list[1..])
  }

  /** One turn of the loop: an object field expands, any other field is
      appended as it is. */
  function NormalizeField(f: Field): (out: seq<Field>)
    ensures forall i | 0 <= i < |out| :: !out[i].typ.Object?
    decreases f
  {
    match f.typ
    case Object(inner) => Expand(f, Normalize(inner))
    case _ => [f]
  }

  /** The loop over an object field's normalised fields: each is renamed
      under the parent and is optional when either is. */
  function Expand(parent: Field, inner: seq<Field>): (out: seq<Field>)
    ensures |out| == |inner|
    ensures forall i | 0 <= i < |inner| ::
      out[i] == Field(parent.name + "." + inner[i].name, inner[i].typ, parent.optional || inner[i].optional)
  {
    if inner == [] then []
    else [Field(parent.name + "." + inner[0].name, inner[0].typ, parent.optional || inner[0].optional)]
         + Expand(parent, inner[1..])
  }

  /** A list without object fields. */
  predicate Flat(list: seq<Field>) {
    forall i | 0 <= i < |list| :: !list[i].typ.Object?
  }

  /** Normalising works field by field: a list split anywhere normalises
      to the two halves' normal forms, in order. */
  lemma {:induction false} NormalizeAppend(a: seq<Field>, b: seq<Field>)
    ensures Normalize(a + b) == Normalize(a) + Normalize(b)
    decreases |a|
  {
    if a != [] {
      assert a + b != [] && (a + b)[0] == a[0];
      assert (a + b)[1..] == a[1..] + b;
      NormalizeAppend(a[1..], b);
    } else {
      assert a + b == b;
    }
  }

  /** Fields that are not objects pass through unchanged: a flat list is
      its own normal form. */
  lemma {:induction false} NormalizeFlat(list: seq<Field>)
    requires Flat(list)
    ensures Normalize(list) == list
    decreases |list|
  {
    if list != [] {
      NormalizeFlat(list[1..]);
      assert [list[0]] + list[1..] == list;
    }
  }

  /** Normalising twice is normalising once. */
  lemma NormalizeIdempotent(list: seq<Field>)
    ensures Normalize(Normalize(list)) == Normalize(list)
  {
    NormalizeFlat(Normalize(list));
  }

  /** Every field an optional object field expands to is optional. */
  lemma {:induction false} OptionalParent(parent: Field, i: nat)
    requires parent.typ.Object? && parent.optional
    requires i < |Normalize(parent.typ.fields)|
    ensures i < |Normalize([parent])| && Normalize([parent])[i].optional
    ensures Normalize([parent])[i].name == parent.name + "." + Normalize(parent.typ.fields)[i].name
  {
    var inner := Normalize(parent.typ.fields);
    assert Normalize([parent]) == NormalizeField(parent) + Normalize([]);
    assert Normalize([parent]) == Expand(parent, inner);
  }

  /* ---------------------------------------------------------------------
     GetField and TableName
     --------------------------------------------------------------------- */

  /** The index of the first field named `name`. */
  function FirstNamed(list: seq<Field>, name: string): (r: Option<nat>)
    ensures r.Some? ==> r.value < |list| && list[r.value].name == name
                        && forall j | 0 <= j < r.value :: list[j].name != name
    ensures r.None? ==> forall j | 0 <= j < |list| :: list[j].name != name
  {
    if list == [] then None
    else if list[0].name == name then Some(0)
    else match FirstNamed(list[1..], name)
      case None => None
      case Some(k) => Some(k + 1)
  }

  /** `GetField`: the first normalised field with that name, or an error
      naming the field and the model. */
  function GetField(m: Model, name: string): (r: Result<Field, ModelError>)
    ensures r.Ok? ==> exists i | 0 <= i < |Normalize(m.fields)| ::
      Normalize(m.fields)[i] == r.value && r.value.name == name
      && forall j | 0 <= j < i :: Normalize(m.fields)[j].name != name
    ensures r.Err? <==> forall f | f in Normalize(m.fields) :: f.name != name
    ensures r.Err? ==> r.error == NoSuchField(name, m.name)
  {
    var flat := Normalize(m.fields);
    match FirstNamed(flat, name)
    case Some(i) => Ok(flat[i])
    case None => Err(NoSuchField(name, m.name))
  }

  /** `TableName`: the model name with every `.` replaced by `_`. */
  function TableName(name: string): (r: string)
    ensures |r| == |name| && '.' !in r
    ensures forall i | 0 <= i < |name| :: r[i] == if name[i] == '.' then '_' else name[i]
  {
    if name == [] then []
    else [if name[0] == '.' then '_' else name[0]] + TableName(name[1..])
  }

  /* ---------------------------------------------------------------------
     ValidateWriteArguments
     --------------------------------------------------------------------- */

  /** What `ValidateWriteArguments` asks of one field: a value of its type
      when one is given, or that the field be optional. */
  predicate Acceptable(f: Field, args: map<string, Dyn>) {
    if f.name in args then ValidateInterface(f.typ, args[f.name]).Pass? else f.optional
  }

  /** `ValidateWriteArguments` over the normalised fields. */
  function ValidateWriteArguments(m: Model, args: map<string, Dyn>): (r: Outcome<ModelError>)
    ensures r.Pass? <==> forall f | f in Normalize(m.fields) :: Acceptable(f, args)
  {
    ValidateWrite(Normalize(m.fields), args)
  }

  /** The loop: the first field that is missing without being optional, or
      whose value its type refuses, decides the error. Keys that name no
      field are never looked at. */
  function ValidateWrite(fields: seq<Field>, args: map<string, Dyn>): (r: Outcome<ModelError>)
    ensures r.Pass? <==> forall i | 0 <= i < |fields| :: Acceptable(fields[i], args)
    ensures r.Fail? ==> exists i | 0 <= i < |fields| ::
      && !Acceptable(fields[i], args)
      && (forall j | 0 <= j < i :: Acceptable(fields[j], args))
      && r.error == (if fields[i].name in args
                     then Invalid(ValidateInterface(fields[i].typ, args[fields[i].name]).error)
                     else Required(fields[i].name))
  {
    if fields == [] then Pass
    else
      var f := fields[0];
      var rest := ValidateWrite(fields[1..], args);
      assert forall i | 1 <= i < |fields| :: fields[i] == fields[1..][i - 1];
      if f.name !in args then
        if !f.optional then Fail(Required(f.name)) else rest
      else
        match ValidateInterface(f.typ, args[f.name])
        case Fail(e) => Fail(Invalid(e))
        case Pass => rest
  }

  /** Extra keys are ignored: a key that names no normalised field does
      not change the outcome. */
  lemma {:induction false} ExtraKeysIgnored(fields: seq<Field>, args: map<string, Dyn>, k: string, v: Dyn)
    requires forall f | f in fields :: f.name != k
    ensures ValidateWrite(fields, args[k := v]) == ValidateWrite(fields, args)
    decreases |fields|
  {
    if fields != [] {
      assert fields[0] in fields;
      assert forall f | f in fields[1..] :: f in fields;
      ExtraKeysIgnored(fields[1..], args, k, v);
    }
  }
}
