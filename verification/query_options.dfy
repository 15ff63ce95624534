/** The `QueryOptions` class of the state interface: its constructor from a
    map and its `skip` and `limit` properties
    (src/hyper/interfaces/state/options.go).

    -1 stands for "not given"; the getters show it as `nil` (`None`). */
module QueryOptions {
  import opened Wrappers

  const UNSET := -1

  datatype QueryOptionsValue = QueryOptionsValue(skip: int, limit: int)

  /** A map entry, as far as the constructor looks at it: Go's `nil`, an
      integer, or a value of another kind. */
  datatype Entry = NilEntry | IntegerValue(i: int) | OtherValue(kind: string)

  /** What a key of the map gives the constructor: an absent key or a
      stored `nil` the default, an integer its value, anything else a
      failed type assertion, which panics (`Err`). */
  function Read(m: map<string, Entry>, key: string, default: int): (r: Result<int, string>)
    ensures key !in m || m[key].NilEntry? ==> r == Ok(default)
    ensures key in m && !m[key].NilEntry? ==> (r.Ok? <==> m[key].IntegerValue?) && (r.Ok? ==> r.value == m[key].i)
  {
    if key !in m then Ok(default)
    else match m[key]
      case NilEntry => Ok(default)
      case IntegerValue(i) => Ok(i)
      case OtherValue(kind) => Err(kind)
  }

  /** The constructor from a map: skip and limit from the keys "skip" and
      "limit" when they hold integers, else -1. An entry that is neither
      `nil` nor an integer is a panic (`Err` with its kind). */
  function FromMap(m: map<string, Entry>): (r: Result<QueryOptionsValue, string>)
    ensures r.Ok? <==> forall k | k in m && (k == "skip" || k == "limit") :: !m[k].OtherValue?
    ensures r.Ok? ==> r.value.skip == (if "skip" in m && m["skip"].IntegerValue? then m["skip"].i else UNSET)
    ensures r.Ok? ==> r.value.limit == (if "limit" in m && m["limit"].IntegerValue? then m["limit"].i else UNSET)
  {
    var skip :- Read(m, "skip", UNSET);
    var limit :- Read(m, "limit", UNSET);
    Ok(QueryOptionsValue(skip, limit))
  }

  /** The getter of a property: `nil` exactly when the stored value is -1. */
  function Getter(stored: int): (r: Option<int>)
    ensures r.None? <==> stored == UNSET
    ensures r.Some? ==> r.value == stored
  {
    if stored == UNSET then None else Some(stored)
  }

  function GetSkip(q: QueryOptionsValue): Option<int> { Getter(q.skip) }
  function GetLimit(q: QueryOptionsValue): Option<int> { Getter(q.limit) }

  datatype SetterError = NotPositive(property: string)

  /** The setter of `skip`: a positive value is stored, anything else is
      refused and nothing changes. */
  function SetSkip(q: QueryOptionsValue, v: int): (r: Result<QueryOptionsValue, SetterError>)
    ensures r.Ok? <==> v > 0
    ensures r.Ok? ==> r.value == q.(skip := v)
    ensures r.Err? ==> r.error == NotPositive("skip")
  {
    if v <= 0 then Err(NotPositive("skip")) else Ok(q.(skip := v))
  }

  /** The setter of `limit`, the same rule. */
  function SetLimit(q: QueryOptionsValue, v: int): (r: Result<QueryOptionsValue, SetterError>)
    ensures r.Ok? <==> v > 0
    ensures r.Ok? ==> r.value == q.(limit := v)
    ensures r.Err? ==> r.error == NotPositive("limit")
  {
    if v <= 0 then Err(NotPositive("limit")) else Ok(q.(limit := v))
  }

  /** Getting after setting gives the value set, and leaves the other
      property as it was; a set property is never `nil` again. */
  lemma GetAfterSet(q: QueryOptionsValue, v: int)
    requires v > 0
    ensures GetSkip(SetSkip(q, v).value) == Some(v) && GetLimit(SetSkip(q, v).value) == GetLimit(q)
    ensures GetLimit(SetLimit(q, v).value) == Some(v) && GetSkip(SetLimit(q, v).value) == GetSkip(q)
  {
  }

  /** Built from a map, a property reads back as the map's integer, or as
      `nil` when the key is absent or holds `nil`. An explicit -1 also
      reads as `nil`, and a zero or negative integer is kept although the
      setter would refuse it. */
  lemma FromMapThenGet(m: map<string, Entry>)
    requires FromMap(m).Ok?
    ensures GetSkip(FromMap(m).value) ==
      if "skip" !in m || m["skip"].NilEntry? || m["skip"].i == UNSET then None else Some(m["skip"].i)
    ensures GetLimit(FromMap(m).value) ==
      if "limit" !in m || m["limit"].NilEntry? || m["limit"].i == UNSET then None else Some(m["limit"].i)
  {
  }
}
