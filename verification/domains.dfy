/** Domains: the nested objects through which a context reaches the
    contexts it imports under dotted selectors (`Domain` in
    internal/domain/context.go).

    A context is known here by its identifier. Go's `Domain` is a map, and
    `AddContextBySelector` changes it in place; the model returns the
    changed domain. */
module Domains {
  import opened Wrappers
  import FieldMaps

  /** A selector's value, by the cases `AddContextBySelector` tells apart. */
  datatype Entry =
    | Domain(entries: map<string, Entry>)
    | Context(id: string)
    | Remote(id: string)
    | Other(kind: string)

  /** Importing a context where a context already stands. */
  datatype DomainError = ContextInContext(imported: string, existing: string)

  /** `NewDomainFromSelectors`: only domains and contexts are kept. */
  function NewDomainFromSelectors(selectors: map<string, Entry>): (d: map<string, Entry>)
    ensures forall k | k in d :: k in selectors && d[k] == selectors[k]
    ensures forall k | k in selectors :: k in d <==> selectors[k].Domain? || selectors[k].Context?
  {
    map k | k in selectors && (selectors[k].Domain? || selectors[k].Context?) :: selectors[k]
  }

  /** Where a selector's parts lead in a domain: they end at a part that
      is free (the last part, or an absent one), or stop at a context or
      another non-domain value before the last part. */
  datatype Path = Free | AtContext(existing: string) | AtValue

  function PathOf(d: map<string, Entry>, parts: seq<string>): Path
    requires |parts| >= 1
    decreases |parts|
  {
    if |parts| == 1 || parts[0] !in d then Free
    else match d[parts[0]]
      case Domain(inner) => PathOf(inner, parts[1..])
      case Context(id) => AtContext(id)
      case _ => AtValue
  }

  /** What a selector's parts name in a domain, if anything. */
  function Lookup(d: map<string, Entry>, parts: seq<string>): Option<Entry>
    requires |parts| >= 1
    decreases |parts|
  {
    if parts[0] !in d then None
    else if |parts| == 1 then Some(d[parts[0]])
    else match d[parts[0]]
      case Domain(inner) => Lookup(inner, parts[1..])
      case _ => None
  }

  /** `AddContextBySelector` on the parts of the selector. A one-part
      selector is set, whatever stood there; otherwise an absent first
      part gets a new domain, an existing domain is entered, a context is
      an error, and any other value leaves the domain as it was. */
  function AddParts(d: map<string, Entry>, parts: seq<string>, ctx: string): (r: Result<map<string, Entry>, DomainError>)
    requires |parts| >= 1
    ensures r.Err? <==> PathOf(d, parts).AtContext?
    ensures r.Err? ==> r.error == ContextInContext(ctx, PathOf(d, parts).existing)
    ensures PathOf(d, parts) == AtValue ==> r == Ok(d)
    ensures r.Ok? ==> r.value.Keys == d.Keys + (if PathOf(d, parts).Free? then {parts[0]} else {})
    ensures r.Ok? ==> forall k | k in d && k != parts[0] :: r.value[k] == d[k]
    ensures PathOf(d, parts).Free? ==> r.Ok? && Lookup(r.value, parts) == Some(Remote(ctx))
    decreases |parts|
  {
    if |parts| == 1 then Ok(d[parts[0] := Remote(ctx)])
    else if parts[0] !in d then
      var next := AddParts(map[], parts[1..], ctx);
      Ok(d[parts[0] := Domain(next.value)])
    else match d[parts[0]]
      case Context(existing) => Err(ContextInContext(ctx, existing))
      case Domain(inner) =>
        (match AddParts(inner, parts[1..], ctx)
         case Err(e) => Err(e)
         case Ok(inner') =>
           assert inner' == inner ==> d[parts[0] := Domain(inner')] == d;
           Ok(d[parts[0] := Domain(inner')]))
      case _ => Ok(d)
  }

  /** `AddContextBySelector`: the selector split on ".". */
  function AddContextBySelector(d: map<string, Entry>, selector: string, ctx: string): (r: Result<map<string, Entry>, DomainError>)
    ensures '.' !in selector ==> r == Ok(d[selector := Remote(ctx)])
    ensures PathOf(d, FieldMaps.Split(selector)).Free? ==>
      r.Ok? && Lookup(r.value, FieldMaps.Split(selector)) == Some(Remote(ctx))
  {
    assert '.' !in selector ==> FieldMaps.Split(selector) == [selector] by {
      if '.' !in selector {
        FieldMaps.JoinSplit(selector);
      }
    }
    AddParts(d, FieldMaps.Split(selector), ctx)
  }

  /** The Go recursion passes the remaining parts joined with "." and splits
      them again; that gives the same parts back, so recursing on the parts
      is the same. */
  lemma {:induction false} RejoinedTail(selector: string)
    requires '.' in selector
    ensures FieldMaps.Split(FieldMaps.Join(FieldMaps.Split(selector)[1..])) == FieldMaps.Split(selector)[1..]
  {
    var parts := FieldMaps.Split(selector);
    assert FieldMaps.Pieces(parts[1..]);
    FieldMaps.SplitJoin(parts[1..]);
  }

  /** `addContextToSelectors`: the imported context under its identifier,
      in a domain that keeps only the domains and contexts of the old
      selectors. A selector that is neither a domain nor a context is
      gone afterwards unless the import put something under its name. */
  function AddContextToSelectors(selectors: map<string, Entry>, imported: string): (r: map<string, Entry>)
    ensures forall k | k in selectors && k != FieldMaps.Split(imported)[0] ::
      k in r <==> selectors[k].Domain? || selectors[k].Context?
  {
    var d := NewDomainFromSelectors(selectors);
    match AddContextBySelector(d, imported, imported)
    case Ok(d') => d'
    case Err(_) => d
  }
}
