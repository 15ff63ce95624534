/** The interpreter's symbol table: lookup order, cloning, loop scopes, and
    the resolution of selectors and literals (src/hyper/symbols/symbols.go).

    Go maps and the loop-state record are reference values: a clone copies
    the two maps but shares the loop state. The model keeps them in a
    `Store` and gives tables references into it, so that what a clone
    shares and what it does not can be stated. */
module Symbols {
  import opened Wrappers

  /** A scope value, by how a selector can step into it: an object answers
      `Get` for a member (a value, or an error; an absent key is `nil`), a
      class answers from its class properties, and any other value has no
      members. */
  datatype ScopeValue =
    | Obj(members: map<string, Got>)
    | Cls(name: string, properties: map<string, ScopeValue>)
    | Val(kind: string)

  /** What an object's `Get` returns for a key it knows. */
  datatype Got = Found(value: ScopeValue) | Failed(reason: string)

  datatype LoopState = LoopState(shouldContinue: bool, shouldBreak: bool)

  /** The maps and loop states tables refer to; `next` is above every
      reference in use. */
  datatype Store = Store(maps: map<nat, map<string, ScopeValue>>, loops: map<nat, LoopState>, next: nat)

  predicate Good(s: Store) {
    (forall r | r in s.maps :: r < s.next) && (forall r | r in s.loops :: r < s.next)
  }

  /** `SymbolTable`: the root object's members (if any), references to the
      immutable and local maps, and to the loop state (if any). */
  datatype Table = Table(root: Option<map<string, Got>>, immutable: nat, local: nat, loop: Option<nat>)

  /** The table's references point into the store. */
  predicate Within(s: Store, t: Table) {
    t.immutable in s.maps && t.local in s.maps && (t.loop.Some? ==> t.loop.value in s.loops)
  }

  /** The names `NewSymbolTable` puts in the immutable map. */
  const BUILTINS: set<string> := {"Bool", "String", "Number", "Float", "Int", "Double", "print"}

  /** `NewSymbolTable`: the built-in classes and `print` (whose values come
      from code outside this model) as immutable, no locals, no loop. */
  function NewSymbolTable(s: Store, root: Option<map<string, Got>>, builtins: map<string, ScopeValue>): (r: (Store, Table))
    requires Good(s) && builtins.Keys == BUILTINS
    ensures Good(r.0) && Within(r.0, r.1) && r.1.loop.None? && r.1.root == root
    ensures r.0.maps[r.1.immutable] == builtins && r.0.maps[r.1.local] == map[]
    ensures r.1.immutable !in s.maps && r.1.local !in s.maps && r.1.immutable != r.1.local
    ensures forall q | q in s.maps :: q in r.0.maps && r.0.maps[q] == s.maps[q]
    ensures r.0.loops == s.loops
  {
    var t := Table(root, s.next, s.next + 1, None);
    (Store(s.maps[s.next := builtins][s.next + 1 := map[]], s.loops, s.next + 2), t)
  }

  /* ---------------------------------------------------------------------
     Get
     --------------------------------------------------------------------- */

  /** `Get`: the immutable map first, then the local map, then the root
      object; `nil` (`None`) when none has the key. An error can only come
      from the root. */
  function Get(s: Store, t: Table, key: string): (r: Result<Option<ScopeValue>, string>)
    requires Within(s, t)
    ensures key in s.maps[t.immutable] ==> r == Ok(Some(s.maps[t.immutable][key]))
    ensures key !in s.maps[t.immutable] && key in s.maps[t.local] ==> r == Ok(Some(s.maps[t.local][key]))
    ensures key !in s.maps[t.immutable] && key !in s.maps[t.local] ==>
      r == if t.root.None? || key !in t.root.value then Ok(None)
           else match t.root.value[key]
             case Found(v) => Ok(Some(v))
             case Failed(e) => Err(e)
  {
    var immutable, local := s.maps[t.immutable], s.maps[t.local];
    if key in immutable then Ok(Some(immutable[key]))
    else if key in local then Ok(Some(local[key]))
    else if t.root.Some? then
      if key !in t.root.value then Ok(None)
      else match t.root.value[key]
        case Found(v) => Ok(Some(v))
        case Failed(e) => Err(e)
    else Ok(None)
  }

  /** The store cells a table reads. */
  predicate Untouched(s: Store, s': Store, t: Table) {
    Within(s, t) && Within(s', t)
    && s'.maps[t.immutable] == s.maps[t.immutable] && s'.maps[t.local] == s.maps[t.local]
  }

  /** A lookup depends on nothing but the table's two maps and its root. */
  lemma GetFrame(s: Store, s': Store, t: Table, key: string)
    requires Untouched(s, s', t)
    ensures Get(s', t, key) == Get(s, t, key)
  {
  }

  /* ---------------------------------------------------------------------
     Declaring, cloning and loops
     --------------------------------------------------------------------- */

  datatype DeclareError = CannotReassignImmutableValue(target: string) | CannotRedeclareValue(target: string)

  /** The write of `ResolveDeclarationStatement` (src/hyper/symbols/statement.go):
      a name neither immutable nor already local becomes local. Only the
      table's local map changes. */
  function Declare(s: Store, t: Table, key: string, v: ScopeValue): (r: Result<Store, DeclareError>)
    requires Within(s, t)
    ensures r.Ok? <==> key !in s.maps[t.immutable] && key !in s.maps[t.local]
    ensures r.Err? ==> r.error == if key in s.maps[t.immutable] then CannotReassignImmutableValue(key)
                                  else CannotRedeclareValue(key)
    ensures r.Ok? ==> Within(r.value, t) && Get(r.value, t, key) == Ok(Some(v))
    ensures r.Ok? ==> r.value.loops == s.loops && r.value.next == s.next
                      && r.value.maps.Keys == s.maps.Keys
                      && forall q | q in s.maps && q != t.local :: r.value.maps[q] == s.maps[q]
  {
    if key in s.maps[t.immutable] then Err(CannotReassignImmutableValue(key))
    else if key in s.maps[t.local] then Err(CannotRedeclareValue(key))
    else Ok(s.(maps := s.maps[t.local := s.maps[t.local][key := v]]))
  }

  /** `Clone`: fresh copies of both maps, the same root, the same loop
      state. */
  function Clone(s: Store, t: Table): (r: (Store, Table))
    requires Good(s) && Within(s, t)
    ensures Good(r.0) && Within(r.0, r.1) && Within(r.0, t)
    ensures r.1.root == t.root && r.1.loop == t.loop
    ensures r.1.immutable !in s.maps && r.1.local !in s.maps && r.1.immutable != r.1.local
    ensures r.0.maps[r.1.immutable] == s.maps[t.immutable] && r.0.maps[r.1.local] == s.maps[t.local]
    ensures forall q | q in s.maps :: q in r.0.maps && r.0.maps[q] == s.maps[q]
    ensures r.0.loops == s.loops
  {
    var t' := Table(t.root, s.next, s.next + 1, t.loop);
    (Store(s.maps[s.next := s.maps[t.immutable]][s.next + 1 := s.maps[t.local]], s.loops, s.next + 2), t')
  }

  /** `StartLoop`: a clone with a loop state of its own, both flags down. */
  function StartLoop(s: Store, t: Table): (r: (Store, Table))
    requires Good(s) && Within(s, t)
    ensures Good(r.0) && Within(r.0, r.1) && Within(r.0, t)
    ensures r.1.loop.Some? && r.1.loop.value !in s.loops
    ensures r.0.loops[r.1.loop.value] == LoopState(false, false)
    ensures r.1.root == t.root
    ensures r.0.maps[r.1.immutable] == s.maps[t.immutable] && r.0.maps[r.1.local] == s.maps[t.local]
    ensures forall q | q in s.loops :: q in r.0.loops && r.0.loops[q] == s.loops[q]
  {
    var (s1, t1) := Clone(s, t);
    var ref := s1.next;
    (s1.(loops := s1.loops[ref := LoopState(false, false)], next := ref + 1), t1.(loop := Some(ref)))
  }

  /** A clone looks up every key as the original does. */
  lemma CloneAgrees(s: Store, t: Table, key: string)
    requires Good(s) && Within(s, t)
    ensures Get(Clone(s, t).0, Clone(s, t).1, key) == Get(s, t, key)
  {
  }

  /** Clone isolation: declaring a name in a clone leaves every lookup in
      the original as it was, while the clone sees the new name. */
  lemma {:induction false} CloneIsolation(s: Store, t: Table, key: string, v: ScopeValue, other: string)
    requires Good(s) && Within(s, t)
    requires var (s1, t1) := Clone(s, t); Declare(s1, t1, key, v).Ok?
    ensures var (s1, t1) := Clone(s, t);
      var s2 := Declare(s1, t1, key, v).value;
      Get(s2, t, other) == Get(s, t, other) && Get(s2, t1, key) == Ok(Some(v))
  {
    var (s1, t1) := Clone(s, t);
    var s2 := Declare(s1, t1, key, v).value;
    assert Untouched(s, s2, t);
    GetFrame(s, s2, t, other);
  }

  /* ---------------------------------------------------------------------
     ResolveSelector
     --------------------------------------------------------------------- */

  datatype SelectorError =
    | LookupFailed(reason: string)
    | UnknownSelector(chain: string)
    | UnknownProperty(chain: string, member: string)
    | CannotAccessProperty(member: string)

  /** The members joined with ".", as the error messages spell the chain. */
  function Dotted(members: seq<string>): string
    requires |members| > 0
  {
    if |members| == 1 then members[0] else Dotted(members[..|members| - 1]) + "." + members[|members| - 1]
  }

  /** One step of the loop: into an object's member, or a class's class
      property; anything else has no members. */
  function Step(current: ScopeValue, chain: string, member: string): (r: Result<ScopeValue, SelectorError>)
    ensures r.Ok? <==>
      || (current.Obj? && member in current.members && current.members[member].Found?)
      || (current.Cls? && member in current.properties)
    ensures r.Ok? && current.Obj? ==> r.value == current.members[member].value
    ensures r.Ok? && current.Cls? ==> r.value == current.properties[member]
    ensures current.Val? ==> r == Err(CannotAccessProperty(member))
  {
    match current
    case Obj(members) =>
      if member !in members then Err(UnknownProperty(chain, member))
      else (match members[member]
        case Found(v) => Ok(v)
        case Failed(e) => Err(LookupFailed(e)))
    case Cls(_, properties) =>
      if member in properties then Ok(properties[member])
      else Err(UnknownProperty(chain, member))
    case Val(_) => Err(CannotAccessProperty(member))
  }

  /** The loop over the members after the first, left to right, extending
      the chain as it goes. */
  function Walk(current: ScopeValue, chain: string, rest: seq<string>): Result<ScopeValue, SelectorError>
  {
    if rest == [] then Ok(current)
    else match Step(current, chain, rest[0])
      case Err(e) => Err(e)
      case Ok(next) => Walk(next, chain + "." + rest[0], rest[1..])
  }

  /** `ResolveSelector`: the first member through `Get`, the others through
      the loop. A selector has at least one member. */
  function ResolveSelector(s: Store, t: Table, members: seq<string>): (r: Result<ScopeValue, SelectorError>)
    requires Within(s, t) && |members| > 0
    ensures Get(s, t, members[0]) == Ok(None) ==> r == Err(UnknownSelector(members[0]))
    ensures Get(s, t, members[0]).Err? ==> r == Err(LookupFailed(Get(s, t, members[0]).error))
    ensures |members| == 1 && Get(s, t, members[0]).Ok? && Get(s, t, members[0]).value.Some? ==>
      r == Ok(Get(s, t, members[0]).value.value)
  {
    match Get(s, t, members[0])
    case Err(e) => Err(LookupFailed(e))
    case Ok(None) => Err(UnknownSelector(members[0]))
    case Ok(Some(first)) => Walk(first, members[0], members[1..])
  }

  /** One more member is one more step from where the walk ended, with the
      members walked so far (spelled by `chain`) as the chain. */
  lemma {:induction false} WalkSnocFrom(current: ScopeValue, chain: string, rest: seq<string>, m: string, walked: seq<string>)
    requires |walked| > 0 && chain == Dotted(walked)
    ensures Walk(current, chain, rest + [m]) ==
      match Walk(current, chain, rest)
      case Err(e) => Err(e)
      case Ok(v) => Step(v, Dotted(walked + rest), m)
    decreases |rest|
  {
    if rest == [] {
      assert walked + rest == walked;
      assert (rest + [m])[1..] == [];
    } else {
      assert (rest + [m])[0] == rest[0] && (rest + [m])[1..] == rest[1..] + [m];
      match Step(current, chain, rest[0])
      case Err(_) =>
      case Ok(next) =>
        var walked' := walked + [rest[0]];
        assert walked'[..|walked'| - 1] == walked;
        WalkSnocFrom(next, chain + "." + rest[0], rest[1..], m, walked');
        assert walked' + rest[1..] == walked + rest;
    }
  }

  /** Resolving a longer selector: resolve the shorter one, then take one
      step, reporting a missing member against the shorter selector's
      spelling. */
  lemma ResolveSnoc(s: Store, t: Table, members: seq<string>, m: string)
    requires Within(s, t) && |members| > 0
    ensures ResolveSelector(s, t, members + [m]) ==
      match ResolveSelector(s, t, members)
      case Err(e) => Err(e)
      case Ok(v) => Step(v, Dotted(members), m)
  {
    var ms := members + [m];
    assert ms[0] == members[0] && ms[1..] == members[1..] + [m];
    assert [members[0]] + members[1..] == members;
    match Get(s, t, members[0])
    case Err(_) =>
    case Ok(None) =>
    case Ok(Some(first)) =>
      WalkSnocFrom(first, members[0], members[1..], m, [members[0]]);
  }

  /* ---------------------------------------------------------------------
     ResolveLiteral
     --------------------------------------------------------------------- */

  /** A literal node's Go value, by dynamic type. */
  datatype Literal =
    | LitString(s: string)
    | LitInt(i: int)
    | LitFloat(x: real)
    | LitBool(b: bool)
    | LitNil
    | LitOther(goType: string)

  datatype Value =
    | StringValue(s: string)
    | IntegerValue(i: int)
    | FloatValue(x: real)
    | BooleanValue(b: bool)
    | NilValue

  datatype LiteralError = InvalidSyntaxTree(goType: string)

  /** `ResolveLiteral`: each Go literal type to its value kind; any other
      type is an invalid syntax tree. */
  function ResolveLiteral(lit: Literal): (r: Result<Value, LiteralError>)
    ensures r.Ok? <==> !lit.LitOther?
    ensures r.Err? ==> r.error == InvalidSyntaxTree(lit.goType)
  {
    match lit
    case LitString(s) => Ok(StringValue(s))
    case LitInt(i) => Ok(IntegerValue(i))
    case LitFloat(x) => Ok(FloatValue(x))
    case LitBool(b) => Ok(BooleanValue(b))
    case LitNil => Ok(NilValue)
    case LitOther(t) => Err(InvalidSyntaxTree(t))
  }

  /** The literal a value is written as. */
  function LiteralOf(v: Value): Literal {
    match v
    case StringValue(s) => LitString(s)
    case IntegerValue(i) => LitInt(i)
    case FloatValue(x) => LitFloat(x)
    case BooleanValue(b) => LitBool(b)
    case NilValue => LitNil
  }

  /** Resolving keeps the literal's kind and payload: the value is written
      as the literal it came from, and every value comes from one. */
  lemma LiteralRoundTrip(lit: Literal, v: Value)
    ensures ResolveLiteral(lit).Ok? ==> LiteralOf(ResolveLiteral(lit).value) == lit
    ensures ResolveLiteral(LiteralOf(v)) == Ok(v)
  {
  }
}
