/** Period-delimited maps (src/resources/database/map.go).

    A record reaches the database layer as a nested Go map and is stored as
    a flat `FieldValues` map whose keys are dotted paths: `{"a": {"b": 1}}`
    becomes `{"a.b": 1}`. `Map` goes the other way. A value that is not a
    nested `map[string]interface{}` is a `Leaf` here, whatever its Go type. */
module FieldMaps {

  datatype Value<A> = Leaf(a: A) | Object(fields: map<string, Value<A>>)

  /* ---------------------------------------------------------------------
     Dotted keys: strings.Split and strings.Join on "."
     --------------------------------------------------------------------- */

  /** `strings.Split(s, ".")`: the pieces between the dots, at least one. */
  function Split(s: string): (parts: seq<string>)
    ensures |parts| >= 1
    ensures forall i | 0 <= i < |parts| :: '.' !in parts[i]
    ensures |parts| == 1 <==> '.' !in s
  {
    if |s| == 0 then [""]
    else if s[0] == '.' then [""] + Split(s[1..])
    else
      var rest := Split(s[1..]);
      [[s[0]] + rest[0]] + rest[1..]
  }

  /** `strings.Join(parts, ".")`. */
  function Join(parts: seq<string>): string
    requires |parts| >= 1
  {
    if |parts| == 1 then parts[0] else parts[0] + "." + Join(parts[1..])
  }

  /** Splitting and joining again gives the key back. */
  lemma {:induction false} JoinSplit(s: string)
    ensures Join(Split(s)) == s
  {
    if |s| == 0 {
    } else if s[0] == '.' {
      JoinSplit(s[1..]);
      assert s == [s[0]] + s[1..];
    } else {
      var rest := Split(s[1..]);
      JoinSplit(s[1..]);
      if |rest| == 1 {
        assert s == [s[0]] + s[1..];
      } else {
        assert Join(rest) == rest[0] + "." + Join(rest[1..]);
        assert s == [s[0]] + s[1..];
      }
    }
  }

  /** A key written as `h.t`, with no dot in `h`, splits into `h` and the
      pieces of `t`. */
  lemma {:induction false} SplitDotted(h: string, t: string)
    requires '.' !in h
    ensures Split(h + "." + t) == [h] + Split(t)
    decreases |h|
  {
    if |h| == 0 {
      assert h + "." + t == ['.'] + t;
      assert (['.'] + t)[1..] == t;
    } else {
      assert (h + "." + t)[1..] == h[1..] + "." + t;
      SplitDotted(h[1..], t);
      assert [h[0]] + h[1..] == h;
    }
  }

  /** The part of a key before its first dot: `keyParts[0]`. */
  function Head(k: string): string {
    Split(k)[0]
  }

  /** The rest of a dotted key: `strings.Join(keyParts[1:], ".")`. */
  function Tail(k: string): string
    requires '.' in k
  {
    Join(Split(k)[1..])
  }

  /** `fmt.Sprintf("%s.%s", key, innerKey)` is taken apart again by `Head`
      and `Tail` when the outer key has no dot. */
  lemma HeadTail(h: string, t: string)
    requires '.' !in h
    ensures '.' in h + "." + t && Head(h + "." + t) == h && Tail(h + "." + t) == t
  {
    SplitDotted(h, t);
    assert (h + "." + t)[|h|] == '.';
    assert [h] + Split(t) == Split(h + "." + t);
    JoinSplit(t);
  }

  /** Every dotted key is its head, a dot and its tail. */
  lemma DottedKey(k: string)
    requires '.' in k
    ensures k == Head(k) + "." + Tail(k) && '.' !in Head(k) && |Tail(k)| < |k|
  {
    var parts := Split(k);
    JoinSplit(k);
    assert Join(parts) == parts[0] + "." + Join(parts[1..]);
  }

  /* ---------------------------------------------------------------------
     constructPDMFromMap
     --------------------------------------------------------------------- */

  /** `NewFieldValuesFromEmbeddedMap`: the flattened form of a nested map. */
  ghost function Flatten<A>(m: map<string, Value<A>>): (r: map<string, Value<A>>)
    ensures forall k | k in r :: r[k].Leaf?
    decreases Object(m), 1
  {
    FlattenFields(m, Object(m))
  }

  /** `constructPDMFromMap` over the entries `m` of the object `parent`.
      Go visits the entries in an unspecified order, later writes winning;
      here `k` is whichever entry is visited last. The flattened map never
      holds a nested map. */
  ghost function FlattenFields<A>(m: map<string, Value<A>>, parent: Value<A>): (r: map<string, Value<A>>)
    requires parent.Object? && m.Keys <= parent.fields.Keys
    requires forall k | k in m :: m[k] == parent.fields[k]
    ensures forall k | k in r :: r[k].Leaf?
    decreases parent, 0, |m|
  {
    if m == map[] then map[]
    else
      var k :| k in m;
      Visit(FlattenFields(m - {k}, parent), k, m[k])
  }

  /** One turn of the loop: a leaf is stored under its key, a nested map is
      flattened and its entries are stored under `k.<key>`. */
  ghost function Visit<A>(r: map<string, Value<A>>, k: string, v: Value<A>): (r': map<string, Value<A>>)
    requires forall key | key in r :: r[key].Leaf?
    ensures forall key | key in r' :: r'[key].Leaf?
    decreases v, 2
  {
    match v
    case Leaf(_) => r[k := v]
    case Object(inner) => r + Prefixed(k, Flatten(inner))
  }

  /** The entries of `f` under the keys `k.<key>`. */
  function Prefixed<A>(k: string, f: map<string, Value<A>>): (r: map<string, Value<A>>)
    ensures forall ik | ik in f :: k + "." + ik in r && r[k + "." + ik] == f[ik]
    ensures forall key | key in r :: exists ik | ik in f :: key == k + "." + ik
  {
    var keys := set ik | ik in f :: k + "." + ik;
    map key | key in keys :: (PrefixedKey(k, f, key); f[key[|k| + 1..]])
  }

  lemma PrefixedKey<A>(k: string, f: map<string, Value<A>>, key: string)
    requires key in set ik | ik in f :: k + "." + ik
    ensures |key| > |k| && key[|k| + 1..] in f && key == k + "." + key[|k| + 1..]
  {
    var ik :| ik in f && key == k + "." + ik;
    assert key[|k| + 1..] == ik;
  }

  /** With a dot-free `k`, the keys of `Prefixed(k, f)` are the dotted
      keys with head `k` and a tail in `f`. */
  lemma PrefixedHead<A>(k: string, f: map<string, Value<A>>, key: string)
    requires '.' !in k
    ensures key in Prefixed(k, f) <==> '.' in key && Head(key) == k && Tail(key) in f
    ensures key in Prefixed(k, f) ==> Prefixed(k, f)[key] == f[Tail(key)]
  {
    if key in Prefixed(k, f) {
      var ik :| ik in f && key == k + "." + ik;
      HeadTail(k, ik);
    }
    if '.' in key && Head(key) == k && Tail(key) in f {
      DottedKey(key);
    }
  }

  /** No key of `m` has a dot. */
  predicate NoDots<A>(m: map<string, Value<A>>) {
    forall k | k in m :: '.' !in k
  }

  /** Where the flattened key `key` of `m` comes from: a leaf of `m` under
      that key, or a nested map of `m` named by the key's head whose own
      flattened form has the key's tail. */
  ghost predicate FlatKey<A>(m: map<string, Value<A>>, key: string) {
    || (key in m && m[key].Leaf?)
    || ('.' in key && Head(key) in m && m[Head(key)].Object? && Tail(key) in Flatten(m[Head(key)].fields))
  }

  /** The value found there. */
  ghost function FlatValue<A>(m: map<string, Value<A>>, key: string): Value<A>
    requires FlatKey(m, key)
  {
    if key in m && m[key].Leaf? then m[key] else Flatten(m[Head(key)].fields)[Tail(key)]
  }

  /** `r` holds exactly the flattened entries of `m`, one level down. */
  ghost predicate Describes<A>(m: map<string, Value<A>>, r: map<string, Value<A>>) {
    && (forall key :: key in r <==> FlatKey(m, key))
    && (forall key | key in r :: FlatKey(m, key) && r[key] == FlatValue(m, key))
  }

  /** When no key has a dot, the order of the visits does not matter:
      whichever entry comes last, the flattened map holds each leaf under
      its key and each entry of a nested map under `key.<inner key>`. */
  lemma {:induction false} FlattenFieldsLevel<A>(m: map<string, Value<A>>, parent: Value<A>)
    requires parent.Object? && m.Keys <= parent.fields.Keys
    requires forall k | k in m :: m[k] == parent.fields[k]
    requires NoDots(m)
    ensures Describes(m, FlattenFields(m, parent))
    decreases |m|
  {
    if m == map[] {
    } else {
      var k :| k in m && FlattenFields(m, parent) == Visit(FlattenFields(m - {k}, parent), k, m[k]);
      FlattenFieldsLevel(m - {k}, parent);
      VisitLevel(m, k, FlattenFields(m - {k}, parent));
    }
  }

  /** The step of `FlattenFieldsLevel`: visiting `k` after the rest. */
  lemma VisitLevel<A>(m: map<string, Value<A>>, k: string, r: map<string, Value<A>>)
    requires NoDots(m) && k in m && Describes(m - {k}, r)
    requires forall key | key in r :: r[key].Leaf?
    ensures Describes(m, Visit(r, k, m[k]))
  {
    var r' := Visit(r, k, m[k]);
    forall key
      ensures key in r' <==> FlatKey(m, key)
      ensures key in r' ==> r'[key] == FlatValue(m, key)
    {
      assert FlatKey(m - {k}, key) ==> FlatKey(m, key) && FlatValue(m - {k}, key) == FlatValue(m, key);
      match m[k]
      case Leaf(_) =>
        assert '.' in key && Head(key) == k ==> !FlatKey(m - {k}, key);
      case Object(inner) =>
        PrefixedHead(k, Flatten(inner), key);
    }
  }

  /** `NewFieldValuesFromEmbeddedMap` on a map without dotted keys. */
  lemma FlattenLevel<A>(m: map<string, Value<A>>)
    requires NoDots(m)
    ensures Describes(m, Flatten(m))
  {
    FlattenFieldsLevel(m, Object(m));
  }

  /** A leaf at the top level keeps its key and value. */
  lemma FlattenKeepsLeaf<A>(m: map<string, Value<A>>, k: string)
    requires NoDots(m) && k in m && m[k].Leaf?
    ensures k in Flatten(m) && Flatten(m)[k] == m[k]
  {
    FlattenLevel(m);
    assert FlatKey(m, k);
  }

  /* ---------------------------------------------------------------------
     constructMapFromFieldValues
     --------------------------------------------------------------------- */

  /** A bound on the key lengths of a map, reached by one of its keys;
      the measure that makes the recursion of `Unflatten` terminate. */
  ghost function Longest(keys: set<string>): (n: nat)
    ensures forall k | k in keys :: |k| <= n
    ensures keys != {} ==> exists k | k in keys :: |k| == n
    decreases keys
  {
    if keys == {} then 0
    else
      var k :| k in keys;
      var n := Longest(keys - {k});
      if |k| > n then |k| else n
  }

  /** The entries under the dotted keys whose head is `h`, keyed by their
      tails: `objectsToConstruct[h]`. */
  function Group<A>(f: map<string, Value<A>>, h: string): (g: map<string, Value<A>>)
    requires '.' !in h
    ensures forall t :: t in g <==> h + "." + t in f
    ensures forall t | t in g :: g[t] == f[h + "." + t]
  {
    var tails := set k | k in f && '.' in k && Head(k) == h :: Tail(k);
    var g := map t | t in tails :: (GroupKey(f, h, t); f[h + "." + t]);
    assert forall t | h + "." + t in f :: t in g by {
      forall t | h + "." + t in f ensures t in g {
        HeadTail(h, t);
      }
    }
    assert forall t | t in g :: h + "." + t in f && g[t] == f[h + "." + t] by {
      forall t | t in g ensures h + "." + t in f && g[t] == f[h + "." + t] {
        GroupKey(f, h, t);
      }
    }
    g
  }

  lemma GroupKey<A>(f: map<string, Value<A>>, h: string, t: string)
    requires t in set k | k in f && '.' in k && Head(k) == h :: Tail(k)
    ensures h + "." + t in f
  {
    var k :| k in f && '.' in k && Head(k) == h && Tail(k) == t;
    DottedKey(k);
  }

  /** `Map` and `constructMapFromFieldValues`: keys without a dot are
      copied; the entries under dotted keys are grouped by head, each group
      is rebuilt recursively from the tails, and the rebuilt maps are
      written after the plain entries, so they replace a plain entry under
      the same name. No key of the result has a dot. */
  function Unflatten<A>(f: map<string, Value<A>>): (r: map<string, Value<A>>)
    ensures forall k :: k in r <==> (k in f && '.' !in k) || IsHead(f, k)
    ensures forall k | k in r :: '.' !in k
    decreases Longest(f.Keys)
  {
    var plain := map k | k in f && '.' !in k :: f[k];
    var heads := set k | k in f && '.' in k :: Head(k);
    var nested := map h | h in heads :: (GroupShorter(f, h); Object(Unflatten(Group(f, h))));
    plain + nested
  }

  /** Some dotted key of `f` has the head `h`. */
  ghost predicate IsHead<A>(f: map<string, Value<A>>, h: string) {
    exists k | k in f && '.' in k :: Head(k) == h
  }

  /** A group's keys are shorter than the keys of the map it comes from. */
  lemma GroupShorter<A>(f: map<string, Value<A>>, h: string)
    requires IsHead(f, h) && '.' !in h
    ensures Longest(Group(f, h).Keys) < Longest(f.Keys)
  {
    var k :| k in f && '.' in k && Head(k) == h;
    DottedKey(k);
    var g := Group(f, h);
    if g != map[] {
      var t :| t in g && |t| == Longest(g.Keys);
      assert |h + "." + t| <= Longest(f.Keys);
    }
  }

  /** The entries `Unflatten` builds: a head of dotted keys holds the map
      rebuilt from its group, even when a plain entry has the same name; any
      other key keeps its value. */
  lemma UnflattenEntry<A>(f: map<string, Value<A>>, k: string)
    requires k in Unflatten(f)
    ensures '.' !in k
    ensures IsHead(f, k) ==> Unflatten(f)[k] == Object(Unflatten(Group(f, k)))
    ensures !IsHead(f, k) ==> k in f && Unflatten(f)[k] == f[k]
  {
    if IsHead(f, k) {
      var key :| key in f && '.' in key && Head(key) == k;
      DottedKey(key);
    }
  }

  /* ---------------------------------------------------------------------
     Round trips
     --------------------------------------------------------------------- */

  /** A nested map that survives flattening: no key at any depth has a dot
      and no nested map is empty (an empty one leaves no entry behind). */
  ghost predicate Plain<A>(v: Value<A>)
    decreases v
  {
    match v
    case Leaf(_) => true
    case Object(f) =>
      NoDots(f) && forall k | k in f :: (f[k].Object? ==> f[k].fields != map[]) && Plain(f[k])
  }

  /** A non-empty plain map flattens to a non-empty map. */
  lemma {:induction false} FlattenNonEmpty<A>(m: map<string, Value<A>>)
    requires Plain(Object(m)) && m != map[]
    ensures Flatten(m) != map[]
    decreases Object(m)
  {
    var k :| k in m;
    FlattenLevel(m);
    match m[k]
    case Leaf(_) =>
      assert FlatKey(m, k);
    case Object(inner) =>
      FlattenNonEmpty(inner);
      var t :| t in Flatten(inner);
      HeadTail(k, t);
      assert FlatKey(m, k + "." + t);
  }

  /** `Map` undoes `NewFieldValuesFromEmbeddedMap` on plain maps. */
  lemma {:induction false} UnflattenFlatten<A>(m: map<string, Value<A>>)
    requires Plain(Object(m))
    ensures Unflatten(Flatten(m)) == m
    decreases Object(m)
  {
    var f := Flatten(m);
    FlattenLevel(m);
    var u := Unflatten(f);
    forall k | k in u ensures k in m {
      UnflattenEntry(f, k);
      if IsHead(f, k) {
        var key :| key in f && '.' in key && Head(key) == k;
        assert FlatKey(m, key);
      } else {
        assert FlatKey(m, k);
      }
    }
    forall k | k in m ensures k in u && u[k] == m[k] {
      match m[k]
      case Leaf(_) =>
        assert FlatKey(m, k);
        UnflattenEntry(f, k);
      case Object(inner) =>
        FlattenNonEmpty(inner);
        var t :| t in Flatten(inner);
        HeadTail(k, t);
        assert FlatKey(m, k + "." + t);
        UnflattenEntry(f, k);
        GroupOfFlatten(m, k);
        UnflattenFlatten(inner);
    }
  }

  /** The group of a nested map's name in the flattened map is that nested
      map flattened. */
  lemma GroupOfFlatten<A>(m: map<string, Value<A>>, k: string)
    requires NoDots(m) && k in m && m[k].Object?
    ensures Group(Flatten(m), k) == Flatten(m[k].fields)
  {
    FlattenLevel(m);
    var f, g, inner := Flatten(m), Group(Flatten(m), k), Flatten(m[k].fields);
    forall t ensures t in g <==> t in inner {
      HeadTail(k, t);
    }
    forall t | t in g ensures g[t] == inner[t] {
      HeadTail(k, t);
    }
  }

  /** `k2` is `k1` followed by a dot and more. */
  predicate DottedPrefix(k1: string, k2: string) {
    |k1| < |k2| && k2[..|k1| + 1] == k1 + "."
  }

  /** A flat map `Map` can rebuild: only leaves, and no key is another key
      followed by a dot (the rebuilt map under `a` would replace the leaf
      under `a`, or a deeper one). */
  predicate Rebuildable<A>(f: map<string, Value<A>>) {
    && (forall k | k in f :: f[k].Leaf?)
    && (forall k1, k2 | k1 in f && k2 in f :: !DottedPrefix(k1, k2))
  }

  lemma PrefixOfJoin(h: string, t1: string, t2: string)
    requires DottedPrefix(t1, t2)
    ensures DottedPrefix(h + "." + t1, h + "." + t2)
  {
    assert (h + "." + t2)[..|h + "." + t1| + 1] == h + "." + t2[..|t1| + 1];
  }

  lemma GroupRebuildable<A>(f: map<string, Value<A>>, h: string)
    requires Rebuildable(f) && '.' !in h
    ensures Rebuildable(Group(f, h))
  {
    var g := Group(f, h);
    forall t1, t2 | t1 in g && t2 in g ensures !DottedPrefix(t1, t2) {
      if DottedPrefix(t1, t2) {
        PrefixOfJoin(h, t1, t2);
        assert false;
      }
    }
  }

  /** In a rebuildable map, a key without a dot heads no dotted key. */
  lemma NotAHead<A>(f: map<string, Value<A>>, k: string)
    requires Rebuildable(f) && k in f
    ensures !IsHead(f, k)
  {
    if IsHead(f, k) {
      var key :| key in f && '.' in key && Head(key) == k;
      DottedKey(key);
      assert false;
    }
  }

  /** `NewFieldValuesFromEmbeddedMap` undoes `Map` on rebuildable flat
      maps. */
  lemma {:induction false} FlattenUnflatten<A>(f: map<string, Value<A>>)
    requires Rebuildable(f)
    ensures Flatten(Unflatten(f)) == f
    decreases Longest(f.Keys), 1
  {
    var r := Flatten(Unflatten(f));
    forall key | key in f ensures key in r && r[key] == f[key] {
      RebuiltKey(f, key);
    }
    forall key | key in r ensures key in f {
      RebuiltFrom(f, key);
    }
  }

  /** Every key of a rebuildable map comes back, with its value. */
  lemma {:induction false} RebuiltKey<A>(f: map<string, Value<A>>, key: string)
    requires Rebuildable(f) && key in f
    ensures key in Flatten(Unflatten(f)) && Flatten(Unflatten(f))[key] == f[key]
    decreases Longest(f.Keys), 0
  {
    var u := Unflatten(f);
    FlattenLevel(u);
    if '.' in key {
      var h := Head(key);
      DottedKey(key);
      assert IsHead(f, h);
      UnflattenEntry(f, h);
      GroupShorter(f, h);
      GroupRebuildable(f, h);
      FlattenUnflatten(Group(f, h));
      assert FlatKey(u, key);
    } else {
      NotAHead(f, key);
      UnflattenEntry(f, key);
      assert FlatKey(u, key);
    }
  }

  /** Nothing comes back that was not a key of the rebuildable map. */
  lemma {:induction false} RebuiltFrom<A>(f: map<string, Value<A>>, key: string)
    requires Rebuildable(f) && key in Flatten(Unflatten(f))
    ensures key in f
    decreases Longest(f.Keys), 0
  {
    var u := Unflatten(f);
    FlattenLevel(u);
    assert FlatKey(u, key);
    if key in u && u[key].Leaf? {
      UnflattenEntry(f, key);
    } else {
      var h := Head(key);
      UnflattenEntry(f, h);
      GroupShorter(f, h);
      GroupRebuildable(f, h);
      FlattenUnflatten(Group(f, h));
      DottedKey(key);
    }
  }

  /* ---------------------------------------------------------------------
     Leaf count
     --------------------------------------------------------------------- */

  /** No key at any depth has a dot. */
  ghost predicate DotFree<A>(v: Value<A>)
    decreases v
  {
    match v
    case Leaf(_) => true
    case Object(f) => NoDots(f) && forall k | k in f :: DotFree(f[k])
  }

  /** The paths of keys that lead from `v` to its leaves. */
  ghost function LeafPaths<A>(v: Value<A>): set<seq<string>>
    decreases v
  {
    match v
    case Leaf(_) => {[]}
    case Object(f) => set k, p | k in f && p in LeafPaths(f[k]) :: [k] + p
  }

  /** Each piece of `parts` is dot-free. */
  predicate Pieces(parts: seq<string>) {
    |parts| >= 1 && forall i | 0 <= i < |parts| :: '.' !in parts[i]
  }

  /** Joining dot-free pieces and splitting again gives the pieces back,
      so `Join` is one-to-one on them. */
  lemma {:induction false} SplitJoin(parts: seq<string>)
    requires Pieces(parts)
    ensures Split(Join(parts)) == parts
    decreases |parts|
  {
    if |parts| == 1 {
      JoinSplit(parts[0]);
    } else {
      assert Pieces(parts[1..]) by {
        assert forall i | 0 <= i < |parts| - 1 :: parts[1..][i] == parts[i + 1];
      }
      SplitJoin(parts[1..]);
      SplitDotted(parts[0], Join(parts[1..]));
      assert [parts[0]] + parts[1..] == parts;
    }
  }

  /** A path to a leaf, joined with dots. */
  ghost predicate PathTo<A>(m: map<string, Value<A>>, key: string) {
    exists p | p in LeafPaths(Object(m)) :: Pieces(p) && Join(p) == key
  }

  /** The flattened keys of a dot-free map are its leaf paths, joined with
      dots. */
  lemma FlattenKeysArePaths<A>(m: map<string, Value<A>>, key: string)
    requires DotFree(Object(m))
    ensures key in Flatten(m) <==> PathTo(m, key)
  {
    if key in Flatten(m) {
      FlatKeyPath(m, key);
    }
    if PathTo(m, key) {
      PathFlatKey(m, key);
    }
  }

  lemma {:induction false} FlatKeyPath<A>(m: map<string, Value<A>>, key: string)
    requires DotFree(Object(m)) && key in Flatten(m)
    ensures PathTo(m, key)
    decreases Object(m)
  {
    FlattenLevel(m);
    assert FlatKey(m, key);
    if key in m && m[key].Leaf? {
      var p := [key];
      assert [] in LeafPaths(m[key]);
      assert [key] + [] == p;
      assert p in LeafPaths(Object(m)) && Pieces(p) && Join(p) == key;
    } else {
      var k := Head(key);
      DottedKey(key);
      FlatKeyPath(m[k].fields, Tail(key));
      var p' :| p' in LeafPaths(m[k]) && Pieces(p') && Join(p') == Tail(key);
      var p := [k] + p';
      assert p[1..] == p';
      assert Pieces(p) && Join(p) == key;
    }
  }

  lemma {:induction false} PathFlatKey<A>(m: map<string, Value<A>>, key: string)
    requires DotFree(Object(m)) && PathTo(m, key)
    ensures key in Flatten(m)
    decreases Object(m)
  {
    FlattenLevel(m);
    var p :| p in LeafPaths(Object(m)) && Pieces(p) && Join(p) == key;
    var k, p' :| k in m && p' in LeafPaths(m[k]) && p == [k] + p';
    assert p[1..] == p';
    if p' == [] {
      assert m[k].Leaf?;
      assert FlatKey(m, key);
    } else {
      assert Pieces(p') by {
        assert forall i | 0 <= i < |p'| :: p'[i] == p[i + 1];
      }
      assert key == k + "." + Join(p');
      HeadTail(k, Join(p'));
      PathFlatKey(m[k].fields, Join(p'));
      assert FlatKey(m, key);
    }
  }

  /** Every leaf path of a dot-free map is a run of dot-free pieces. */
  lemma {:induction false} PathsArePieces<A>(v: Value<A>, p: seq<string>)
    requires DotFree(v) && v.Object? && p in LeafPaths(v)
    ensures Pieces(p)
    decreases v
  {
    var k, p' :| k in v.fields && p' in LeafPaths(v.fields[k]) && p == [k] + p';
    if p' != [] {
      PathsArePieces(v.fields[k], p');
      assert forall i | 1 <= i < |p| :: p[i] == p'[i - 1];
    }
  }

  /** Paths joined with dots. */
  function Joined(paths: set<seq<string>>): set<string>
    requires forall p | p in paths :: Pieces(p)
  {
    set p | p in paths && Pieces(p) :: Join(p)
  }

  /** Joining is one-to-one on runs of dot-free pieces, so it keeps the
      number of paths. */
  lemma {:induction false} JoinCount(paths: set<seq<string>>)
    requires forall p | p in paths :: Pieces(p)
    ensures |Joined(paths)| == |paths|
    decreases |paths|
  {
    if paths != {} {
      var x :| x in paths;
      var rest := paths - {x};
      JoinCount(rest);
      assert Joined(paths) == Joined(rest) + {Join(x)};
      if Join(x) in Joined(rest) {
        var y :| y in rest && Join(y) == Join(x);
        SplitJoin(x);
        SplitJoin(y);
        assert false;
      }
    }
  }

  /** Flattening keeps one entry per leaf of a dot-free map. */
  lemma FlattenCount<A>(m: map<string, Value<A>>)
    requires DotFree(Object(m))
    ensures |Flatten(m)| == |LeafPaths(Object(m))|
  {
    var paths := LeafPaths(Object(m));
    forall p | p in paths ensures Pieces(p) {
      PathsArePieces(Object(m), p);
    }
    JoinCount(paths);
    forall key ensures key in Flatten(m) <==> key in Joined(paths) {
      FlattenKeysArePaths(m, key);
    }
    assert Flatten(m).Keys == Joined(paths);
  }
}
