/** The enumeration rules of the `Array` class, its `append` and `length`
    methods, its constructor and `NewArray`
    (internal/symbols/objects.go).

    An array value is its item class and its items; `nil` items are `None`.
    Methods that change the array in place return the changed array. Where
    the source panics or loses data, an `AsWritten` member models the code
    as it stands and the plain member the evidently intended behaviour,
    which the rest of the model uses. */
module Arrays {
  import opened Wrappers

  datatype Array<T> = Array(itemClass: string, items: seq<Option<T>>)

  datatype ArrayError =
    | IndexOutOfRange
    | StartIndexOutOfRange
    | EndIndexOutOfRange
    | InvalidIndices

  /** What a Go call does: return a value, return an error, or panic. */
  datatype Call<T> = Returns(value: T) | Raises(error: ArrayError) | Panics

  /** `NewArray`: `n` nil items. */
  function NewArray<T>(itemClass: string, n: nat): (a: Array<T>)
    ensures a.itemClass == itemClass && |a.items| == n
    ensures forall i | 0 <= i < n :: a.items[i] == None
  {
    Array(itemClass, seq(n, _ => None))
  }

  /** The `length` method. */
  function Length<T>(a: Array<T>): (n: nat)
    ensures n == |a.items|
  {
    |a.items|
  }

  /** The `append` method: one more item, last; the others stay. */
  function Append<T>(a: Array<T>, x: Option<T>): (r: Array<T>)
    ensures r.itemClass == a.itemClass && Length(r) == Length(a) + 1
    ensures r.items[Length(a)] == x && r.items[..Length(a)] == a.items
  {
    Array(a.itemClass, a.items + [x])
  }

  /* ---------------------------------------------------------------------
     GetIndex and SetIndex
     --------------------------------------------------------------------- */

  /** `GetIndex` as written: the guard `index > len` lets `index == len`
      through, and reading there is a Go index panic. */
  function GetIndexAsWritten<T>(a: Array<T>, index: int): (r: Call<Option<T>>)
    ensures r.Panics? <==> index == |a.items|
    ensures r.Returns? <==> 0 <= index < |a.items|
  {
    if index > |a.items| || index < 0 then Raises(IndexOutOfRange)
    else if index == |a.items| then Panics
    else Returns(a.items[index])
  }

  /** `GetIndex` with the guard `index >= len`: an item for every index in
      range, `IndexOutOfRange` for every other, never a panic. */
  function GetIndex<T>(a: Array<T>, index: int): (r: Result<Option<T>, ArrayError>)
    ensures r.Ok? <==> 0 <= index < Length(a)
    ensures r.Ok? ==> r.value == a.items[index]
    ensures r.Err? ==> r.error == IndexOutOfRange
  {
    if index >= |a.items| || index < 0 then Err(IndexOutOfRange)
    else Ok(a.items[index])
  }

  /** `SetIndex` as written, with the same guard and the same panic. */
  function SetIndexAsWritten<T>(a: Array<T>, index: int, x: Option<T>): (r: Call<Array<T>>)
    ensures r.Panics? <==> index == |a.items|
    ensures r.Returns? <==> 0 <= index < |a.items|
  {
    if index > |a.items| || index < 0 then Raises(IndexOutOfRange)
    else if index == |a.items| then Panics
    else Returns(a.(items := a.items[index := x]))
  }

  /** `SetIndex` with the guard `index >= len`: only that position changes
      and the length stays. */
  function SetIndex<T>(a: Array<T>, index: int, x: Option<T>): (r: Result<Array<T>, ArrayError>)
    ensures r.Ok? <==> 0 <= index < Length(a)
    ensures r.Ok? ==> r.value.itemClass == a.itemClass && Length(r.value) == Length(a)
                      && r.value.items[index] == x
                      && forall j | 0 <= j < Length(a) && j != index :: r.value.items[j] == a.items[j]
    ensures r.Err? ==> r.error == IndexOutOfRange
  {
    if index >= |a.items| || index < 0 then Err(IndexOutOfRange)
    else Ok(a.(items := a.items[index := x]))
  }

  /** Reading after writing: the written item at that index, the old item
      everywhere else. */
  lemma GetAfterSet<T>(a: Array<T>, i: int, j: int, x: Option<T>)
    requires SetIndex(a, i, x).Ok?
    ensures GetIndex(SetIndex(a, i, x).value, j) == if i == j then Ok(x) else GetIndex(a, j)
  {
  }

  /** The index equal to the length is the one input on which the two
      versions of `GetIndex` and `SetIndex` part. */
  lemma IndexVersionsAgree<T>(a: Array<T>, i: int, x: Option<T>)
    requires i != |a.items|
    ensures GetIndexAsWritten(a, i) == match GetIndex(a, i) case Ok(v) => Returns(v) case Err(e) => Raises(e)
    ensures SetIndexAsWritten(a, i, x) == match SetIndex(a, i, x) case Ok(v) => Returns(v) case Err(e) => Raises(e)
  {
  }

  /* ---------------------------------------------------------------------
     GetRange
     --------------------------------------------------------------------- */

  /** The items in reverse order. */
  function Reverse<T>(s: seq<T>): (r: seq<T>)
    ensures |r| == |s| && forall i | 0 <= i < |s| :: r[i] == s[|s| - 1 - i]
  {
    if s == [] then [] else Reverse(s[1..]) + [s[0]]
  }

  lemma ReverseReverse<T>(s: seq<T>)
    ensures Reverse(Reverse(s)) == s
  {
  }

  function Min(x: int, y: int): int { if x <= y then x else y }
  function Max(x: int, y: int): int { if x >= y then x else y }

  /** `GetRange` as written. In the reversing branch `start :=` declares a
      new `start` that the next line reads, so the bounds come out as
      `end` and `max(end, end)`: every reversed range is empty. */
  function GetRangeAsWritten<T>(a: Array<T>, start: int, end: int): (r: Call<Array<T>>)
    ensures 0 <= end < start <= |a.items| ==> r == Returns(Array(a.itemClass, []))
  {
    if start > |a.items| || start < 0 then Raises(StartIndexOutOfRange)
    else if end > |a.items| || end < 0 then Raises(EndIndexOutOfRange)
    else if start > end then
      var start' := Min(start, end);
      var end' := Max(start', end);
      var s := Reverse(a.items);
      assert s[start'..end'] == [];
      Returns(Array(a.itemClass, s[start'..end']))
    else Returns(Array(a.itemClass, a.items[start..end]))
  }

  /** `GetRange` with the reversing branch's bounds `min(start, end)` and
      `max(start, end)`: a forward range is the slice; a reversed one holds
      `start - end` items read from the reversed array. Bounds outside
      `[0, len]` are refused, `start` first. */
  function GetRange<T>(a: Array<T>, start: int, end: int): (r: Result<Array<T>, ArrayError>)
    ensures r.Ok? <==> 0 <= start <= Length(a) && 0 <= end <= Length(a)
    ensures r.Err? ==> r.error == if 0 <= start <= Length(a) then EndIndexOutOfRange else StartIndexOutOfRange
    ensures r.Ok? && start <= end ==> r.value == Array(a.itemClass, a.items[start..end])
    ensures r.Ok? && end < start ==>
      && r.value.itemClass == a.itemClass
      && Length(r.value) == start - end
      && forall k | 0 <= k < start - end :: r.value.items[k] == a.items[Length(a) - 1 - end - k]
  {
    if start > |a.items| || start < 0 then Err(StartIndexOutOfRange)
    else if end > |a.items| || end < 0 then Err(EndIndexOutOfRange)
    else if start > end then
      var s := Reverse(a.items);
      Ok(Array(a.itemClass, s[Min(start, end)..Max(start, end)]))
    else Ok(Array(a.itemClass, a.items[start..end]))
  }

  /** The two versions of `GetRange` agree except on reversed ranges, where
      the one as written is empty and the other is not. */
  lemma RangeVersions<T>(a: Array<T>, start: int, end: int)
    ensures !(0 <= end < start <= |a.items|) ==>
      GetRangeAsWritten(a, start, end) == match GetRange(a, start, end) case Ok(v) => Returns(v) case Err(e) => Raises(e)
    ensures 0 <= end < start <= |a.items| ==>
      GetRange(a, start, end).Ok? && |GetRange(a, start, end).value.items| > 0
      && GetRangeAsWritten(a, start, end).value.items == []
  {
  }

  /* ---------------------------------------------------------------------
     SetRange
     --------------------------------------------------------------------- */

  /** The check shared by both versions of `SetRange`. */
  function RangeCheck(n: nat, start: int, end: int): (r: Outcome<ArrayError>)
    ensures r.Pass? <==> 0 <= start <= end <= n
  {
    if start > n || start < 0 then Fail(StartIndexOutOfRange)
    else if end > n || end < 0 then Fail(EndIndexOutOfRange)
    else if start > end then Fail(InvalidIndices)
    else Pass
  }

  /** The first `n` cells of the backing array after `ins` was written in
      place from `start`. */
  function Overwritten<T>(items: seq<T>, start: nat, ins: seq<T>): (r: seq<T>)
    ensures |r| == |items|
    ensures forall k | 0 <= k < |items| ::
      r[k] == if start <= k < start + |ins| then ins[k - start] else items[k]
  {
    seq(|items|, k requires 0 <= k < |items| => if start <= k < start + |ins| then ins[k - start] else items[k])
  }

  /** `SetRange` as written. `tailItems` is a view of the backing array, so
      when the first `append` fits in the capacity `cap` it writes the
      inserted items over the tail before the tail is copied back. The
      capacity is that of the array's slice, which the rest of the model
      does not track. */
  function SetRangeAsWritten<T>(a: Array<T>, cap: nat, start: int, end: int, ins: seq<Option<T>>): (r: Call<Array<T>>)
    requires |a.items| <= cap
    ensures r.Returns? <==> 0 <= start <= end <= |a.items|
    ensures r.Returns? ==> |r.value.items| == |a.items| - (end - start) + |ins|
    ensures r.Returns? && start + |ins| <= cap && end < |a.items| && end < start + |ins| ==>
      r.value.items[start + |ins|] == ins[end - start]
  {
    match RangeCheck(|a.items|, start, end)
    case Fail(e) => Raises(e)
    case Pass =>
      var tail := if start + |ins| <= cap then Overwritten(a.items, start, ins)[end..] else a.items[end..];
      Returns(Array(a.itemClass, a.items[..start] + ins + tail))
  }

  /** `SetRange` as intended: the items before `start`, then the inserted
      items, then the items from `end` on. */
  function SetRange<T>(a: Array<T>, start: int, end: int, ins: seq<Option<T>>): (r: Result<Array<T>, ArrayError>)
    ensures r.Ok? <==> 0 <= start <= end <= Length(a)
    ensures r.Err? ==> r.error == RangeCheck(Length(a), start, end).error
    ensures r.Ok? ==>
      && r.value.itemClass == a.itemClass
      && Length(r.value) == Length(a) - (end - start) + |ins|
      && r.value.items[..start] == a.items[..start]
      && r.value.items[start..start + |ins|] == ins
      && r.value.items[start + |ins|..] == a.items[end..]
  {
    match RangeCheck(|a.items|, start, end)
    case Fail(e) => Err(e)
    case Pass =>
      var r := a.items[..start] + ins + a.items[end..];
      assert r[..start] == a.items[..start];
      assert r[start..start + |ins|] == ins;
      assert r[start + |ins|..] == a.items[end..];
      Ok(Array(a.itemClass, r))
  }

  /** Reading back the range just written gives the inserted items. */
  lemma GetAfterSetRange<T>(a: Array<T>, start: int, end: int, ins: seq<Option<T>>)
    requires SetRange(a, start, end, ins).Ok?
    ensures GetRange(SetRange(a, start, end, ins).value, start, start + |ins|) == Ok(Array(a.itemClass, ins))
  {
  }

  /** `append` is the splice of one item at the end. */
  lemma AppendIsSplice<T>(a: Array<T>, x: Option<T>)
    ensures SetRange(a, Length(a), Length(a), [x]) == Ok(Append(a, x))
  {
    var n := |a.items|;
    var r := SetRange(a, n, n, [x]).value.items;
    assert r == r[..n] + r[n..n + 1] + r[n + 1..];
    assert a.items[n..] == [];
    assert r == a.items + [x];
  }

  /** The two versions agree whenever the first `append` reallocates, or
      the inserted items end before the tail starts. */
  lemma {:induction false} SetRangeVersions<T>(a: Array<T>, cap: nat, start: int, end: int, ins: seq<Option<T>>)
    requires |a.items| <= cap && 0 <= start <= end <= |a.items|
    requires start + |ins| > cap || start + |ins| <= end
    ensures SetRangeAsWritten(a, cap, start, end, ins) == Returns(SetRange(a, start, end, ins).value)
  {
    if start + |ins| <= cap {
      assert Overwritten(a.items, start, ins)[end..] == a.items[end..];
    }
  }

  /** A three-item array whose one-item range at the front is replaced by
      two items: the tail's first item is overwritten before it is copied,
      so the result is [9, 9, 9, 3] where [9, 9, 2, 3] was meant. */
  lemma SetRangeOverwritesTail()
    ensures var a := Array("Integer", [Some(1), Some(2), Some(3)]);
      && SetRangeAsWritten(a, 3, 0, 1, [Some(9), Some(9)]) == Returns(Array("Integer", [Some(9), Some(9), Some(9), Some(3)]))
      && SetRange(a, 0, 1, [Some(9), Some(9)]) == Ok(Array("Integer", [Some(9), Some(9), Some(2), Some(3)]))
  {
    var a := Array("Integer", [Some(1), Some(2), Some(3)]);
    var ins := [Some(9), Some(9)];
    var written := Overwritten(a.items, 0, ins);
    assert written[1..] == [Some(9), Some(3)];
    assert a.items[..0] + ins + written[1..] == [Some(9), Some(9), Some(9), Some(3)];
    assert a.items[..0] + ins + a.items[1..] == [Some(9), Some(9), Some(2), Some(3)];
  }

  /* ---------------------------------------------------------------------
     The constructor
     --------------------------------------------------------------------- */

  /** Go's `copy(dst, src)`: the first `min(len(dst), len(src))` items of
      `src` over those of `dst`. */
  function GoCopy<T>(dst: seq<T>, src: seq<T>): (r: seq<T>)
    ensures |r| == |dst|
    ensures forall i | 0 <= i < |dst| :: r[i] == if i < |src| then src[i] else dst[i]
  {
    var n := Min(|dst|, |src|);
    src[..n] + dst[n..]
  }

  /** The constructor as written: `copy(arr.Items, newArray.Items)` copies
      the fresh nil items over the argument's. It returns the new array
      and the argument as the call leaves it: both all nil. */
  function ConstructAsWritten<T>(arg: Array<T>): (r: (Array<T>, Array<T>))
    ensures |r.0.items| == |arg.items| && |r.1.items| == |arg.items|
    ensures forall i | 0 <= i < |arg.items| :: r.0.items[i] == None && r.1.items[i] == None
  {
    var blank := seq(|arg.items|, _ => None);
    (Array(arg.itemClass, blank), arg.(items := GoCopy(arg.items, blank)))
  }

  /** The constructor as intended, `copy(newArray.Items, arr.Items)`: a new
      array with the argument's items, the argument untouched. */
  function Construct<T>(arg: Array<T>): (r: (Array<T>, Array<T>))
    ensures r.0 == arg && r.1 == arg
  {
    var blank := seq(|arg.items|, _ => None);
    (Array(arg.itemClass, GoCopy(blank, arg.items)), arg)
  }

  /** The constructor as written loses every item that is not nil, from
      both the copy and the argument. */
  lemma ConstructVersions<T>(arg: Array<T>, i: nat)
    requires i < |arg.items| && arg.items[i].Some?
    ensures ConstructAsWritten(arg).0 != Construct(arg).0
    ensures ConstructAsWritten(arg).1 != arg
  {
    assert ConstructAsWritten(arg).0.items[i] != Construct(arg).0.items[i];
  }
}
