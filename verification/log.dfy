/** The runtime logger's level filter (src/runtime/log/log.go).

    The package keeps the current level in a global; here it is a value
    passed in and returned. The clock and the environment are parameters,
    and the logger a message goes to is left out: `Output` returns the
    message it would hand over, or nothing. */
module Log {
  import opened Wrappers

  type LogLevel = string

  /** `LoggerLevels`, least severe first. */
  const LEVELS: seq<LogLevel> := ["DEBUG", "INFO", "WARN", "ERROR", "FATAL"]
  const INFO_INDEX := 1

  /** The position of `level` at or after `from` in `LEVELS`, or -1. */
  function IndexFrom(level: LogLevel, from: nat): (i: int)
    requires from <= |LEVELS|
    ensures -1 <= i < |LEVELS|
    ensures i >= 0 ==> from <= i && LEVELS[i] == level && forall j | from <= j < i :: LEVELS[j] != level
    ensures i == -1 <==> forall j | from <= j < |LEVELS| :: LEVELS[j] != level
    decreases |LEVELS| - from
  {
    if from == |LEVELS| then -1
    else if LEVELS[from] == level then from
    else IndexFrom(level, from + 1)
  }

  /** `LogLevel.Index`: the level's position in `LEVELS`, or -1 for a
      string that is not a level. */
  function Index(level: LogLevel): (i: int)
    ensures -1 <= i < |LEVELS|
    ensures i >= 0 ==> LEVELS[i] == level
    ensures i == -1 <==> level !in LEVELS
  {
    IndexFrom(level, 0)
  }

  /** The levels are distinct, so a level's index is its only position. */
  lemma IndexOfLevel(i: nat)
    requires i < |LEVELS|
    ensures Index(LEVELS[i]) == i
  {
  }

  /** ASCII upper case. */
  function Upper(s: string): (r: string)
    ensures |r| == |s|
    ensures forall i | 0 <= i < |s| :: r[i] == if 'a' <= s[i] <= 'z' then (s[i] as int - 32) as char else s[i]
  {
    if s == [] then [] else [if 'a' <= s[0] <= 'z' then (s[0] as int - 32) as char else s[0]] + Upper(s[1..])
  }

  /** The package's `init`: the index of `LOG_LEVEL` in upper case when the
      variable is set and not empty, else that of INFO. An unknown
      `LOG_LEVEL` gives -1, which lets every message through. */
  function InitialLevel(env: Option<string>): (current: int)
    ensures env.None? || env == Some("") ==> current == INFO_INDEX
    ensures env.Some? && env.value != "" ==> current == Index(Upper(env.value))
  {
    if env.Some? && env.value != "" then Index(Upper(env.value)) else Index("INFO")
  }

  /** `SetLevel`: the level's index, or INFO's for an unknown level. */
  function SetLevel(level: LogLevel): (current: int)
    ensures 0 <= current < |LEVELS|
    ensures level in LEVELS ==> LEVELS[current] == level
    ensures level !in LEVELS ==> current == INFO_INDEX
  {
    var i := Index(level);
    if i == -1 then INFO_INDEX else i
  }

  /** `LoggerMessage`. Go's `Data` is an `interface{}` the logger only
      passes on, so its type is a parameter here. */
  datatype Message<D> = Message(timestamp: int, level: LogLevel, signal: Option<string>, text: string, data: D)

  /** A zero timestamp is Go's zero `time.Time`. */
  const ZERO_TIME := 0

  /** `Output`: a zero timestamp becomes `now`; an unknown level becomes
      INFO; the message goes out exactly when the current level is at most
      the message's. */
  function Output<D>(current: int, msg: Message<D>, now: int): (r: Option<Message<D>>)
    ensures var idx := if msg.level in LEVELS then Index(msg.level) else INFO_INDEX;
      r.Some? <==> current <= idx
    ensures r.Some? ==> r.value.level == (if msg.level in LEVELS then msg.level else "INFO")
    ensures r.Some? ==> r.value.timestamp == (if msg.timestamp == ZERO_TIME then now else msg.timestamp)
    ensures r.Some? ==> r.value.signal == msg.signal && r.value.text == msg.text && r.value.data == msg.data
  {
    var stamped := if msg.timestamp == ZERO_TIME then msg.(timestamp := now) else msg;
    var idx := Index(stamped.level);
    var (out, idx') := if idx == -1 then (stamped.(level := "INFO"), INFO_INDEX) else (stamped, idx);
    if current <= idx' then Some(out) else None
  }

  /** The filter is a threshold: what passes at one level passes at every
      more severe level, and a message at the level just set always
      passes. */
  lemma OutputThreshold<D>(current: int, i: nat, j: nat, msg: Message<D>, now: int, level: LogLevel)
    requires i <= j < |LEVELS|
    ensures Output(current, msg.(level := LEVELS[i]), now).Some? ==> Output(current, msg.(level := LEVELS[j]), now).Some?
    ensures Output(SetLevel(level), msg.(level := level), now).Some?
  {
    IndexOfLevel(i);
    IndexOfLevel(j);
  }

  /** With an unknown `LOG_LEVEL` every message passes, while `SetLevel`
      with an unknown level would hold back DEBUG. */
  lemma UnknownEnvironmentLevel<D>(env: string, msg: Message<D>, now: int)
    requires env != "" && Upper(env) !in LEVELS
    ensures Output(InitialLevel(Some(env)), msg, now).Some?
    ensures Output(SetLevel(env), msg.(level := "DEBUG"), now).None?
  {
    assert env !in LEVELS by {
      if env in LEVELS {
        LevelIsUpper(env);
      }
    }
    assert InitialLevel(Some(env)) == -1;
    assert SetLevel(env) == INFO_INDEX;
    assert "DEBUG" == LEVELS[0];
    IndexOfLevel(0);
  }

  /** Every level is already upper case. */
  lemma LevelIsUpper(level: LogLevel)
    requires level in LEVELS
    ensures Upper(level) == level
  {
    assert forall i | 0 <= i < |level| :: !('a' <= level[i] <= 'z');
    assert forall i | 0 <= i < |level| :: Upper(level)[i] == level[i];
  }
}
