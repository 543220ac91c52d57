/** The cursors of utils/keyset.ts: `<milliseconds>::<key>`. */
module Keyset {
  import opened Common
  import opened Decimal

  const MAX_SAFE_INTEGER: int := 0x1F_FFFF_FFFF_FFFF

  /** The range of a JavaScript Date, in milliseconds either way. */
  const MAX_DATE: int := 8_640_000_000_000_000

  datatype CursorError = InvalidCursor

  /** A position; `None` is the invalid Date a safe integer outside the range gives. */
  datatype Position = Position(time: Option<int>, key: string)

  /** What the surroundings supply: which keys are valid, and the rest of number conversion. */
  datatype Rules = Rules(valid: string -> bool, other: string -> Option<int>)

  predicate SafeInteger(n: int) {
    -MAX_SAFE_INTEGER <= n <= MAX_SAFE_INTEGER
  }

  predicate IsDate(ms: int) {
    -MAX_DATE <= ms <= MAX_DATE
  }

  function Pack(time: int, key: string): (r: string) {
    Print(time) + "::" + key
  }

  /** The position of the first "::", if there is one. */
  function SeparatorIndex(s: string): (r: Option<nat>)
    ensures r.Some? ==> r.value + 2 <= |s| && s[r.value] == ':' && s[r.value + 1] == ':'
  {
    if |s| < 2 then None
    else if s[0] == ':' && s[1] == ':' then Some(0)
    else
      match SeparatorIndex(s[1..])
      case None => None
      case Some(i) => Some(i + 1)
  }

  function Unpack(rules: Rules, cursor: string): (r: Result<Position, CursorError>) {
    match SeparatorIndex(cursor)
    case None => Err(InvalidCursor)
    case Some(idx) =>
      var timestamp := ToNumber(cursor[..idx], rules.other);
      var key := cursor[idx + 2..];
      if timestamp.None? || !SafeInteger(timestamp.value) then Err(InvalidCursor)
      else if !rules.valid(key) then Err(InvalidCursor)
      else Ok(Position(if IsDate(timestamp.value) then timestamp else None, key))
  }

  function UnpackOptional(rules: Rules, cursor: Option<string>): (r: Result<Option<Position>, CursorError>) {
    if cursor.None? then Ok(None)
    else
      match Unpack(rules, cursor.value)
      case Err(e) => Err(e)
      case Ok(p) => Ok(Some(p))
  }

  /** Text without a colon is passed over; a key that starts with a colon does not move the separator. */
  lemma {:induction false} SeparatorAfter(front: string, back: string)
    requires ':' !in front
    ensures SeparatorIndex(front + "::" + back) == Some(|front|)
    decreases |front|
  {
    var s := front + "::" + back;
    if front != "" {
      assert s[1..] == front[1..] + "::" + back;
      SeparatorAfter(front[1..], back);
      assert s[0] == front[0];
    }
  }

  /** "::" stands at `i`, and nowhere before. */
  predicate FirstSeparator(s: string, i: nat) {
    && i + 2 <= |s| && s[i] == ':' && s[i + 1] == ':'
    && forall j :: 0 <= j < i ==> !(s[j] == ':' && s[j + 1] == ':')
  }

  lemma {:induction false} SeparatorIsFirst(s: string)
    ensures SeparatorIndex(s).Some? ==> FirstSeparator(s, SeparatorIndex(s).value)
    ensures SeparatorIndex(s).None? ==> forall i: nat :: !FirstSeparator(s, i)
    decreases |s|
  {
    if |s| >= 2 && !(s[0] == ':' && s[1] == ':') {
      SeparatorIsFirst(s[1..]);
      if SeparatorIndex(s[1..]).None? {
        forall i: nat
          ensures !FirstSeparator(s, i)
        {
          if FirstSeparator(s, i) {
            assert FirstSeparator(s[1..], i - 1);
          }
        }
      }
    }
  }

  /** A cursor is taken exactly if a safe integer stands before its first separator and a valid key after it. */
  lemma UnpackIsExact(rules: Rules, cursor: string)
    ensures Unpack(rules, cursor).Ok? <==>
            exists i: nat ::
              && FirstSeparator(cursor, i) && rules.valid(cursor[i + 2..])
              && ToNumber(cursor[..i], rules.other).Some? && SafeInteger(ToNumber(cursor[..i], rules.other).value)
    ensures Unpack(rules, cursor).Ok? ==>
              exists i: nat :: FirstSeparator(cursor, i) && Unpack(rules, cursor).value.key == cursor[i + 2..]
  {
    SeparatorIsFirst(cursor);
    if i: nat :| FirstSeparator(cursor, i) {
      var k := SeparatorIndex(cursor).value;
      assert FirstSeparator(cursor, k) && i == k;
    }
  }

  /** A packed date and key are unpacked to just these, exactly if the key is valid. */
  lemma UnpackInvertsPack(rules: Rules, time: int, key: string)
    requires IsDate(time)
    ensures Unpack(rules, Pack(time, key)) ==
            if rules.valid(key) then Ok(Position(Some(time), key)) else Err(InvalidCursor)
  {
    PrintedIsRead(time, rules.other);
    SeparatorAfter(Print(time), key);
    var cursor := Pack(time, key);
    assert cursor[..|Print(time)|] == Print(time);
    assert cursor[|Print(time)| + 2..] == key;
  }

  /** Different positions have different cursors, whatever the keys. */
  lemma PackIsInjective(time: int, key: string, time': int, key': string)
    requires Pack(time, key) == Pack(time', key')
    ensures time == time' && key == key'
  {
    var other := (s: string) => None;
    PrintedIsRead(time, other);
    PrintedIsRead(time', other);
    SeparatorAfter(Print(time), key);
    SeparatorAfter(Print(time'), key');
    assert Pack(time, key)[..|Print(time)|] == Print(time);
    assert Pack(time', key')[..|Print(time')|] == Print(time');
    assert Pack(time, key)[|Print(time)| + 2..] == key;
    assert Pack(time', key')[|Print(time')| + 2..] == key';
  }
}
