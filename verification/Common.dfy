/** Small value types and byte-level helpers shared by the models. */
module Common {

  datatype Option<+T> = None | Some(value: T)

  newtype Byte = x: int | 0 <= x < 256

  type Bytes = seq<Byte>

  const NL: Byte := 10
  const CR: Byte := 13
  const OPEN_BRACE: Byte := 123

  // "event:", "data:" and "data: " as ASCII.
  const EVENT_PREFIX: Bytes := [101, 118, 101, 110, 116, 58]
  const DATA_PREFIX: Bytes := [100, 97, 116, 97, 58]
  const DATA_LEAD: Bytes := [100, 97, 116, 97, 58, 32]

  /** The position of the first occurrence of b, or -1. */
  function IndexByte(s: Bytes, b: Byte): (i: int)
    ensures -1 <= i < |s|
    ensures i == -1 <==> b !in s
    ensures i >= 0 ==> s[i] == b && b !in s[..i]
  {
    if s == [] then -1
    else if s[0] == b then 0
    else
      var j := IndexByte(s[1..], b);
      assert j >= 0 ==> s[..j + 1] == [s[0]] + s[1..][..j];
      if j == -1 then -1 else j + 1
  }

  lemma {:induction false} FirstIndex(s: Bytes, b: Byte, i: nat)
    requires i < |s| && s[i] == b && b !in s[..i]
    ensures IndexByte(s, b) == i
  {
    if i > 0 {
      assert s[0] == s[..i][0];
      assert s[1..][..i - 1] == s[..i][1..];
      FirstIndex(s[1..], b, i - 1);
    }
  }

  function Flatten<T>(parts: seq<seq<T>>): seq<T> {
    if parts == [] then [] else parts[0] + Flatten(parts[1..])
  }

  lemma FlattenNothing<T>()
    ensures Flatten<T>([]) == []
  {
  }

  lemma FlattenFront<T>(first: seq<T>, rest: seq<seq<T>>)
    ensures Flatten([first] + rest) == first + Flatten(rest)
  {
    assert ([first] + rest)[1..] == rest;
  }

  lemma {:induction false} FlattenAppend<T>(parts: seq<seq<T>>, last: seq<T>)
    ensures Flatten(parts + [last]) == Flatten(parts) + last
  {
    if parts == [] {
    } else {
      FlattenAppend(parts[1..], last);
      assert (parts + [last])[1..] == parts[1..] + [last];
    }
  }

  predicate IsSpace(b: Byte) {
    9 <= b <= 13 || b == 32
  }

  /** Drops trailing carriage returns and newlines. */
  function TrimRight(s: Bytes): (t: Bytes)
    ensures t <= s
  {
    if s != [] && (s[|s| - 1] == NL || s[|s| - 1] == CR) then TrimRight(s[..|s| - 1]) else s
  }

  function TrimLeftSpace(s: Bytes): Bytes {
    if s != [] && IsSpace(s[0]) then TrimLeftSpace(s[1..]) else s
  }

  function TrimRightSpace(s: Bytes): Bytes {
    if s != [] && IsSpace(s[|s| - 1]) then TrimRightSpace(s[..|s| - 1]) else s
  }

  function TrimSpace(s: Bytes): Bytes {
    TrimRightSpace(TrimLeftSpace(s))
  }

  predicate IsBlank(s: Bytes) {
    TrimSpace(s) == []
  }
}
