/** Bytes and the well-formedness of UTF-8 (section 4 of RFC 3629). */
module Utf8 {
  type Byte = b: int | 0 <= b < 256

  predicate InRange(s: seq<Byte>, i: nat, lo: int, hi: int) { i < |s| && lo <= s[i] <= hi }

  predicate Continues(s: seq<Byte>, i: nat) { InRange(s, i, 0x80, 0xBF) }

  /** How many bytes the first character takes, 0 when there is none. */
  function CharLength(s: seq<Byte>): (n: nat)
    ensures n <= |s|
    ensures forall i :: 0 < i < n ==> s[i] >= 0x80
  {
    if s == [] then 0
    else if s[0] < 0x80 then 1
    else if 0xC2 <= s[0] <= 0xDF then (if Continues(s, 1) then 2 else 0)
    else if 0xE0 <= s[0] <= 0xEF then
      var lo := if s[0] == 0xE0 then 0xA0 else 0x80;
      var hi := if s[0] == 0xED then 0x9F else 0xBF;
      if InRange(s, 1, lo, hi) && Continues(s, 2) then 3 else 0
    else if 0xF0 <= s[0] <= 0xF4 then
      var lo := if s[0] == 0xF0 then 0x90 else 0x80;
      var hi := if s[0] == 0xF4 then 0x8F else 0xBF;
      if InRange(s, 1, lo, hi) && Continues(s, 2) && Continues(s, 3) then 4 else 0
    else 0
  }

  predicate IsUtf8(s: seq<Byte>) { s == [] || (CharLength(s) > 0 && IsUtf8(s[CharLength(s)..])) }

  /** The first character depends on its own bytes only, and ends before the next ASCII byte. */
  lemma {:induction false} FirstCharacter(a: seq<Byte>, c: Byte, b: seq<Byte>)
    requires a != [] && c < 0x80
    ensures CharLength(a + [c] + b) == CharLength(a)
  {
    var s := a + [c] + b;
    assert forall i :: 0 <= i < |a| ==> s[i] == a[i];
    assert s[|a|] == c;
  }

  /** Text falls apart into text at any ASCII byte. */
  lemma {:induction false} SplitAtAscii(a: seq<Byte>, c: Byte, b: seq<Byte>)
    requires c < 0x80
    ensures IsUtf8(a + [c] + b) <==> IsUtf8(a) && IsUtf8(b)
    decreases |a|
  {
    var s := a + [c] + b;
    if a == [] {
      assert s[1..] == b;
    } else {
      FirstCharacter(a, c, b);
      var n := CharLength(a);
      if n > 0 {
        assert s[n..] == a[n..] + [c] + b;
        SplitAtAscii(a[n..], c, b);
      }
    }
  }
}
