/**
 * Route canonicalisation of src/config.rs: percent-decoding until nothing changes (section 2.1 of
 * RFC 3986), at most eight times, then removal of empty and dot segments (a variant of section
 * 5.2.4 of RFC 3986). Paths are byte strings.
 */
module Canonical {
  import opened Wrappers
  import opened Utf8

  type Bytes = seq<Byte>

  const PERCENT: Byte := 37
  const DOT: Byte := 46
  const SLASH: Byte := 47
  const BACKSLASH: Byte := 92
  const MAX_ROUNDS: nat := 8

  // ----- percent-decoding ---------------------------------------------------------------------------

  function HexValue(b: Byte): Option<Byte> {
    if 48 <= b <= 57 then Some(b - 48)
    else if 97 <= b <= 102 then Some(b - 97 + 10)
    else if 65 <= b <= 70 then Some(b - 65 + 10)
    else None
  }

  lemma HexValueSmall(b: Byte)
    ensures HexValue(b).Some? ==> HexValue(b).value < 16
  {}

  /** The byte that two hexadecimal digits stand for. */
  function HexPair(high: Byte, low: Byte): Option<Byte> {
    if HexValue(high).None? || HexValue(low).None? then None
    else
      HexValueSmall(high);
      HexValueSmall(low);
      Some(HexValue(high).value * 16 + HexValue(low).value)
  }

  /** `e` spells `p`: every byte as itself or as an escape, and `%` only as an escape. */
  ghost predicate Encodes(e: Bytes, p: Bytes)
    decreases |p|
  {
    if p == [] then e == []
    else
      || (p[0] != PERCENT && e != [] && e[0] == p[0] && Encodes(e[1..], p[1..]))
      || (|e| >= 3 && e[0] == PERCENT && HexPair(e[1], e[2]) == Some(p[0]) && Encodes(e[3..], p[1..]))
  }

  function Decode(s: Bytes): Option<Bytes>
    decreases |s|
  {
    if s == [] then Some([])
    else if s[0] != PERCENT then
      var rest := Decode(s[1..]);
      if rest.None? then None else Some([s[0]] + rest.value)
    else if |s| < 3 || HexPair(s[1], s[2]).None? then None
    else
      var rest := Decode(s[3..]);
      if rest.None? then None else Some([HexPair(s[1], s[2]).value] + rest.value)
  }

  /** Decoding inverts every encoding, and nothing else. */
  lemma {:induction false} DecodeInvertsEncode(e: Bytes, p: Bytes)
    ensures Decode(e) == Some(p) <==> Encodes(e, p)
    decreases |e|
  {
    if e != [] && p != [] {
      if e[0] != PERCENT {
        DecodeInvertsEncode(e[1..], p[1..]);
        assert p == [p[0]] + p[1..];
      } else if |e| >= 3 {
        DecodeInvertsEncode(e[3..], p[1..]);
        assert p == [p[0]] + p[1..];
      }
    }
  }

  /** Decoding changes exactly the byte strings that hold a `%`. */
  lemma {:induction false} DecodeFixesPlain(s: Bytes)
    ensures Decode(s).Some? ==> |Decode(s).value| <= |s| && (|Decode(s).value| == |s| ==> PERCENT !in s)
    ensures PERCENT !in s ==> Decode(s) == Some(s)
    ensures Decode(s) == Some(s) <==> PERCENT !in s
    decreases |s|
  {
    if s != [] {
      assert s == [s[0]] + s[1..];
      if s[0] != PERCENT {
        DecodeFixesPlain(s[1..]);
      } else if |s| >= 3 {
        DecodeFixesPlain(s[3..]);
      }
    }
  }

  method PercentDecode(input: Bytes) returns (output: Option<Bytes>)
    ensures output == Decode(input)
  {
    var out: Bytes := [];
    var index := 0;
    assert input[0..] == input;
    assert Decode(input).Some? ==> [] + Decode(input).value == Decode(input).value;
    while index < |input|
      invariant 0 <= index <= |input|
      invariant Decode(input) == Prefixed(out, Decode(input[index..]))
    {
      ghost var rest := input[index..];
      if input[index] != PERCENT {
        assert rest[1..] == input[index + 1..];
        PrefixedTwice(out, input[index], Decode(rest[1..]));
        out := out + [input[index]];
        index := index + 1;
      } else {
        if index + 2 >= |input| {
          return None;
        }
        var b := HexPair(input[index + 1], input[index + 2]);
        if b.None? {
          return None;
        }
        assert rest[3..] == input[index + 3..];
        PrefixedTwice(out, b.value, Decode(rest[3..]));
        out := out + [b.value];
        index := index + 3;
      }
    }
    assert input[index..] == [];
    assert out + [] == out;
    output := Some(out);
  }

  ghost function Prefixed(front: Bytes, r: Option<Bytes>): Option<Bytes> {
    if r.None? then None else Some(front + r.value)
  }

  lemma PrefixedTwice(front: Bytes, b: Byte, r: Option<Bytes>)
    ensures Prefixed(front, Prefixed([b], r)) == Prefixed(front + [b], r)
  {
    if r.Some? {
      assert front + ([b] + r.value) == front + [b] + r.value;
    }
  }

  /** Decoding until it changes nothing, allowing `rounds` changes. */
  function Settle(s: Bytes, rounds: nat): Option<Bytes>
    decreases rounds
  {
    match Decode(s)
    case None => None
    case Some(next) => if next == s then Some(s) else if rounds == 0 then None else Settle(next, rounds - 1)
  }

  method DecodeFully(path: Bytes) returns (r: Option<Bytes>)
    ensures r == Settle(path, MAX_ROUNDS)
  {
    var decoded := path;
    for i := 0 to MAX_ROUNDS
      invariant Settle(path, MAX_ROUNDS) == Settle(decoded, MAX_ROUNDS - i)
    {
      var next := PercentDecode(decoded);
      if next.None? {
        return None;
      }
      if next.value == decoded {
        return Some(decoded);
      }
      decoded := next.value;
    }
    var last := PercentDecode(decoded);
    r := if last == Some(decoded) then Some(decoded) else None;
  }

  lemma {:induction false} SettledIsPlain(s: Bytes, rounds: nat)
    ensures Settle(s, rounds).Some? ==> PERCENT !in Settle(s, rounds).value
    decreases rounds
  {
    DecodeFixesPlain(s);
    if Decode(s).Some? && Decode(s).value != s && rounds > 0 {
      SettledIsPlain(Decode(s).value, rounds - 1);
    }
  }

  /** A `%`-free path and its encoding round after round. */
  ghost predicate IsEncodingChain(chain: seq<Bytes>) {
    && chain != [] && PERCENT !in chain[0]
    && forall i :: 0 < i < |chain| ==> Encodes(chain[i], chain[i - 1])
  }

  lemma {:induction false} ChainDecodes(chain: seq<Bytes>)
    requires IsEncodingChain(chain)
    ensures |chain| > 1 ==>
              IsEncodingChain(chain[..|chain| - 1]) && Decode(chain[|chain| - 1]) == Some(chain[|chain| - 2])
    ensures Decode(chain[0]) == Some(chain[0])
  {
    DecodeFixesPlain(chain[0]);
    if |chain| > 1 {
      var n := |chain| - 1;
      assert Encodes(chain[n], chain[n - 1]);
      DecodeInvertsEncode(chain[n], chain[n - 1]);
    }
  }

  lemma {:induction false} StableChain(chain: seq<Bytes>)
    requires IsEncodingChain(chain) && Decode(chain[|chain| - 1]) == Some(chain[|chain| - 1])
    ensures chain[|chain| - 1] == chain[0]
    decreases |chain|
  {
    ChainDecodes(chain);
    if |chain| > 1 {
      StableChain(chain[..|chain| - 1]);
    }
  }

  lemma {:induction false} ChainSettles(chain: seq<Bytes>, rounds: nat)
    requires IsEncodingChain(chain) && |chain| - 1 <= rounds
    ensures Settle(chain[|chain| - 1], rounds) == Some(chain[0])
    decreases |chain|
  {
    ChainDecodes(chain);
    var last := chain[|chain| - 1];
    if Decode(last) == Some(last) {
      StableChain(chain);
    } else {
      ChainSettles(chain[..|chain| - 1], rounds - 1);
    }
  }

  lemma {:induction false} LongChainIsRefused(chain: seq<Bytes>, rounds: nat)
    requires IsEncodingChain(chain) && |chain| - 1 > rounds
    requires forall i :: 0 < i < |chain| ==> chain[i] != chain[i - 1]
    ensures Settle(chain[|chain| - 1], rounds).None?
    decreases rounds
  {
    ChainDecodes(chain);
    if rounds > 0 {
      LongChainIsRefused(chain[..|chain| - 1], rounds - 1);
    }
  }

  // ----- segments -------------------------------------------------------------------------------------

  function Slashed(s: Bytes): Bytes { seq(|s|, i requires 0 <= i < |s| => if s[i] == BACKSLASH then SLASH else s[i]) }

  function IndexOfSlash(s: Bytes): (k: nat)
    requires SLASH in s
    ensures k < |s| && s[k] == SLASH && SLASH !in s[..k]
  {
    if s[0] == SLASH then 0 else 1 + IndexOfSlash(s[1..])
  }

  function Split(s: Bytes): (pieces: seq<Bytes>)
    ensures pieces != []
    decreases |s|
  {
    if SLASH !in s then [s]
    else
      var k := IndexOfSlash(s);
      [s[..k]] + Split(s[k + 1..])
  }

  const DOT_SEGMENT: Bytes := [DOT]
  const DOT_DOT_SEGMENT: Bytes := [DOT, DOT]

  /** The segments left when the pieces are resolved in order, starting from `kept`. */
  function Resolve(pieces: seq<Bytes>, kept: seq<Bytes>): seq<Bytes>
    decreases |pieces|
  {
    if pieces == [] then kept
    else Resolve(pieces[1..], ResolveOne(pieces[0], kept))
  }

  function ResolveOne(piece: Bytes, kept: seq<Bytes>): seq<Bytes> {
    if piece == [] || piece == DOT_SEGMENT then kept
    else if piece == DOT_DOT_SEGMENT then (if kept == [] then [] else kept[..|kept| - 1])
    else kept + [piece]
  }

  function Join(segments: seq<Bytes>): Bytes {
    if segments == [] then []
    else if |segments| == 1 then segments[0]
    else segments[0] + [SLASH] + Join(segments[1..])
  }

  function Render(segments: seq<Bytes>): Bytes { [SLASH] + Join(segments) }

  function CanonicalPath(path: Bytes): Option<Bytes> {
    match Settle(path, MAX_ROUNDS)
    case None => None
    case Some(decoded) =>
      if !IsUtf8(decoded) then None else Some(Render(Resolve(Split(Slashed(decoded)), [])))
  }

  /** The loop over the pieces, which pushes and pops. */
  method RemoveDotSegments(pieces: seq<Bytes>) returns (segments: seq<Bytes>)
    ensures segments == Resolve(pieces, [])
  {
    segments := [];
    for i := 0 to |pieces|
      invariant Resolve(pieces, []) == Resolve(pieces[i..], segments)
    {
      assert pieces[i..][1..] == pieces[i + 1..];
      var piece := pieces[i];
      if piece == [] || piece == DOT_SEGMENT {
      } else if piece == DOT_DOT_SEGMENT {
        if segments != [] {
          segments := segments[..|segments| - 1];
        }
      } else {
        segments := segments + [piece];
      }
    }
  }

  method CanonicalRoutePath(path: Bytes) returns (r: Option<Bytes>)
    ensures r == CanonicalPath(path)
  {
    var decoded := DecodeFully(path);
    if decoded.None? || !IsUtf8(decoded.value) {
      return None;
    }
    var segments := RemoveDotSegments(Split(Slashed(decoded.value)));
    r := Some(Render(segments));
  }

  ghost predicate IsSegment(s: Bytes) {
    && s != [] && s != DOT_SEGMENT && s != DOT_DOT_SEGMENT && IsUtf8(s)
    && PERCENT !in s && SLASH !in s && BACKSLASH !in s
  }

  ghost predicate AreSegments(segments: seq<Bytes>) { forall i :: 0 <= i < |segments| ==> IsSegment(segments[i]) }

  /** A piece between slashes: a segment, or one that is dropped. */
  ghost predicate IsPiece(s: Bytes) { IsUtf8(s) && PERCENT !in s && SLASH !in s && BACKSLASH !in s }

  ghost predicate ArePieces(pieces: seq<Bytes>) { forall i :: 0 <= i < |pieces| ==> IsPiece(pieces[i]) }

  lemma {:induction false} PiecesOfPlain(s: Bytes)
    requires IsUtf8(s) && PERCENT !in s && BACKSLASH !in s
    ensures forall i :: 0 <= i < |Split(s)| ==> IsPiece(Split(s)[i])
    decreases |s|
  {
    hide IsUtf8, IndexOfSlash;
    if SLASH in s {
      var k := IndexOfSlash(s);
      var head, tail := s[..k], s[k + 1..];
      assert s == head + [SLASH] + tail;
      SplitAtAscii(head, SLASH, tail);
      PiecesOfPlain(tail);
      assert Split(s) == [head] + Split(tail) && IsPiece(head);
    }
  }

  lemma {:induction false} ResolvedAreSegments(pieces: seq<Bytes>, kept: seq<Bytes>)
    requires (forall i :: 0 <= i < |pieces| ==> IsPiece(pieces[i])) && AreSegments(kept)
    ensures AreSegments(Resolve(pieces, kept))
    decreases |pieces|
  {
    if pieces != [] {
      assert IsPiece(pieces[0]);
      ResolvedAreSegments(pieces[1..], ResolveOne(pieces[0], kept));
    }
  }

  lemma {:induction false} SlashedKeepsText(s: Bytes)
    ensures IsUtf8(Slashed(s)) == IsUtf8(s) && BACKSLASH !in Slashed(s)
    ensures PERCENT !in s ==> PERCENT !in Slashed(s)
    ensures BACKSLASH !in s ==> Slashed(s) == s
  {
    SlashedKeepsUtf8(s);
  }

  lemma {:induction false} SlashedKeepsUtf8(s: Bytes)
    ensures IsUtf8(Slashed(s)) == IsUtf8(s)
    decreases |s|
  {
    if s != [] {
      SlashedKeepsLength(s);
      var n := CharLength(s);
      if n > 0 {
        SlashedTail(s, n);
        hide Slashed, CharLength;
        SlashedKeepsUtf8(s[n..]);
      }
    }
  }

  lemma {:induction false} SlashedKeepsLength(s: Bytes)
    ensures CharLength(Slashed(s)) == CharLength(s)
  {
    var t := Slashed(s);
    assert |t| == |s| && forall i :: 0 <= i < |s| ==> t[i] == s[i] || (s[i] == BACKSLASH && t[i] == SLASH);
    hide Slashed;
  }

  lemma {:induction false} SlashedTail(s: Bytes, n: nat)
    requires n <= |s|
    ensures Slashed(s)[n..] == Slashed(s[n..])
  {
    var tail, t := Slashed(s)[n..], Slashed(s[n..]);
    forall i | 0 <= i < |t| ensures tail[i] == t[i] {
      assert tail[i] == Slashed(s)[n + i] && s[n..][i] == s[n + i];
    }
  }

  /** Whatever is canonical is a list of proper segments, rendered. */
  lemma {:induction false} CanonicalIsRendered(path: Bytes) returns (segments: seq<Bytes>)
    requires CanonicalPath(path).Some?
    ensures AreSegments(segments) && CanonicalPath(path) == Some(Render(segments))
  {
    var decoded := Settle(path, MAX_ROUNDS).value;
    SettledIsPlain(path, MAX_ROUNDS);
    SlashedKeepsText(decoded);
    PiecesOfPlain(Slashed(decoded));
    ResolvedAreSegments(Split(Slashed(decoded)), []);
    segments := Resolve(Split(Slashed(decoded)), []);
  }

  // ----- rendered segments are read back ------------------------------------------------------------------

  lemma {:induction false} IndexIs(s: Bytes, k: nat)
    requires k < |s| && s[k] == SLASH && SLASH !in s[..k]
    ensures IndexOfSlash(s) == k
    decreases k
  {
    if k > 0 {
      assert s[..k][0] == s[0] && s[1..][..k - 1] == s[..k][1..];
      IndexIs(s[1..], k - 1);
    }
  }

  lemma {:induction false} SplitFirst(head: Bytes, rest: Bytes)
    requires SLASH !in head
    ensures Split(head + [SLASH] + rest) == [head] + Split(rest)
  {
    var s := head + [SLASH] + rest;
    assert s[|head|] == SLASH && s[..|head|] == head && s[|head| + 1..] == rest;
    IndexIs(s, |head|);
  }

  lemma {:induction false} SplitJoin(segments: seq<Bytes>)
    requires segments != [] && forall i :: 0 <= i < |segments| ==> SLASH !in segments[i]
    ensures Split(Join(segments)) == segments
    decreases |segments|
  {
    if |segments| == 1 {
      assert segments == [segments[0]];
    } else {
      hide Split;
      SplitJoin(segments[1..]);
      SplitFirst(segments[0], Join(segments[1..]));
      assert segments == [segments[0]] + segments[1..];
    }
  }

  lemma {:induction false} ResolveSegments(segments: seq<Bytes>, kept: seq<Bytes>)
    requires AreSegments(segments)
    ensures Resolve(segments, kept) == kept + segments
    decreases |segments|
  {
    if segments == [] {
      assert kept + segments == kept;
    } else {
      assert IsSegment(segments[0]);
      ResolveSegments(segments[1..], kept + [segments[0]]);
      assert kept + [segments[0]] + segments[1..] == kept + segments;
    }
  }

  lemma {:induction false} JoinIsPlain(segments: seq<Bytes>)
    requires ArePieces(segments)
    ensures IsUtf8(Join(segments)) && PERCENT !in Join(segments) && BACKSLASH !in Join(segments)
    decreases |segments|
  {
    hide IsUtf8;
    if segments == [] {
      NothingIsText();
    } else {
      assert IsPiece(segments[0]);
      if |segments| > 1 {
        JoinIsPlain(segments[1..]);
        SplitAtAscii(segments[0], SLASH, Join(segments[1..]));
      }
    }
  }

  lemma {:induction false} NothingIsText()
    ensures IsUtf8([])
  {}

  /** Splitting a rendered path gives an empty piece, then the segments, or one more empty piece if there are none. */
  lemma {:induction false} SplitRender(segments: seq<Bytes>)
    requires ArePieces(segments)
    ensures Split(Render(segments)) == [[]] + if segments == [] then [[]] else segments
  {
    hide Split;
    assert [SLASH] + Join(segments) == [] + [SLASH] + Join(segments);
    SplitFirst([], Join(segments));
    if segments == [] {
      SplitNothing();
    } else {
      SplitJoin(segments);
    }
  }

  lemma {:induction false} SplitNothing()
    ensures Split([]) == [[]]
  {}

  lemma {:induction false} RenderIsPlain(segments: seq<Bytes>)
    requires ArePieces(segments)
    ensures var s := Render(segments); IsUtf8(s) && PERCENT !in s && BACKSLASH !in s
  {
    hide IsUtf8;
    JoinIsPlain(segments);
    NothingIsText();
    SplitAtAscii([], SLASH, Join(segments));
    assert [SLASH] + Join(segments) == [] + [SLASH] + Join(segments);
  }

  /** The canonical form of a path whose pieces hold nothing to decode is what its pieces resolve to. */
  lemma {:induction false} CanonicalOfPieces(pieces: seq<Bytes>)
    requires ArePieces(pieces)
    ensures CanonicalPath(Render(pieces)) == Some(Render(Resolve(pieces, [])))
  {
    hide Split, IsUtf8, Decode, Slashed, Render;
    var s := Render(pieces);
    RenderIsPlain(pieces);
    DecodeFixesPlain(s);
    SlashedKeepsText(s);
    SplitRender(pieces);
    var none: Bytes := [];
    var rest: seq<Bytes> := if pieces == [] then [none] else pieces;
    assert Split(s)[0] == none && Split(s)[1..] == rest;
    if pieces == [] {
      assert rest[0] == none && rest[1..] == [];
      assert Resolve(rest, []) == Resolve([], []) == [];
    }
  }

  lemma {:induction false} RenderedIsCanonical(segments: seq<Bytes>)
    requires AreSegments(segments)
    ensures CanonicalPath(Render(segments)) == Some(Render(segments))
  {
    hide CanonicalPath, Render, Resolve;
    CanonicalOfPieces(segments);
    ResolveSegments(segments, []);
    assert [] + segments == segments;
  }

  /** Canonicalisation is idempotent, and what it gives is clean. */
  lemma {:induction false} CanonicalIsIdempotent(path: Bytes)
    requires CanonicalPath(path).Some?
    ensures CanonicalPath(CanonicalPath(path).value) == CanonicalPath(path)
    ensures exists segments :: AreSegments(segments) && CanonicalPath(path) == Some(Render(segments))
  {
    var segments := CanonicalIsRendered(path);
    RenderedIsCanonical(segments);
  }

  /** Up to eight rounds of percent-encoding do not change the route. */
  lemma {:induction false} EncodingIsInvisible(chain: seq<Bytes>)
    requires IsEncodingChain(chain) && |chain| - 1 <= 8
    ensures CanonicalPath(chain[|chain| - 1]) == CanonicalPath(chain[0])
  {
    ChainSettles(chain, MAX_ROUNDS);
    DecodeFixesPlain(chain[0]);
  }

  /** A ninth round that changes anything is refused. */
  lemma {:induction false} NinthRoundIsRefused(chain: seq<Bytes>)
    requires IsEncodingChain(chain) && |chain| - 1 > 8
    requires forall i :: 0 < i < |chain| ==> chain[i] != chain[i - 1]
    ensures CanonicalPath(chain[|chain| - 1]).None?
  {
    LongChainIsRefused(chain, MAX_ROUNDS);
  }

  // ----- canonicalisation adds no bytes but slashes ----------------------------------------------------------

  ghost predicate Without(segments: seq<Bytes>, b: Byte) { forall i :: 0 <= i < |segments| ==> b !in segments[i] }

  lemma {:induction false} PiecesWithout(s: Bytes, b: Byte)
    requires b !in s
    ensures Without(Split(s), b)
    decreases |s|
  {
    hide IndexOfSlash;
    if SLASH in s {
      var k := IndexOfSlash(s);
      PiecesWithout(s[k + 1..], b);
    }
  }

  lemma {:induction false} ResolvedWithout(pieces: seq<Bytes>, kept: seq<Bytes>, b: Byte)
    requires Without(pieces, b) && Without(kept, b)
    ensures Without(Resolve(pieces, kept), b)
    decreases |pieces|
  {
    if pieces != [] {
      assert b !in pieces[0];
      ResolvedWithout(pieces[1..], ResolveOne(pieces[0], kept), b);
    }
  }

  lemma {:induction false} JoinedWithout(segments: seq<Bytes>, b: Byte)
    requires Without(segments, b) && b != SLASH
    ensures b !in Join(segments)
  {
    if |segments| > 1 {
      JoinedWithout(segments[1..], b);
    }
  }

  lemma {:induction false} CanonicalAddsNoBytes(path: Bytes, b: Byte)
    requires PERCENT !in path && b !in path && b != SLASH && CanonicalPath(path).Some?
    ensures b !in CanonicalPath(path).value
  {
    hide IsUtf8, Split, Resolve, Join;
    DecodeFixesPlain(path);
    var slashed := Slashed(path);
    PiecesWithout(slashed, b);
    ResolvedWithout(Split(slashed), [], b);
    JoinedWithout(Resolve(Split(slashed), []), b);
  }

  // ----- what dots do ----------------------------------------------------------------------------------------------

  lemma {:induction false} ResolveAppend(a: seq<Bytes>, b: seq<Bytes>, kept: seq<Bytes>)
    ensures Resolve(a + b, kept) == Resolve(b, Resolve(a, kept))
    decreases |a|
  {
    if a == [] {
      assert a + b == b;
    } else {
      assert (a + b)[0] == a[0] && (a + b)[1..] == a[1..] + b;
      ResolveAppend(a[1..], b, ResolveOne(a[0], kept));
    }
  }

  lemma {:induction false} ResolveTwo(x: Bytes, y: Bytes, kept: seq<Bytes>)
    ensures Resolve([x], kept) == ResolveOne(x, kept)
    ensures Resolve([x, y], kept) == ResolveOne(y, ResolveOne(x, kept))
  {
    assert [x][1..] == [] && [x, y][1..] == [y] && [y][1..] == [];
    assert Resolve([y], ResolveOne(x, kept)) == ResolveOne(y, ResolveOne(x, kept));
  }

  /** `..` takes away the segment before it. */
  lemma {:induction false} DotDotRemovesSegment(a: seq<Bytes>, s: Bytes, b: seq<Bytes>)
    requires s != [] && s != [46] && s != [46, 46]
    ensures Resolve(a + [s, [46, 46]] + b, []) == Resolve(a + b, [])
  {
    var kept := Resolve(a, []);
    assert a + [s, [46, 46]] + b == a + ([s, [46, 46]] + b);
    ResolveAppend(a, [s, [46, 46]] + b, []);
    ResolveAppend([s, [46, 46]], b, kept);
    ResolveAppend(a, b, []);
    ResolveTwo(s, [46, 46], kept);
    assert (kept + [s])[..|kept|] == kept;
  }

  /** At the root it takes away nothing. */
  lemma {:induction false} DotDotStopsAtRoot(b: seq<Bytes>)
    ensures Resolve([[46, 46]] + b, []) == Resolve(b, [])
  {
    ResolveAppend([[46, 46]], b, []);
    ResolveTwo([46, 46], [], []);
  }

  /** Empty pieces and `.` change nothing, wherever they stand. */
  lemma {:induction false} IdlePiecesVanish(a: seq<Bytes>, idle: Bytes, b: seq<Bytes>)
    requires idle == [] || idle == [46]
    ensures Resolve(a + [idle] + b, []) == Resolve(a + b, [])
  {
    assert a + [idle] + b == a + ([idle] + b);
    ResolveAppend(a, [idle] + b, []);
    ResolveAppend([idle], b, Resolve(a, []));
    ResolveAppend(a, b, []);
    ResolveTwo(idle, [], Resolve(a, []));
  }

  /** Segments stay, in their order. */
  lemma {:induction false} SegmentsStay(segments: seq<Bytes>)
    requires forall i :: 0 <= i < |segments| ==> segments[i] != [] && segments[i] != [46] && segments[i] != [46, 46]
    ensures Resolve(segments, []) == segments
  {
    if segments != [] {
      var n := |segments| - 1;
      var front, last := segments[..n], segments[n];
      assert segments == front + [last];
      SegmentsStay(front);
      ResolveAppend(front, [last], []);
      ResolveTwo(last, [], front);
    }
  }

  /** So in a path `..` takes away the segment before it, and at the root nothing; empty pieces and `.` do nothing. */
  lemma {:induction false} DotsInPaths(a: seq<Bytes>, s: Bytes, idle: Bytes, b: seq<Bytes>)
    requires ArePieces(a) && ArePieces(b) && IsSegment(s) && (idle == [] || idle == [46])
    ensures CanonicalPath(Render(a + [s, [46, 46]] + b)) == CanonicalPath(Render(a + b))
    ensures CanonicalPath(Render([[46, 46]] + b)) == CanonicalPath(Render(b))
    ensures CanonicalPath(Render(a + [idle] + b)) == CanonicalPath(Render(a + b))
  {
    DotsAreText();
    assert IsPiece(s) && s != [] && s != [46] && s != [46, 46];
    hide CanonicalPath, Render, Resolve, IsPiece, IsSegment;
    CanonicalOfPieces(a + [s, [46, 46]] + b);
    CanonicalOfPieces(a + b);
    CanonicalOfPieces([[46, 46]] + b);
    CanonicalOfPieces(b);
    CanonicalOfPieces(a + [idle] + b);
    DotDotRemovesSegment(a, s, b);
    DotDotStopsAtRoot(b);
    IdlePiecesVanish(a, idle, b);
  }

  lemma {:induction false} DotsAreText()
    ensures IsPiece([]) && IsPiece([46]) && IsPiece([46, 46])
  {
    var one: Bytes, two: Bytes := [46], [46, 46];
    assert CharLength(one) == 1 && one[1..] == [] && CharLength(two) == 1 && two[1..] == one;
  }

  /** A backslash is a slash. */
  lemma {:induction false} BackslashIsSlash(a: Bytes, b: Bytes)
    requires PERCENT !in a && PERCENT !in b
    ensures CanonicalPath(a + [92] + b) == CanonicalPath(a + [47] + b)
  {
    var back, slash := a + [92] + b, a + [47] + b;
    DecodeFixesPlain(back);
    DecodeFixesPlain(slash);
    SlashedKeepsUtf8(back);
    SlashedKeepsUtf8(slash);
    SameSlashed(a, b);
    hide Decode, IsUtf8, Slashed, Split, Resolve, Render;
  }

  lemma {:induction false} SameSlashed(a: Bytes, b: Bytes)
    ensures Slashed(a + [92] + b) == Slashed(a + [47] + b)
  {
    var back, slash := a + [92] + b, a + [47] + b;
    forall i | 0 <= i < |back| ensures Slashed(back)[i] == Slashed(slash)[i] {
      assert i != |a| ==> back[i] == slash[i];
    }
  }

  /** Hexadecimal digits of both cases, and nothing else. */
  lemma {:induction false} HexDigits(c: Byte, v: nat)
    ensures HexValue(c) == Some(v) <==>
              (v < 10 && c == 48 + v) || (10 <= v < 16 && (c == 97 + (v - 10) || c == 65 + (v - 10)))
  {}
}
