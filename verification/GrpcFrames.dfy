/**
 * The frame splitter of src/grpc.rs, against the Length-Prefixed-Message of gRPC over HTTP/2: a flag byte,
 * which is zero for a message that is not compressed, four bytes of length, high byte first, and the message.
 */
module GrpcFrames {
  import opened Wrappers
  import opened Utf8

  type Bytes = seq<Byte>

  datatype FrameFail = Parse | Size

  const U32_LIMIT: nat := 0x1_0000_0000

  function LengthBytes(n: nat): Bytes
    requires n < U32_LIMIT
  {
    var n1 := n / 0x100;
    var n2 := n1 / 0x100;
    [n2 / 0x100, n2 % 0x100, n1 % 0x100, n % 0x100]
  }

  function Claimed(b0: Byte, b1: Byte, b2: Byte, b3: Byte): nat {
    ((b0 * 0x100 + b1) * 0x100 + b2) * 0x100 + b3
  }

  ghost function Weighted(b0: Byte, b1: Byte, b2: Byte, b3: Byte): nat {
    b0 * 16_777_216 + b1 * 65_536 + b2 * 256 + b3
  }

  /** The length is written with its high byte first. */
  lemma {:induction false} HighByteFirst(b0: Byte, b1: Byte, b2: Byte, b3: Byte)
    ensures Claimed(b0, b1, b2, b3) == Weighted(b0, b1, b2, b3)
  {}

  lemma {:induction false} LengthRoundTrip(n: nat)
    requires n < U32_LIMIT
    ensures var b := LengthBytes(n); Claimed(b[0], b[1], b[2], b[3]) == n
  {}

  lemma {:induction false} ClaimedRoundTrip(b0: Byte, b1: Byte, b2: Byte, b3: Byte)
    ensures Claimed(b0, b1, b2, b3) < U32_LIMIT && LengthBytes(Claimed(b0, b1, b2, b3)) == [b0, b1, b2, b3]
  {
    LowByte(b0, b1);
    LowByte(b0 * 0x100 + b1, b2);
    LowByte((b0 * 0x100 + b1) * 0x100 + b2, b3);
  }

  lemma {:induction false} LowByte(high: nat, low: Byte)
    ensures (high * 0x100 + low) / 0x100 == high && (high * 0x100 + low) % 0x100 == low
  {}

  predicate Fits(message: Bytes, max: nat) {
    |message| <= max && |message| < U32_LIMIT
  }

  ghost predicate AllFit(messages: seq<Bytes>, max: nat) {
    forall i :: 0 <= i < |messages| ==> Fits(messages[i], max)
  }

  function Frame(message: Bytes): Bytes
    requires |message| < U32_LIMIT
  {
    [0] + LengthBytes(|message|) + message
  }

  ghost function Body(messages: seq<Bytes>, max: nat): Bytes
    requires AllFit(messages, max)
  {
    if messages == [] then [] else Frame(messages[0]) + Body(messages[1..], max)
  }

  /** What is wrong with the first frame of a body, in the order of the checks. */
  function Fault(rest: Bytes, max: nat): Option<FrameFail> {
    if rest == [] then None
    else if |rest| < 5 then Some(Parse)
    else
      var claimed := Claimed(rest[1], rest[2], rest[3], rest[4]);
      if claimed > max then Some(Size)
      else if rest[0] != 0 then Some(Parse)
      else if |rest| - 5 < claimed then Some(Parse)
      else None
  }

  lemma {:induction false} FrameIsRead(message: Bytes, rest: Bytes, max: nat)
    requires Fits(message, max)
    ensures var whole := Frame(message) + rest;
            && |whole| == 5 + |message| + |rest| && whole[0] == 0
            && Claimed(whole[1], whole[2], whole[3], whole[4]) == |message|
            && whole[5..5 + |message|] == message && whole[5 + |message|..] == rest
            && Fault(whole, max) == None
  {
    LengthRoundTrip(|message|);
  }

  lemma {:induction false} ReadIsFrame(rest: Bytes, max: nat)
    requires rest != [] && Fault(rest, max) == None
    ensures var n := Claimed(rest[1], rest[2], rest[3], rest[4]);
            5 + n <= |rest| && Fits(rest[5..5 + n], max) && rest == Frame(rest[5..5 + n]) + rest[5 + n..]
  {
    ClaimedRoundTrip(rest[1], rest[2], rest[3], rest[4]);
    var n := Claimed(rest[1], rest[2], rest[3], rest[4]);
    assert rest[..5] == [rest[0], rest[1], rest[2], rest[3], rest[4]];
  }

  lemma {:induction false} Associate(a: Bytes, b: Bytes, c: Bytes)
    ensures a + (b + c) == (a + b) + c
  {}

  lemma {:induction false} BodyAppend(messages: seq<Bytes>, last: Bytes, max: nat)
    requires AllFit(messages, max) && Fits(last, max)
    ensures AllFit(messages + [last], max) && Body(messages + [last], max) == Body(messages, max) + Frame(last)
  {
    hide Frame;
    var longer := messages + [last];
    if messages == [] {
      assert longer[1..] == [];
      assert Body(longer, max) == Frame(last);
    } else {
      assert longer[1..] == messages[1..] + [last] && longer[0] == messages[0];
      BodyAppend(messages[1..], last, max);
      Associate(Frame(messages[0]), Body(messages[1..], max), Frame(last));
    }
  }

  lemma {:induction false} FirstFrameIsDetermined(a: Bytes, afterA: Bytes, b: Bytes, afterB: Bytes, max: nat)
    requires Fits(a, max) && Fits(b, max) && Frame(a) + afterA == Frame(b) + afterB
    ensures a == b && afterA == afterB
  {
    hide Frame, Fault, Claimed;
    FrameIsRead(a, afterA, max);
    FrameIsRead(b, afterB, max);
  }

  lemma {:induction false} BodyHasNoFault(all: seq<Bytes>, max: nat)
    requires AllFit(all, max)
    ensures Fault(Body(all, max), max) == None
    ensures all != [] ==> Body(all, max) != []
  {
    if all != [] {
      FrameIsRead(all[0], Body(all[1..], max), max);
    }
  }

  /** Two ways to cut one body into frames agree as far as both go, and no way goes past a fault. */
  lemma {:induction false} CutsAgree(done: seq<Bytes>, rest: Bytes, all: seq<Bytes>, max: nat)
    requires AllFit(done, max) && AllFit(all, max) && Body(done, max) + rest == Body(all, max)
    ensures done <= all && Body(all[|done|..], max) == rest && Fault(rest, max) == None
  {
    hide Frame, Fault, Claimed;
    if done == [] {
      BodyHasNoFault(all, max);
      assert Body(done, max) + rest == rest;
    } else {
      BodyHasNoFault(done, max);
      var tail := Body(done[1..], max) + rest;
      assert Body(done, max) + rest == Frame(done[0]) + tail;
      FirstFrameIsDetermined(done[0], tail, all[0], Body(all[1..], max), max);
      CutsAgree(done[1..], rest, all[1..], max);
      assert all == [all[0]] + all[1..] && done == [done[0]] + done[1..];
      assert all[1..][|done| - 1..] == all[|done|..];
    }
  }

  lemma {:induction false} NoCut(done: seq<Bytes>, rest: Bytes, body: Bytes, max: nat)
    requires AllFit(done, max) && body == Body(done, max) + rest && Fault(rest, max).Some?
    ensures forall all :: AllFit(all, max) ==> Body(all, max) != body
  {
    forall all | AllFit(all, max) ensures Body(all, max) != body {
      if Body(all, max) == body {
        CutsAgree(done, rest, all, max);
        assert false;
      }
    }
  }

  /**
   * The body is split exactly when it is a sequence of frames, into exactly their messages; otherwise the
   * error is the fault of the first frame that has one.
   */
  method IterFrames(body: Bytes, max: nat) returns (r: Result<seq<Bytes>, FrameFail>)
    ensures r.Ok? ==> AllFit(r.value, max) && Body(r.value, max) == body
    ensures forall messages :: AllFit(messages, max) && Body(messages, max) == body ==> r == Ok(messages)
    ensures r.Err? ==> exists done, rest ::
                         AllFit(done, max) && body == Body(done, max) + rest && Fault(rest, max) == Some(r.error)
  {
    hide Body, AllFit, Fault, Claimed;
    var i := 0;
    var frames: seq<Bytes> := [];
    NoFrames(body, max);
    while i < |body|
      invariant 0 <= i <= |body| && Cut(body, frames, i, max)
    {
      FaultAt(body, i, max);
      if Fault(body[i..], max).Some? {
        FaultyCut(body, frames, i, max);
      }
      if |body| - i < 5 {
        return Err(Parse);
      }
      var claimed := Claimed(body[i + 1], body[i + 2], body[i + 3], body[i + 4]);
      if claimed > max {
        return Err(Size);
      }
      if body[i] != 0 {
        return Err(Parse);
      }
      if |body| - (i + 5) < claimed {
        return Err(Parse);
      }
      NextFrame(body, frames, i, max);
      frames := frames + [body[i + 5..i + 5 + claimed]];
      i := i + 5 + claimed;
    }
    WholeCut(body, frames, max);
    return Ok(frames);
  }

  /** Which refusal: too long when a whole header claims it, and malformed when it is cut short or marked compressed. */
  lemma {:induction false} FaultsExactly(rest: Bytes, max: nat, claimed: nat)
    requires |rest| >= 5 ==> claimed == Weighted(rest[1], rest[2], rest[3], rest[4])
    ensures Fault(rest, max) == Some(Size) <==> |rest| >= 5 && claimed > max
    ensures Fault(rest, max) == Some(Parse) <==>
              rest != [] && (|rest| >= 5 ==> claimed <= max && (rest[0] != 0 || |rest| < 5 + claimed))
  {
    if |rest| >= 5 {
      HighByteFirst(rest[1], rest[2], rest[3], rest[4]);
    }
  }

  /** The frames of these messages fill the body up to `i`. */
  ghost predicate Cut(body: Bytes, messages: seq<Bytes>, i: nat, max: nat) {
    i <= |body| && AllFit(messages, max) && Body(messages, max) == body[..i]
  }

  lemma {:induction false} NoFrames(body: Bytes, max: nat)
    ensures Cut(body, [], 0, max)
  {}

  lemma {:induction false} FaultAt(body: Bytes, i: nat, max: nat)
    requires i < |body|
    ensures Fault(body[i..], max) ==
            if |body| - i < 5 then Some(Parse)
            else if Claimed(body[i + 1], body[i + 2], body[i + 3], body[i + 4]) > max then Some(Size)
            else if body[i] != 0 then Some(Parse)
            else if |body| - (i + 5) < Claimed(body[i + 1], body[i + 2], body[i + 3], body[i + 4]) then Some(Parse)
            else None
  {
    hide Claimed;
  }

  lemma {:induction false} FaultyCut(body: Bytes, done: seq<Bytes>, i: nat, max: nat)
    requires Cut(body, done, i, max) && Fault(body[i..], max).Some?
    ensures forall all :: AllFit(all, max) ==> Body(all, max) != body
    ensures exists done, rest ::
              AllFit(done, max) && body == Body(done, max) + rest && Fault(rest, max) == Fault(body[i..], max)
  {
    hide Body, AllFit, Fault;
    assert body == Body(done, max) + body[i..];
    NoCut(done, body[i..], body, max);
  }

  lemma {:induction false} NextFrame(body: Bytes, done: seq<Bytes>, i: nat, max: nat)
    requires Cut(body, done, i, max) && i < |body| && Fault(body[i..], max).None?
    ensures |body| - i >= 5
    ensures var end := i + 5 + Claimed(body[i + 1], body[i + 2], body[i + 3], body[i + 4]);
            end <= |body| && Cut(body, done + [body[i + 5..end]], end, max)
  {
    hide Body, AllFit, Claimed, Frame;
    FaultAt(body, i, max);
    var rest := body[i..];
    ReadIsFrame(rest, max);
    var n := Claimed(rest[1], rest[2], rest[3], rest[4]);
    var message := rest[5..5 + n];
    assert message == body[i + 5..i + 5 + n];
    BodyAppend(done, message, max);
    FrameIsRead(message, rest[5 + n..], max);
    assert rest[..5 + n] == Frame(message);
    assert body[..i + 5 + n] == body[..i] + rest[..5 + n];
  }

  lemma {:induction false} WholeCut(body: Bytes, messages: seq<Bytes>, max: nat)
    requires Cut(body, messages, |body|, max)
    ensures AllFit(messages, max) && Body(messages, max) == body
    ensures forall all :: AllFit(all, max) && Body(all, max) == body ==> all == messages
  {
    hide Body, Fault;
    assert body[..|body|] == body;
    forall all | AllFit(all, max) && Body(all, max) == body ensures all == messages {
      assert Body(messages, max) + [] == Body(all, max);
      CutsAgree(messages, [], all, max);
      NothingLeft(all[|messages|..], max);
      assert all == messages + all[|messages|..];
    }
  }

  lemma {:induction false} NothingLeft(messages: seq<Bytes>, max: nat)
    requires AllFit(messages, max) && Body(messages, max) == []
    ensures messages == []
  {
    BodyHasNoFault(messages, max);
  }
}
