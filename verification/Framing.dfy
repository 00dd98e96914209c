/** The message client of the test suite (test/test_messages.cpp): a message is a header with the
    payload's size as an 8-byte integer, then the payload. Reading header and payload in turn is one
    read sequence of the AsyncReader. */
module Framing {
  import opened Common
  import opened ReadSequence

  const HEADER_SIZE: pos := 8

  /** A message: not empty, and with a size that a size_t header can hold. */
  type Message = m: seq<byte> | 0 < |m| < 0x1_0000_0000_0000_0000 witness [0]

  /** The n low-order bytes of v, least significant byte first. */
  function Encode(v: nat, n: nat): (bs: seq<byte>)
    ensures |bs| == n
  {
    if n == 0 then [] else [v % 256] + Encode(v / 256, n - 1)
  }

  function Decode(bs: seq<byte>): nat {
    if bs == [] then 0 else bs[0] + 256 * Decode(bs[1..])
  }

  function Pow256(n: nat): nat {
    if n == 0 then 1 else 256 * Pow256(n - 1)
  }

  lemma {:induction false} DecodeEncode(v: nat, n: nat)
    requires v < Pow256(n)
    ensures Decode(Encode(v, n)) == v
  {
    if n > 0 {
      assert v / 256 < Pow256(n - 1);
      DecodeEncode(v / 256, n - 1);
      assert Encode(v, n)[1..] == Encode(v / 256, n - 1);
    }
  }

  lemma HeaderRoundTrip(m: Message)
    ensures Decode(Encode(|m|, HEADER_SIZE)) == |m|
  {
    assert Pow256(4) == 0x1_0000_0000;
    assert Pow256(8) == 0x1_0000_0000_0000_0000;
    DecodeEncode(|m|, 8);
  }

  lemma DecodeCons(bs: seq<byte>, i: nat)
    requires i < |bs|
    ensures Decode(bs[i..]) == bs[i] + 256 * Decode(bs[i + 1..])
  {
    assert bs[i..][1..] == bs[i + 1..];
  }

  /** The header of a message, least significant byte first, with the weight of each byte. */
  lemma HeaderIsLittleEndian(m: Message)
    ensures var h: seq<int> := Encode(|m|, HEADER_SIZE);
            |h| == 8
            && |m| == h[0] + 0x100 * h[1] + 0x1_0000 * h[2] + 0x100_0000 * h[3] + 0x1_0000_0000 * h[4]
                    + 0x100_0000_0000 * h[5] + 0x1_0000_0000_0000 * h[6] + 0x100_0000_0000_0000 * h[7]
  {
    var h := Encode(|m|, HEADER_SIZE);
    HeaderRoundTrip(m);
    assert h[0..] == h && h[8..] == [];
    DecodeCons(h, 0);
    DecodeCons(h, 1);
    DecodeCons(h, 2);
    DecodeCons(h, 3);
    DecodeCons(h, 4);
    DecodeCons(h, 5);
    DecodeCons(h, 6);
    DecodeCons(h, 7);
  }

  function Frame(m: Message): seq<byte> { Encode(|m|, HEADER_SIZE) + m }

  function Frames(ms: seq<Message>): seq<byte> {
    if ms == [] then [] else Frame(ms[0]) + Frames(ms[1..])
  }

  lemma {:induction false} FramesAppend(a: seq<Message>, b: seq<Message>)
    ensures Frames(a + b) == Frames(a) + Frames(b)
  {
    if a == [] {
      assert a + b == b;
    } else {
      assert (a + b)[1..] == a[1..] + b;
      FramesAppend(a[1..], b);
    }
  }

  /** What the client's handlers know: which part comes next and how many messages are still wanted. */
  datatype Client = Header(wanted: pos) | Payload(wanted: pos)

  /** onReadHeader and onReadPayload. A zero size cannot make a read task; it ends the sequence. */
  function OnRead(c: Client, data: seq<byte>): ReadTask<Client> {
    match c
    case Header(wanted) => if Decode(data) == 0 then Finish else ReadTask(Payload(wanted), Decode(data))
    case Payload(wanted) => if wanted == 1 then Finish else ReadTask(Header(wanted - 1), HEADER_SIZE)
  }

  function Entry(wanted: pos): ReadTask<Client> { ReadTask(Header(wanted), HEADER_SIZE) }

  /** The payloads that the client has been given. */
  function Delivered(calls: seq<Call<Client>>): seq<seq<byte>> {
    if calls == [] then []
    else (if calls[0].handler.Payload? then [calls[0].data] else []) + Delivered(calls[1..])
  }

  /** How many of the messages lie completely within the first `n` bytes of their frames. */
  function Complete(ms: seq<Message>, n: nat): (k: nat)
    ensures k <= |ms|
  {
    if ms == [] || n < |Frame(ms[0])| then 0 else 1 + Complete(ms[1..], n - |Frame(ms[0])|)
  }

  lemma ParseHeader(wanted: pos, m: Message, bytes: seq<byte>)
    requires |bytes| >= HEADER_SIZE && bytes[..HEADER_SIZE] == Encode(|m|, HEADER_SIZE)
    ensures var p := Parse(OnRead, ReadTask(Payload(wanted), |m|), bytes[HEADER_SIZE..]);
            Parse(OnRead, Entry(wanted), bytes) == p.(calls := [Call(Header(wanted), bytes[..HEADER_SIZE])] + p.calls)
    ensures Delivered(Parse(OnRead, Entry(wanted), bytes).calls)
         == Delivered(Parse(OnRead, ReadTask(Payload(wanted), |m|), bytes[HEADER_SIZE..]).calls)
  {
    HeaderRoundTrip(m);
    var p := Parse(OnRead, ReadTask(Payload(wanted), |m|), bytes[HEADER_SIZE..]);
    Cons(Call(Header(wanted), bytes[..HEADER_SIZE]), p.calls);
  }

  lemma ParsePayload(wanted: pos, m: Message, bytes: seq<byte>)
    requires |bytes| >= |m| && bytes[..|m|] == m
    ensures Delivered(Parse(OnRead, ReadTask(Payload(wanted), |m|), bytes).calls)
         == [m] + if wanted == 1 then [] else Delivered(Parse(OnRead, Entry(wanted - 1), bytes[|m|..]).calls)
  {
    var p := Parse(OnRead, OnRead(Payload(wanted), m), bytes[|m|..]);
    Cons(Call(Payload(wanted), m), p.calls);
  }

  lemma SplitPrefix(h: seq<byte>, m: seq<byte>, tail: seq<byte>, bytes: seq<byte>)
    requires bytes <= h + m + tail
    ensures |bytes| >= |h| ==> bytes[..|h|] == h && bytes[|h|..] <= m + tail
    ensures |bytes| >= |h| + |m| ==> bytes[|h|..][..|m|] == m && bytes[|h|..][|m|..] <= tail
  {
    var all := h + m + tail;
    assert bytes == all[..|bytes|];
    Associative(h, m, tail);
  }

  lemma SplitFrame(m: Message, tail: seq<byte>, bytes: seq<byte>)
    requires bytes <= Frame(m) + tail
    ensures |bytes| >= HEADER_SIZE ==> bytes[..HEADER_SIZE] == Encode(|m|, HEADER_SIZE)
    ensures |bytes| >= |Frame(m)| ==>
              var rest := bytes[HEADER_SIZE..];
              rest[..|m|] == m && rest[|m|..] == bytes[|Frame(m)|..] && bytes[|Frame(m)|..] <= tail
  {
    SplitPrefix(Encode(|m|, HEADER_SIZE), m, tail, bytes);
    if |bytes| >= |Frame(m)| {
      assert bytes[HEADER_SIZE..][|m|..] == bytes[|Frame(m)|..];
    }
  }

  lemma TooFewBytes(t: ReadTask<Client>, bytes: seq<byte>)
    requires t.ReadTask? && |bytes| < t.size
    ensures Delivered(Parse(OnRead, t, bytes).calls) == []
  {
  }

  /** A message is given to the client once its whole frame is there, and not before. */
  lemma ParseFrame(wanted: pos, m: Message, tail: seq<byte>, bytes: seq<byte>)
    requires bytes <= Frame(m) + tail
    ensures |bytes| < |Frame(m)| ==> Delivered(Parse(OnRead, Entry(wanted), bytes).calls) == []
    ensures |bytes| >= |Frame(m)| ==>
              && bytes[|Frame(m)|..] <= tail
              && Delivered(Parse(OnRead, Entry(wanted), bytes).calls)
              == [m] + if wanted == 1 then []
                       else Delivered(Parse(OnRead, Entry(wanted - 1), bytes[|Frame(m)|..]).calls)
  {
    SplitFrame(m, tail, bytes);
    if |bytes| < HEADER_SIZE {
      TooFewBytes(Entry(wanted), bytes);
    } else {
      var rest := bytes[HEADER_SIZE..];
      ParseHeader(wanted, m, bytes);
      if |rest| < |m| {
        TooFewBytes(ReadTask(Payload(wanted), |m|), rest);
      } else {
        ParsePayload(wanted, m, rest);
      }
    }
  }

  /** On any prefix of the frames the client is given exactly the messages that are complete in it,
      up to the number it wants. */
  lemma {:induction false} ParseFrames(wanted: pos, ms: seq<Message>, bytes: seq<byte>)
    requires bytes <= Frames(ms)
    ensures Delivered(Parse(OnRead, Entry(wanted), bytes).calls) == ms[..Min(wanted, Complete(ms, |bytes|))]
    decreases |ms|
  {
    if bytes == [] {
      TooFewBytes(Entry(wanted), bytes);
    } else {
      ParseFrame(wanted, ms[0], Frames(ms[1..]), bytes);
      if |bytes| >= |Frame(ms[0])| {
        AddMessage(wanted, ms, |bytes|);
        if wanted > 1 {
          ParseFrames(wanted - 1, ms[1..], bytes[|Frame(ms[0])|..]);
        }
      }
    }
  }

  lemma AddMessage(wanted: pos, ms: seq<Message>, n: nat)
    requires ms != [] && n >= |Frame(ms[0])|
    ensures ms[..Min(wanted, Complete(ms, n))]
         == [ms[0]] + ms[1..][..Min(wanted - 1, Complete(ms[1..], n - |Frame(ms[0])|))]
  {
  }

  /** No more messages are complete in a prefix of the frames than have been framed up to there, and in
      whole frames all of them are. */
  lemma {:induction false} CompleteWithin(ms: seq<Message>, a: nat, n: nat)
    requires a <= |ms| && n <= |Frames(ms[..a])|
    ensures Complete(ms, n) <= a
    ensures n == |Frames(ms[..a])| ==> Complete(ms, n) == a
  {
    if a > 0 {
      assert ms[..a][0] == ms[0] && ms[..a][1..] == ms[1..][..a - 1];
      if n >= |Frame(ms[0])| {
        CompleteWithin(ms[1..], a - 1, n - |Frame(ms[0])|);
      }
    } else {
      assert ms[..0] == [];
    }
  }

  lemma {:induction false} DeliveredAppend(a: seq<Call<Client>>, b: seq<Call<Client>>)
    ensures Delivered(a + b) == Delivered(a) + Delivered(b)
  {
    if a == [] {
      assert a + b == b;
    } else {
      assert (a + b)[1..] == a[1..] + b;
      DeliveredAppend(a[1..], b);
      Associative(if a[0].handler.Payload? then [a[0].data] else [], Delivered(a[1..]), Delivered(b));
    }
  }

  lemma PositionAfterPayload(wanted: pos, m: Message, bytes: seq<byte>)
    requires |bytes| >= |m| && bytes[..|m|] == m
    ensures var p := Parse(OnRead, ReadTask(Payload(wanted), |m|), bytes);
            if wanted == 1 then p.task.Finish?
            else && p.task == Parse(OnRead, Entry(wanted - 1), bytes[|m|..]).task
                 && p.rest == Parse(OnRead, Entry(wanted - 1), bytes[|m|..]).rest
  {
  }

  /** The client never asks for more than the remaining frames hold: unless all of them have been
      parsed, the deficit of the pending task is within what is still to come. */
  lemma {:induction false} DeficitWithinFrames(wanted: pos, ms: seq<Message>, bytes: seq<byte>)
    requires bytes <= Frames(ms) && |bytes| < |Frames(ms)|
    ensures var p := Parse(OnRead, Entry(wanted), bytes);
            p.task.ReadTask? ==> p.task.size - |p.rest| <= |Frames(ms)| - |bytes|
    decreases |ms|
  {
    if |bytes| < HEADER_SIZE {
      assert |Frame(ms[0])| > HEADER_SIZE;
    } else {
      var m := ms[0];
      SplitPrefix(Encode(|m|, HEADER_SIZE), m, Frames(ms[1..]), bytes);
      ParseHeader(wanted, m, bytes);
      var rest := bytes[HEADER_SIZE..];
      if |rest| < |m| {
        assert Parse(OnRead, ReadTask(Payload(wanted), |m|), rest) == Parsed([], ReadTask(Payload(wanted), |m|), rest);
      } else {
        PositionAfterPayload(wanted, m, rest);
        if wanted > 1 {
          DeficitWithinFrames(wanted - 1, ms[1..], rest[|m|..]);
        }
      }
    }
  }

  /** The client finishes only after as many whole frames as it wants messages. */
  lemma {:induction false} FinishedIsWhole(wanted: pos, ms: seq<Message>, bytes: seq<byte>)
    requires bytes <= Frames(ms) && wanted >= |ms|
    requires Parse(OnRead, Entry(wanted), bytes).task.Finish?
    ensures bytes == Frames(ms)
    decreases |ms|
  {
    if |bytes| >= HEADER_SIZE {
      var m := ms[0];
      SplitFrame(m, Frames(ms[1..]), bytes);
      ParseHeader(wanted, m, bytes);
      var rest := bytes[HEADER_SIZE..];
      if |rest| >= |m| {
        PositionAfterPayload(wanted, m, rest);
        if wanted > 1 {
          FinishedIsWhole(wanted - 1, ms[1..], rest[|m|..]);
        }
      }
    }
  }

  /** A header that announces size zero ends the client's sequence; what follows stays unread. */
  lemma ZeroSizeEnds(wanted: pos, rest: seq<byte>)
    ensures var zeros := seq(HEADER_SIZE, _ => 0 as byte);
            Parse(OnRead, Entry(wanted), zeros + rest) == Parsed([Call(Header(wanted), zeros)], Finish, rest)
  {
    var zeros := seq(HEADER_SIZE, _ => 0 as byte);
    assert (zeros + rest)[..HEADER_SIZE] == zeros && (zeros + rest)[HEADER_SIZE..] == rest;
    DecodeZeros(zeros);
    assert Parse(OnRead, Finish, rest) == Parsed([], Finish, rest);
  }

  lemma {:induction false} DecodeZeros(bs: seq<byte>)
    requires forall i :: 0 <= i < |bs| ==> bs[i] == 0
    ensures Decode(bs) == 0
  {
    if bs != [] {
      DecodeZeros(bs[1..]);
    }
  }
}
