/** How the gateway cuts a client's byte stream into commands. */
module Framing {
  import opened Types
  import opened Bytes
  import opened Protocol

  /** A connection ends at the end of the stream or at the first message it cannot accept. */
  datatype End = Eof | Rejected(error: ProtocolError)

  datatype Framed = Framed(commands: seq<Command>, end: End)

  function Frame(stream: Bytes): Framed
    decreases |stream|
  {
    if stream == [] then Framed([], Eof)
    else match MessageSize(stream[0])
      case Err(e) => Framed([], Rejected(e))
      case Ok(size) =>
        if |stream| < size then Framed([], Eof)
        else match DecodeMessage(stream[..size])
          case Err(e) => Framed([], Rejected(e))
          case Ok(c) =>
            var rest := Frame(stream[size..]);
            Framed([c] + rest.commands, rest.end)
  }

  function EncodeAll(cmds: seq<Command>): Bytes {
    if cmds == [] then [] else CommandBytes(cmds[0]) + EncodeAll(cmds[1..])
  }

  function UnstampAll(cmds: seq<Command>): (r: seq<Command>)
    ensures |r| == |cmds|
  {
    seq(|cmds|, i requires 0 <= i < |cmds| => Unstamped(cmds[i]))
  }

  /** How many commands of `cmds` are complete in the first `n` bytes of their encoding. */
  function Complete(cmds: seq<Command>, n: nat): (m: nat)
    ensures m <= |cmds|
    decreases |cmds|
  {
    if cmds == [] || n < |CommandBytes(cmds[0])| then 0
    else 1 + Complete(cmds[1..], n - |CommandBytes(cmds[0])|)
  }

  ghost predicate AllEncodable(cmds: seq<Command>) {
    forall i :: 0 <= i < |cmds| ==> Encodable(cmds[i])
  }

  /** One encoded command followed by anything is framed as that command. */
  lemma FrameOne(c: Command, tail: Bytes)
    requires Encodable(c)
    ensures Frame(CommandBytes(c) + tail) ==
            Framed([Unstamped(c)] + Frame(tail).commands, Frame(tail).end)
  {
    var stream := CommandBytes(c) + tail;
    var size := |CommandBytes(c)|;
    assert stream[..size] == CommandBytes(c) + [] && stream[size..] == tail;
    CommandRoundTrip(c, []);
    FirstByte(c);
    assert stream[0] == CommandBytes(c)[0];
    hide CommandBytes, DecodeMessage;
  }

  lemma FirstByte(c: Command)
    ensures MessageSize(CommandBytes(c)[0]) == Ok(|CommandBytes(c)|)
  {
  }

  /** A cut inside the first message frames nothing and is not an error. */
  lemma FrameShort(c: Command, n: nat)
    requires n < |CommandBytes(c)|
    ensures Frame(CommandBytes(c)[..n]) == Framed([], Eof)
  {
    FirstByte(c);
    if n > 0 {
      assert CommandBytes(c)[..n][0] == CommandBytes(c)[0];
    }
  }

  /** A stream cut anywhere frames exactly its complete messages. */
  lemma {:induction false} FrameCut(cmds: seq<Command>, n: nat)
    requires AllEncodable(cmds) && n <= |EncodeAll(cmds)|
    ensures Frame(EncodeAll(cmds)[..n]) == Framed(UnstampAll(cmds[..Complete(cmds, n)]), Eof)
    decreases |cmds|
  {
    hide Frame, CommandBytes, UnstampAll;
    if cmds == [] {
      FrameNothing();
      assert EncodeAll(cmds)[..n] == [];
    } else {
      var first := CommandBytes(cmds[0]);
      var rest := EncodeAll(cmds[1..]);
      if n < |first| {
        assert EncodeAll(cmds)[..n] == first[..n];
        FrameShort(cmds[0], n);
      } else {
        assert EncodeAll(cmds)[..n] == first + rest[..n - |first|];
        FrameCut(cmds[1..], n - |first|);
        FrameOne(cmds[0], rest[..n - |first|]);
        UnstampCons(cmds, Complete(cmds[1..], n - |first|));
      }
    }
  }

  lemma UnstampCons(cmds: seq<Command>, m: nat)
    requires cmds != [] && m < |cmds|
    ensures UnstampAll(cmds[..1 + m]) == [Unstamped(cmds[0])] + UnstampAll(cmds[1..][..m])
  {
  }

  lemma {:induction false} CompleteAll(cmds: seq<Command>)
    ensures Complete(cmds, |EncodeAll(cmds)|) == |cmds|
    decreases |cmds|
  {
    if cmds != [] {
      CompleteAll(cmds[1..]);
    }
  }

  /** Commands encoded back to back are framed to the same commands. */
  lemma FrameRoundTrip(cmds: seq<Command>)
    requires AllEncodable(cmds)
    ensures Frame(EncodeAll(cmds)) == Framed(UnstampAll(cmds), Eof)
  {
    FrameCut(cmds, |EncodeAll(cmds)|);
    CompleteAll(cmds);
    assert EncodeAll(cmds)[..|EncodeAll(cmds)|] == EncodeAll(cmds) && cmds[..|cmds|] == cmds;
  }

  function Stamp(c: Command, now: Timestamp): Command {
    match c
    case NewOrder(o) => NewOrder(o.(timestamp := now))
    case CancelOrder(id) => c
  }

  /** The client loop: read a type byte, the rest of the message, decode, stamp and push. */
  method HandleClient(stream: Bytes, clock: nat -> Timestamp) returns (pushed: seq<Command>, end: End)
    ensures end == Frame(stream).end
    ensures |pushed| == |Frame(stream).commands|
    ensures forall i :: 0 <= i < |pushed| ==> pushed[i] == Stamp(Frame(stream).commands[i], clock(i))
    ensures forall i :: 0 <= i < |pushed| ==> Unstamped(pushed[i]) == Frame(stream).commands[i]
    ensures forall i :: 0 <= i < |pushed| && pushed[i].NewOrder? ==> pushed[i].order.timestamp == clock(i)
    ensures AllEncodable(pushed)
  {
    ghost var all := Frame(stream);
    pushed, end := [], Eof;
    var rest := stream;
    hide Frame, DecodeMessage, MessageSize, Stamp, Encodable;
    while rest != []
      invariant end == Eof && |pushed| <= |all.commands|
      invariant forall i :: 0 <= i < |pushed| ==> pushed[i] == Stamp(all.commands[i], clock(i))
      invariant AllEncodable(pushed)
      invariant Frame(rest) == Framed(all.commands[|pushed|..], all.end)
      decreases |rest|
    {
      FrameStep(rest, clock(|pushed|));
      var size := MessageSize(rest[0]);
      if size.Err? {
        end := Rejected(size.error);
        break;
      }
      if |rest| < size.value {
        break;
      }
      var c := DecodeMessage(rest[..size.value]);
      if c.Err? {
        end := Rejected(c.error);
        break;
      }
      pushed := pushed + [Stamp(c.value, clock(|pushed|))];
      rest := rest[size.value..];
    }
    if rest == [] {
      FrameNothing();
    }
    forall i | 0 <= i < |pushed|
      ensures Unstamped(pushed[i]) == all.commands[i]
      ensures pushed[i].NewOrder? ==> pushed[i].order.timestamp == clock(i)
    {
      FramedUnstamped(stream, i);
      Restamped(all.commands[i], clock(i));
    }
  }

  lemma Restamped(c: Command, now: Timestamp)
    requires c.NewOrder? ==> c.order.timestamp == 0
    ensures Unstamped(Stamp(c, now)) == c
    ensures Stamp(c, now).NewOrder? ==> Stamp(c, now).order.timestamp == now
  {
  }

  /** Framed orders carry no time of their own. */
  lemma {:induction false} FramedUnstamped(stream: Bytes, i: nat)
    requires i < |Frame(stream).commands|
    ensures Frame(stream).commands[i].NewOrder? ==> Frame(stream).commands[i].order.timestamp == 0
    decreases |stream|
  {
    hide DecodeMessage, Frame;
    FrameReads(stream);
    var size := if stream[0] == 1 then 40 else 16;
    if i == 0 {
      DecodeFormat(stream[..size]);
    } else {
      FramedUnstamped(stream[size..], i - 1);
    }
  }

  /** How a stream is cut: a first byte 1 takes 40 bytes, 2 takes 16, any other ends it. */
  lemma FrameReads(stream: Bytes)
    ensures if stream == [] then Frame(stream) == Framed([], Eof)
            else if stream[0] != 1 && stream[0] != 2 then Frame(stream) == Framed([], Rejected(UnknownMessageType(stream[0])))
            else
              var size := if stream[0] == 1 then 40 else 16;
              if |stream| < size then Frame(stream) == Framed([], Eof)
              else match DecodeMessage(stream[..size])
                case Err(e) => Frame(stream) == Framed([], Rejected(e))
                case Ok(c) =>
                  Frame(stream) == Framed([c] + Frame(stream[size..]).commands, Frame(stream[size..]).end)
  {
    hide DecodeMessage;
  }

  lemma FrameNothing()
    ensures Frame([]) == Framed([], Eof)
  {
  }

  /** One turn of the client loop. */
  lemma FrameStep(rest: Bytes, now: Timestamp)
    requires rest != []
    ensures var size := MessageSize(rest[0]);
            && (size.Err? ==> Frame(rest) == Framed([], Rejected(size.error)))
            && (size.Ok? ==>
                  && 0 < size.value
                  && (|rest| < size.value ==> Frame(rest) == Framed([], Eof))
                  && (|rest| >= size.value ==>
                        var c := DecodeMessage(rest[..size.value]);
                        && (c.Err? ==> Frame(rest) == Framed([], Rejected(c.error)))
                        && (c.Ok? ==>
                              && Encodable(Stamp(c.value, now))
                              && Frame(rest).commands != []
                              && Frame(rest).commands[0] == c.value
                              && Frame(rest[size.value..]) == Framed(Frame(rest).commands[1..], Frame(rest).end))))
  {
    hide DecodeMessage;
    var size := MessageSize(rest[0]);
    if size.Ok? && |rest| >= size.value && DecodeMessage(rest[..size.value]).Ok? {
      DecodeEncode(rest[..size.value]);
    }
  }
}
