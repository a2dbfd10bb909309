/**
 The per-connection framing of `client_handler`: received bytes are collected in
 a fixed buffer until a newline completes a packet.
 */
module Framing {
  import opened Lines

  const BUFFER_SIZE: nat := 1024 * 1024

  /** The fields of a seek command are of this width. */
  const UINT32: nat := 0x1_0000_0000

  /** The text `AESDCHAR_IOCSEEKTO:`. */
  const SEEKTO: Data := [65, 69, 83, 68, 67, 72, 65, 82, 95, 73, 79, 67, 83, 69, 69, 75, 84, 79, 58]

  /** What a string function sees of a buffer: the bytes before the first zero. */
  function CString(b: Data): Data {
    if b == [] || b[0] == 0 then [] else [b[0]] + CString(b[1..])
  }

  predicate OccursAt(s: Data, i: nat) {
    i + |SEEKTO| <= |s| && s[i..i + |SEEKTO|] == SEEKTO
  }

  /** `strstr(packet, SEEKTO)` finds something. */
  predicate IsSeek(packet: Data) {
    exists i :: 0 <= i <= |CString(packet)| && OccursAt(CString(packet), i)
  }

  /** A string ends at the first zero, or with the bytes there are. */
  lemma {:induction false} CStringEnds(b: Data)
    ensures |CString(b)| <= |b| && CString(b) == b[..|CString(b)|] && 0 !in CString(b)
    ensures |CString(b)| == |b| || b[|CString(b)|] == 0
  {
    if b != [] && b[0] != 0 {
      CStringEnds(b[1..]);
      assert b[..|CString(b)|] == [b[0]] + b[1..][..|CString(b[1..])|];
    }
  }

  ghost predicate Contains(s: Data, t: Data) {
    exists a: Data, b: Data :: s == (a + t) + b
  }

  lemma OccursInside(s: Data, i: nat)
    requires OccursAt(s, i)
    ensures Contains(s, SEEKTO)
  {
    assert s == (s[..i] + SEEKTO) + s[i + |SEEKTO|..];
  }

  lemma InsideOccurs(a: Data, b: Data)
    ensures OccursAt((a + SEEKTO) + b, |a|)
  {
    assert ((a + SEEKTO) + b)[|a|..|a| + |SEEKTO|] == SEEKTO;
  }

  lemma SeekIsInside(packet: Data)
    ensures IsSeek(packet) <==> Contains(CString(packet), SEEKTO)
  {
    var s := CString(packet);
    if IsSeek(packet) {
      var i :| 0 <= i <= |s| && OccursAt(s, i);
      OccursInside(s, i);
    }
    if Contains(s, SEEKTO) {
      var a: Data, b: Data :| s == (a + SEEKTO) + b;
      InsideOccurs(a, b);
      assert OccursAt(s, |a|);
    }
  }

  /** A packet is a seek exactly if its text holds, somewhere, just these nineteen bytes. */
  lemma SeekTextInside(packet: Data)
    ensures var t := [65, 69, 83, 68, 67, 72, 65, 82, 95, 73, 79, 67, 83, 69, 69, 75, 84, 79, 58];
            IsSeek(packet) <==> Contains(CString(packet), t)
  {
    SeekIsInside(packet);
  }

  lemma {:induction false} CStringPadded(packet: Data, n: nat)
    ensures CString(packet + seq(n, _ => 0)) == CString(packet)
  {
    var zeros := seq(n, _ => 0 as byte);
    if packet == [] {
      assert packet + zeros == zeros;
    } else {
      assert (packet + zeros)[1..] == packet[1..] + zeros;
      CStringPadded(packet[1..], n);
    }
  }

  /** The packets as lines, each with the newline that completed it. */
  function WithNewlines(packets: seq<Data>): seq<Data> {
    if packets == [] then [] else WithNewlines(packets[..|packets| - 1]) + [packets[|packets| - 1] + [NL]]
  }

  lemma OnePacketMore(before: seq<Data>, packets: seq<Data>, p: Data)
    ensures before + WithNewlines(packets + [p]) == (before + WithNewlines(packets)) + [p + [NL]]
  {
    assert (packets + [p])[..|packets|] == packets;
    assert before + (WithNewlines(packets) + [p + [NL]]) == (before + WithNewlines(packets)) + [p + [NL]];
  }

  lemma OneByteMore(was: Data, buffer: Data, i: nat)
    requires i < |buffer|
    ensures was + buffer[..i + 1] == (was + buffer[..i]) + [buffer[i]]
  {
  }

  /** One more byte that is no newline only lengthens the tail. */
  lemma TailByte(received: Data, b: byte)
    requires b != NL
    ensures Split(received + [b]) == Split(received) && Tail(received + [b]) == Tail(received) + [b]
  {
    SplitSound(received);
    SplitConcat(received, [b]);
    SplitNone(Tail(received) + [b]);
    assert Split(received) + [] == Split(received);
  }

  /** A newline turns the tail into a line. */
  lemma TailNewline(received: Data)
    ensures Split(received + [NL]) == Split(received) + [Tail(received) + [NL]] && Tail(received + [NL]) == []
  {
    SplitSound(received);
    SplitConcat(received, [NL]);
    SplitLine(Tail(received));
  }

  class ClientHandler {
    const writeBuffer: array<byte>
    var writeBufferIndex: nat

    ghost var received: Data

    /** The buffer holds the unterminated tail of all bytes received, zeros behind it. */
    ghost predicate Valid()
      reads this, writeBuffer
    {
      && writeBuffer.Length == BUFFER_SIZE
      && writeBufferIndex <= BUFFER_SIZE
      && writeBuffer[..writeBufferIndex] == Tail(received)
      && forall j :: writeBufferIndex <= j < BUFFER_SIZE ==> writeBuffer[j] == 0
    }

    constructor ()
      ensures Valid() && received == [] && fresh(writeBuffer)
    {
      writeBuffer := new byte[BUFFER_SIZE](_ => 0);
      writeBufferIndex := 0;
      received := [];
    }

    /** The test for a seek packet, made on the whole buffer, sees exactly the packet. */
    lemma SeekTestSeesPacket()
      requires Valid() && writeBufferIndex < BUFFER_SIZE
      ensures CString(writeBuffer[..]) == CString(Tail(received))
      ensures IsSeek(writeBuffer[..]) <==> IsSeek(Tail(received))
    {
      var n := BUFFER_SIZE - writeBufferIndex;
      assert writeBuffer[..] == Tail(received) + seq(n, _ => 0 as byte);
      CStringPadded(Tail(received), n);
    }

    method TakeByte(b: byte)
      requires Valid() && b != NL && writeBufferIndex < BUFFER_SIZE
      modifies this, writeBuffer
      ensures Valid() && received == old(received) + [b]
      ensures Split(received) == Split(old(received))
    {
      TailByte(received, b);
      writeBuffer[writeBufferIndex] := b;
      writeBufferIndex := writeBufferIndex + 1;
      received := received + [b];
    }

    method TakeNewline() returns (packet: Data)
      requires Valid() && writeBufferIndex < BUFFER_SIZE
      modifies this, writeBuffer
      ensures Valid() && received == old(received) + [NL] && Tail(received) == []
      ensures packet == old(Tail(received))
      ensures Split(received) == Split(old(received)) + [packet + [NL]]
    {
      TailNewline(received);
      packet := writeBuffer[..writeBufferIndex];
      forall j | 0 <= j < writeBuffer.Length {
        writeBuffer[j] := 0;
      }
      writeBufferIndex := 0;
      received := received + [NL];
    }

    /**
     One received buffer. The packets it completes are the next lines of the
     stream, however the stream was cut into buffers. Every byte must find room
     in the write buffer; a newline needs it for the string test.
     */
    method ProcessBuffer(readBuffer: Data) returns (packets: seq<Data>)
      requires Valid()
      requires forall k :: 0 <= k < |readBuffer| ==> |Tail(received + readBuffer[..k])| < BUFFER_SIZE
      modifies this, writeBuffer
      ensures Valid() && received == old(received) + readBuffer
      ensures Split(received) == Split(old(received)) + WithNewlines(packets)
    {
      packets := [];
      var i := 0;
      ghost var was := received;
      while i < |readBuffer|
        invariant i <= |readBuffer|
        invariant Valid() && received == was + readBuffer[..i]
        invariant Split(received) == Split(was) + WithNewlines(packets)
      {
        OneByteMore(was, readBuffer, i);
        if readBuffer[i] == NL {
          var packet := TakeNewline();
          OnePacketMore(Split(was), packets, packet);
          packets := packets + [packet];
        } else {
          TakeByte(readBuffer[i]);
        }
        i := i + 1;
      }
      assert readBuffer[..i] == readBuffer;
    }
  }
}
