/**
 The frames of src/ipc/ipc_protocol.cpp and the loops that move them over a stream socket.
 All three frame kinds have one layout: a 32-bit word (method, status or event), the 32-bit length of the
 payload and the payload.  Both ends run on one host; its byte order is taken to be little-endian.
 */
module Framing {
  import opened Numerals
  import opened Shared

  newtype byte = n: int | 0 <= n < 256
  type Stream = seq<byte>

  type uint32 = n: nat | n < TWO_TO_THE_32

  /** A payload whose length fits the length field. */
  type Payload = s: Stream | |s| < TWO_TO_THE_32

  /** The four bytes of a header field. */
  function Word(n: uint32): (b: Stream)
    ensures |b| == 4
  {
    var (n1, n2, n3) := (n / 256, n / 256 / 256, n / 256 / 256 / 256);
    [(n % 256) as byte, (n1 % 256) as byte, (n2 % 256) as byte, n3 as byte]
  }

  function WordValue(b: Stream): uint32
    requires |b| == 4
  {
    b[0] as int + 256 * (b[1] as int + 256 * (b[2] as int + 256 * b[3] as int))
  }

  lemma WordRoundTrip(n: uint32)
    ensures WordValue(Word(n)) == n
  {
  }

  /** A signed status code is stored as the unsigned word with the same bits. */
  function StatusWord(code: int): uint32
    requires -0x8000_0000 <= code < 0x8000_0000
  {
    code % TWO_TO_THE_32
  }

  function StatusOf(word: uint32): int { if word < 0x8000_0000 then word else word - TWO_TO_THE_32 }

  lemma StatusRoundTrip(code: int)
    requires -0x8000_0000 <= code < 0x8000_0000
    ensures StatusOf(StatusWord(code)) == code
  {
  }

  datatype Frame = Frame(word: uint32, payload: Stream)

  /** The bytes written for a frame; the length field keeps the low 32 bits of the length. */
  function Encode(f: Frame): (b: Stream)
    ensures |b| == 8 + |f.payload|
  {
    Word(f.word) + Word(|f.payload| % TWO_TO_THE_32) + f.payload
  }

  /** The layout: the word, the length and the payload, both numbers least significant byte first. */
  lemma FrameLayout(f: Frame)
    requires |f.payload| < TWO_TO_THE_32
    ensures var b := Encode(f);
            && b[0] as int + 256 * b[1] as int + 65536 * b[2] as int + 16777216 * b[3] as int == f.word
            && b[4] as int + 256 * b[5] as int + 65536 * b[6] as int + 16777216 * b[7] as int == |f.payload|
            && b[8..] == f.payload
  {
    hide Word;
    BytesOfWord(f.word);
    BytesOfWord(|f.payload|);
  }

  lemma BytesOfWord(n: uint32)
    ensures var b := Word(n);
            b[0] as int + 256 * b[1] as int + 65536 * b[2] as int + 16777216 * b[3] as int == n
  {
  }

  function EncodeAll(fs: seq<Frame>): Stream {
    if fs == [] then [] else Encode(fs[0]) + EncodeAll(fs[1..])
  }

  lemma {:induction false} EncodeAllAppend(fs: seq<Frame>, f: Frame)
    ensures EncodeAll(fs + [f]) == EncodeAll(fs) + Encode(f)
  {
    hide Encode;
    if fs == [] {
      assert fs + [f] == [f];
      assert [f][1..] == [];
    } else {
      EncodeAllAppend(fs[1..], f);
      assert (fs + [f])[1..] == fs[1..] + [f];
    }
  }

  predicate Fits(f: Frame, max: uint32) { |f.payload| <= max }

  predicate AllFit(fs: seq<Frame>, max: uint32) { forall i | 0 <= i < |fs| :: Fits(fs[i], max) }

  /** The encoding is prefix-free: a byte stream begins with at most one frame. */
  lemma FrameIsUnique(f: Frame, rest: Stream, f': Frame, rest': Stream, max: uint32)
    requires Fits(f, max) && Fits(f', max)
    requires Encode(f) + rest == Encode(f') + rest'
    ensures f == f' && rest == rest'
  {
    var s := Encode(f) + rest;
    HeaderFields(f, rest);
    HeaderFields(f', rest');
    assert f.payload == s[8..8 + |f.payload|] == f'.payload;
    assert rest == s[8 + |f.payload|..] == rest';
  }

  lemma HeaderFields(f: Frame, rest: Stream)
    requires |f.payload| < TWO_TO_THE_32
    ensures var s := Encode(f) + rest;
            WordValue(s[..4]) == f.word && WordValue(s[4..8]) == |f.payload|
            && s[8..8 + |f.payload|] == f.payload && s[8 + |f.payload|..] == rest
  {
    hide Word, WordValue;
    var s := Encode(f) + rest;
    assert s[..4] == Word(f.word);
    assert s[4..8] == Word(|f.payload|);
    WordRoundTrip(f.word);
    WordRoundTrip(|f.payload|);
  }

  // The operating system

  /** What one call does: moves some bytes (never more than asked), is interrupted, sees EOF or fails. */
  datatype Event = Ready(n: nat) | Interrupted | Closed | Failed

  /** How many calls of the schedule move bytes, if none of them closes or fails. */
  function ReadyCount(schedule: seq<Event>): nat {
    if schedule == [] then 0 else ReadyCount(schedule[1..]) + if schedule[0].Ready? then 1 else 0
  }

  predicate Benign(schedule: seq<Event>) {
    forall i | 0 <= i < |schedule| :: schedule[i].Ready? || schedule[i].Interrupted?
  }

  datatype Status = Moved(n: nat) | Eof | Eintr | Error

  /**
   One end of a connected stream socket.  The schedule says what the next calls do; once it is used up, and
   whenever there is nothing to receive, a call times out.  Any behaviour that ends is given by some schedule.
   */
  class Socket {
    var inbox: Stream
    var outbox: Stream
    var schedule: seq<Event>

    constructor (inbox: Stream, schedule: seq<Event>)
      ensures this.inbox == inbox && this.outbox == [] && this.schedule == schedule
    {
      this.inbox, this.outbox, this.schedule := inbox, [], schedule;
    }

    method Recv(limit: nat) returns (status: Status, data: Stream)
      requires limit > 0
      modifies this
      ensures old(inbox) == data + inbox && outbox == old(outbox)
      ensures match status { case Moved(n) => 0 < n == |data| <= limit case _ => data == [] }
      ensures status.Eintr? ==> |schedule| < |old(schedule)|
      ensures Benign(old(schedule)) ==> Benign(schedule) && !status.Eof?
      ensures ReadyCount(schedule) + 1 >= ReadyCount(old(schedule))
      ensures status.Eintr? ==> ReadyCount(schedule) == ReadyCount(old(schedule))
      ensures Benign(old(schedule)) && ReadyCount(old(schedule)) > 0 && |old(inbox)| > 0 ==> !status.Error?
    {
      var n;
      status, n := Next(if limit < |inbox| then limit else |inbox|);
      data, inbox := inbox[..n], inbox[n..];
    }

    method Send(data: Stream) returns (status: Status)
      requires |data| > 0
      modifies this
      ensures inbox == old(inbox)
      ensures outbox == old(outbox) +
              match status { case Moved(n) => if n <= |data| then data[..n] else [] case _ => [] }
      ensures match status { case Moved(n) => 0 < n <= |data| case _ => true }
      ensures status.Eintr? ==> |schedule| < |old(schedule)|
      ensures Benign(old(schedule)) ==> Benign(schedule) && !status.Eof?
      ensures ReadyCount(schedule) + 1 >= ReadyCount(old(schedule))
      ensures status.Eintr? ==> ReadyCount(schedule) == ReadyCount(old(schedule))
      ensures Benign(old(schedule)) && ReadyCount(old(schedule)) > 0 ==> !status.Error?
    {
      var n;
      status, n := Next(|data|);
      outbox := outbox + data[..n];
    }

    /** Takes the next event when at most limit bytes can move. */
    method Next(limit: nat) returns (status: Status, n: nat)
      modifies `schedule
      ensures match status { case Moved(m) => 0 < m == n <= limit case _ => n == 0 }
      ensures status.Eintr? ==> |schedule| < |old(schedule)| && ReadyCount(schedule) == ReadyCount(old(schedule))
      ensures Benign(old(schedule)) ==> Benign(schedule) && !status.Eof?
      ensures ReadyCount(schedule) + 1 >= ReadyCount(old(schedule))
      ensures Benign(old(schedule)) && ReadyCount(old(schedule)) > 0 && limit > 0 ==> !status.Error?
    {
      if schedule == [] {
        return Error, 0;
      }
      var e := schedule[0];
      schedule := schedule[1..];
      match e {
        case Ready(m) =>
          if limit == 0 {
            return Error, 0;
          }
          n := if m == 0 then 1 else if m < limit then m else limit;
          status := Moved(n);
        case Interrupted => return Eintr, 0;
        case Closed => return Eof, 0;
        case Failed => return Error, 0;
      }
    }
  }

  // The loops

  /** Reads exactly size bytes or fails; either way what was taken is a prefix of what was there. */
  method ReadExact(sock: Socket, size: nat) returns (ok: bool, data: Stream)
    modifies sock
    ensures old(sock.inbox) == data + sock.inbox && sock.outbox == old(sock.outbox)
    ensures if ok then |data| == size else |data| < size
    ensures Benign(old(sock.schedule)) ==> Benign(sock.schedule)
    ensures ok ==> ReadyCount(sock.schedule) + size >= ReadyCount(old(sock.schedule))
    ensures Benign(old(sock.schedule)) && ReadyCount(old(sock.schedule)) >= size && |old(sock.inbox)| >= size ==> ok
  {
    hide Benign, ReadyCount;
    data := [];
    var remaining := size;
    while remaining > 0
      invariant |data| + remaining == size
      invariant old(sock.inbox) == data + sock.inbox && sock.outbox == old(sock.outbox)
      invariant Benign(old(sock.schedule)) ==> Benign(sock.schedule)
      invariant ReadyCount(sock.schedule) + |data| >= ReadyCount(old(sock.schedule))
      decreases remaining, |sock.schedule|
    {
      var status, chunk := sock.Recv(remaining);
      match status {
        case Moved(n) =>
          data := data + chunk;
          remaining := remaining - n;
        case Eintr =>
        case Eof => return false, data;
        case Error => return false, data;
      }
    }
    ok := true;
  }

  /** Writes all the data or fails after a proper prefix of it; it fails only if a call does. */
  method WriteAll(sock: Socket, data: Stream) returns (ok: bool, ghost sent: nat)
    modifies sock
    ensures sent <= |data| && sock.outbox == old(sock.outbox) + data[..sent] && sock.inbox == old(sock.inbox)
    ensures ok <==> sent == |data|
    ensures Benign(old(sock.schedule)) && ReadyCount(old(sock.schedule)) >= |data| ==> ok
  {
    hide Benign, ReadyCount;
    var at := 0;
    while at < |data|
      invariant 0 <= at <= |data|
      invariant Benign(old(sock.schedule)) ==> Benign(sock.schedule)
      invariant ReadyCount(sock.schedule) + at >= ReadyCount(old(sock.schedule))
      invariant sock.outbox == old(sock.outbox) + data[..at] && sock.inbox == old(sock.inbox)
      decreases |data| - at, |sock.schedule|
    {
      var status := sock.Send(data[at..]);
      match status {
        case Moved(n) =>
          assert data[..at] + data[at..][..n] == data[..at + n];
          at := at + n;
        case Eintr =>
        case Eof => return false, at;
        case Error => return false, at;
      }
    }
    ok, sent := true, at;
  }

  method WriteFrame(sock: Socket, f: Frame) returns (ok: bool, ghost sent: nat)
    modifies sock
    ensures sent <= |Encode(f)| && sock.outbox == old(sock.outbox) + Encode(f)[..sent] && sock.inbox == old(sock.inbox)
    ensures ok <==> sent == |Encode(f)|
    ensures Benign(old(sock.schedule)) && ReadyCount(old(sock.schedule)) >= |Encode(f)| ==> ok
  {
    ok, sent := WriteAll(sock, Encode(f));
  }

  /** The stream begins with a whole frame whose payload is not too long. */
  predicate HoldsFrame(s: Stream, max: uint32) {
    |s| >= 8 && WordValue(s[4..8]) <= max && |s| >= 8 + WordValue(s[4..8])
  }

  lemma HoldsFrameIff(f: Frame, rest: Stream, max: uint32)
    requires |f.payload| < TWO_TO_THE_32
    ensures HoldsFrame(Encode(f) + rest, max) <==> Fits(f, max)
  {
    HeaderFields(f, rest);
  }

  /** A stream cut off inside a frame holds no frame. */
  lemma TornFrame(f: Frame, n: nat, max: uint32)
    requires |f.payload| < TWO_TO_THE_32 && n < |Encode(f)|
    ensures !HoldsFrame(Encode(f)[..n], max)
  {
    HeaderFields(f, []);
    assert Encode(f) + [] == Encode(f);
    if n >= 8 {
      assert Encode(f)[..n][4..8] == Encode(f)[4..8];
    }
  }

  /** Header, length check, payload. */
  method ReadFrame(sock: Socket, max: uint32) returns (result: Option<Frame>)
    modifies sock
    ensures result.Some? ==>
      && HoldsFrame(old(sock.inbox), max) && Fits(result.value, max)
      && old(sock.inbox) == Encode(result.value) + sock.inbox
    ensures |sock.inbox| <= |old(sock.inbox)| && sock.inbox == old(sock.inbox)[|old(sock.inbox)| - |sock.inbox|..]
    ensures sock.outbox == old(sock.outbox)
    ensures Benign(old(sock.schedule)) ==> Benign(sock.schedule)
    ensures result.Some? ==>
      ReadyCount(sock.schedule) + |Encode(result.value)| >= ReadyCount(old(sock.schedule))
    ensures
      (HoldsFrame(old(sock.inbox), max) && Benign(old(sock.schedule))
       && ReadyCount(old(sock.schedule)) >= 8 + WordValue(old(sock.inbox)[4..8])) ==> result.Some?
  {
    hide Word, WordValue, Benign, ReadyCount, Encode;
    var ok, header := ReadExact(sock, 8);
    if !ok {
      return None;
    }
    ghost var all, body := old(sock.inbox), sock.inbox;
    HeaderIs(all, header, body);
    var word, length := WordValue(header[..4]), WordValue(header[4..]);
    if length > max {
      return None;
    }
    var payload := [];
    if length > 0 {
      ok, payload := ReadExact(sock, length);
      if !ok {
        return None;
      }
    }
    FrameIs(header, payload, sock.inbox);
    assert all == header + (payload + sock.inbox);
    result := Some(Frame(word, payload));
  }

  lemma HeaderIs(all: Stream, header: Stream, body: Stream)
    requires |header| == 8 && all == header + body
    ensures header[4..] == all[4..8] && |all| == 8 + |body|
  {
  }

  lemma FrameIs(header: Stream, payload: Stream, rest: Stream)
    requires |header| == 8 && |payload| == WordValue(header[4..])
    ensures header + (payload + rest) == Encode(Frame(WordValue(header[..4]), payload)) + rest
  {
    hide Word, WordValue;
    HeaderOf(header);
    assert header + (payload + rest) == header + payload + rest;
  }

  /** Reads frames until one cannot be read, as the connection and event loops do. */
  method ReadFrames(sock: Socket, max: uint32, ghost fs: seq<Frame>, ghost torn: Stream) returns (frames: seq<Frame>)
    requires AllFit(fs, max) && !HoldsFrame(torn, max) && sock.inbox == EncodeAll(fs) + torn
    modifies sock
    ensures frames <= fs
    ensures Benign(old(sock.schedule)) && ReadyCount(old(sock.schedule)) >= |EncodeAll(fs)| ==> frames == fs
  {
    hide Encode, HoldsFrame, Benign, ReadyCount;
    frames := [];
    ghost var left := fs;
    while true
      invariant fs == frames + left && AllFit(left, max) && sock.inbox == EncodeAll(left) + torn
      invariant Benign(old(sock.schedule)) ==> Benign(sock.schedule)
      invariant ReadyCount(old(sock.schedule)) >= |EncodeAll(fs)| ==> ReadyCount(sock.schedule) >= |EncodeAll(left)|
      decreases |left|
    {
      if left == [] {
        assert EncodeAll(left) + torn == torn;
      } else {
        FirstOf(left, torn, max);
      }
      var result := ReadFrame(sock, max);
      if result.None? {
        return;
      }
      assert left != [];
      FrameIsUnique(left[0], EncodeAll(left[1..]) + torn, result.value, sock.inbox, max);
      frames := frames + [result.value];
      left := left[1..];
    }
  }

  lemma FirstOf(fs: seq<Frame>, torn: Stream, max: uint32)
    requires fs != [] && AllFit(fs, max)
    ensures EncodeAll(fs) + torn == Encode(fs[0]) + (EncodeAll(fs[1..]) + torn)
    ensures |EncodeAll(fs)| == |Encode(fs[0])| + |EncodeAll(fs[1..])|
    ensures HoldsFrame(EncodeAll(fs) + torn, max)
    ensures 8 + WordValue((EncodeAll(fs) + torn)[4..8]) == |Encode(fs[0])|
  {
    hide Encode, HoldsFrame, Word, WordValue;
    assert EncodeAll(fs) + torn == Encode(fs[0]) + (EncodeAll(fs[1..]) + torn);
    HoldsFrameIff(fs[0], EncodeAll(fs[1..]) + torn, max);
    HeaderFields(fs[0], EncodeAll(fs[1..]) + torn);
  }

  lemma HeaderOf(header: Stream)
    requires |header| == 8
    ensures Word(WordValue(header[..4])) + Word(WordValue(header[4..])) == header
  {
    hide Word, WordValue;
    BytesRoundTrip(header[..4]);
    BytesRoundTrip(header[4..]);
    assert header[..4] + header[4..] == header;
  }

  lemma BytesRoundTrip(b: Stream)
    requires |b| == 4
    ensures Word(WordValue(b)) == b
  {
    var n := WordValue(b);
    assert n / 256 == b[1] as int + 256 * (b[2] as int + 256 * b[3] as int);
    assert n / 256 / 256 == b[2] as int + 256 * b[3] as int;
  }
}
