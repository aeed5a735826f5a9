/** Frames on a byte stream (examples/taskstore/cpp/frame.hpp, examples/taskstore/python/api.py):
    a length, then that many bytes, over sends and receives that may be short. */
module Framing {
  import opened Common
  import opened LittleEndian

  const MAX_FRAME_LEN := 0x10_0000

  type Payload = seq<byte>

  function Frame(p: Payload): seq<byte> { LE(|p|, 4) + p }

  function Frames(ps: seq<Payload>): seq<byte> {
    if ps == [] then [] else Frame(ps[0]) + Frames(ps[1..])
  }

  /** How the network treats the calls made on one end: how much a call moves, of at
      least one byte and at most what it is asked for, and which call fails. */
  datatype Network = Network(choose: (nat, nat) -> nat, fails: nat -> bool)

  ghost predicate Reliable(net: Network) { forall i :: !net.fails(i) }

  /** One end of a connection, `down` once a call has failed. */
  class Stream {
    var bytes: seq<byte>
    var calls: nat
    var down: bool
    const net: Network

    constructor (bytes: seq<byte>, net: Network)
      ensures this.bytes == bytes && this.net == net && !down
    {
      this.bytes := bytes;
      this.net := net;
      calls, down := 0, false;
    }

    /** What this call moves out of `limit`. */
    function Chunk(limit: nat): (n: nat)
      requires limit > 0
      reads this
      ensures 1 <= n <= limit
    {
      var n := net.choose(calls, limit);
      if n < 1 then 1 else if n > limit then limit else n
    }

    /** send: some non-empty part of the data arrives, or the call fails. */
    method Send(data: seq<byte>) returns (n: nat)
      requires data != [] && !down
      modifies this
      ensures n <= |data| && bytes == old(bytes) + data[..n]
      ensures down <==> n == 0
      ensures Reliable(net) ==> !down
    {
      down := net.fails(calls);
      n := if down then 0 else Chunk(|data|);
      calls := calls + 1;
      bytes := bytes + data[..n];
    }

    /** recv: some non-empty part of what is there; nothing at the end or on a failure. */
    method Recv(limit: nat) returns (chunk: seq<byte>)
      requires limit > 0 && !down
      modifies this
      ensures old(bytes) == chunk + bytes && |chunk| <= limit
      ensures chunk == [] <==> down || old(bytes) == []
      ensures Reliable(net) ==> !down
    {
      down := net.fails(calls);
      if down || bytes == [] { return []; }
      var n := Chunk(if limit <= |bytes| then limit else |bytes|);
      calls := calls + 1;
      chunk := bytes[..n];
      bytes := bytes[n..];
    }
  }

  // ---- writing -------------------------------------------------------------

  /** write_frame: the whole frame goes out, however the sends are cut; a payload over
      the limit sends nothing, and a send that fails leaves a strict prefix. */
  method WriteFrame(s: Stream, payload: Payload) returns (ok: bool, ghost sent: nat)
    requires !s.down
    modifies s
    ensures Reliable(s.net) ==> !s.down
    ensures ok <==> |payload| <= MAX_FRAME_LEN && !s.down
    ensures sent <= |Frame(payload)| && s.bytes == old(s.bytes) + Frame(payload)[..sent]
    ensures |payload| > MAX_FRAME_LEN ==> sent == 0 && !s.down
    ensures |payload| <= MAX_FRAME_LEN ==> (s.down <==> sent < |Frame(payload)|)
  {
    if |payload| > MAX_FRAME_LEN {
      assert Frame(payload)[..0] == [];
      return false, 0;
    }
    var framed := PutLE([], |payload|, 4);
    framed := framed + payload;
    assert framed == Frame(payload);
    var done := 0;
    assert framed[..0] == [];
    while done < |framed|
      invariant done <= |framed| && s.bytes == old(s.bytes) + framed[..done] && !s.down
    {
      var w := s.Send(framed[done..]);
      assert framed[done..][..w] == framed[done..done + w];
      assert framed[..done] + framed[done..done + w] == framed[..done + w];
      if w == 0 { return false, done; }
      done := done + w;
    }
    ok, sent := true, done;
  }

  // ---- reading -------------------------------------------------------------

  /** read_exact: `n` bytes; failure only when a call fails or the stream is used up. */
  method ReadExact(s: Stream, n: nat) returns (dst: Option<seq<byte>>)
    requires !s.down
    modifies s
    ensures Reliable(s.net) ==> !s.down
    ensures dst.Some? <==> !s.down && |old(s.bytes)| >= n
    ensures dst.Some? ==> |dst.value| == n && old(s.bytes) == dst.value + s.bytes
    ensures dst.None? ==> s.down || s.bytes == []
  {
    var got: seq<byte> := [];
    while |got| < n
      invariant |got| <= n && old(s.bytes) == got + s.bytes && !s.down
      decreases n - |got|
    {
      var chunk := s.Recv(n - |got|);
      if chunk == [] { return None; }
      got := got + chunk;
    }
    dst := Some(got);
  }

  datatype Outcome = Got(payload: Payload) | Closed | Broken | TooLong | Failed

  /** What one frame reads as. */
  function Next(bytes: seq<byte>): Outcome {
    if bytes == [] then Closed
    else if |bytes| < 4 then Broken
    else
      var n := FromLE(bytes[..4]);
      if n > MAX_FRAME_LEN then TooLong
      else if |bytes| < 4 + n then Broken
      else Got(bytes[4..4 + n])
  }

  /** The C++ reader, which reports a clean end and a cut frame alike. */
  method ReadFrame(s: Stream) returns (r: Option<Payload>)
    requires !s.down
    modifies s
    ensures Reliable(s.net) ==> !s.down
    ensures r.Some? <==> !s.down && Next(old(s.bytes)).Got?
    ensures r.Some? ==> r.value == Next(old(s.bytes)).payload && old(s.bytes) == Frame(r.value) + s.bytes
  {
    var header := ReadExact(s, 4);
    if header.None? { return None; }
    var h := header.value;
    assert old(s.bytes)[..4] == h;
    var n := 0;
    for i := 4 downto 0
      invariant n == FromLE(h[i..])
    {
      assert h[i..][1..] == h[i + 1..];
      var b: int := h[i];
      n := n * 256 + b;
    }
    assert h[0..] == h;
    HeaderBack(h);
    if n > MAX_FRAME_LEN { return None; }
    var payload := ReadExact(s, n);
    if payload.Some? {
      assert old(s.bytes) == (h + payload.value) + s.bytes;
    }
    r := payload;
  }

  lemma HeaderBack(h: seq<byte>)
    requires |h| == 4
    ensures LE(FromLE(h), 4) == h
  {
    LEofFromLE(h);
  }

  /** The Python reader, which tells a clean end, a cut frame and an oversized one apart. */
  method ReadFrameOrEnd(s: Stream) returns (r: Outcome)
    requires !s.down
    modifies s
    ensures Reliable(s.net) ==> !s.down
    ensures r == if s.down then Failed else Next(old(s.bytes))
    ensures r.Got? ==> old(s.bytes) == Frame(r.payload) + s.bytes
  {
    if s.bytes == [] { return Closed; }
    var header := ReadExact(s, 4);
    if s.down { return Failed; }
    if header.None? { return Broken; }
    var h := header.value;
    assert old(s.bytes)[..4] == h;
    var n, _ := TakeLE(h, 0, 4);
    assert h[0..0 + 4] == h;
    HeaderBack(h);
    if n > MAX_FRAME_LEN { return TooLong; }
    var payload := ReadExact(s, n);
    if s.down { return Failed; }
    if payload.None? { return Broken; }
    assert old(s.bytes) == (h + payload.value) + s.bytes;
    r := Got(payload.value);
  }

  // ---- a whole conversation ------------------------------------------------

  predicate Sendable(ps: seq<Payload>) { forall p | p in ps :: |p| <= MAX_FRAME_LEN }

  /** A frame is read back whatever follows it. */
  lemma NextOfFrame(p: Payload, rest: seq<byte>)
    requires |p| <= MAX_FRAME_LEN
    ensures Next(Frame(p) + rest) == Got(p)
  {
    var bytes := Frame(p) + rest;
    assert Pow256(4) == 0x1_0000_0000 by { assert Pow256(2) == 0x1_0000; }
    FromLEofLE(|p|, 4);
    assert bytes[..4] == LE(|p|, 4) && bytes[4..4 + |p|] == p;
  }

  /** Every strict prefix of a frame is a clean end or a cut frame, never a payload. */
  lemma CutFrame(p: Payload, n: nat)
    requires |p| <= MAX_FRAME_LEN && n < |Frame(p)|
    ensures Next(Frame(p)[..n]) == if n == 0 then Closed else Broken
  {
    if n >= 4 {
      assert Pow256(4) == 0x1_0000_0000 by { assert Pow256(2) == 0x1_0000; }
      FromLEofLE(|p|, 4);
      assert Frame(p)[..n][..4] == LE(|p|, 4);
    }
  }

  lemma {:induction false} FramesSnoc(ps: seq<Payload>, p: Payload)
    ensures Frames(ps + [p]) == Frames(ps) + Frame(p)
  {
    if ps == [] {
      assert ps + [p] == [p] && [p][1..] == [];
    } else {
      assert (ps + [p])[1..] == ps[1..] + [p];
      FramesSnoc(ps[1..], p);
    }
  }

  /** Frame after frame until a send fails: `k` whole frames are out, and of the next one
      a strict prefix. */
  method WriteAll(s: Stream, ps: seq<Payload>) returns (k: nat, ghost cut: seq<byte>)
    requires Sendable(ps) && !s.down
    modifies s
    ensures Reliable(s.net) ==> !s.down
    ensures k <= |ps| && s.bytes == old(s.bytes) + (Frames(ps[..k]) + cut)
    ensures if s.down then k < |ps| && cut < Frame(ps[k]) else k == |ps| && cut == []
  {
    k, cut := 0, [];
    NothingWritten(ps, s.bytes);
    while k < |ps|
      invariant k <= |ps| && !s.down && cut == [] && s.bytes == old(s.bytes) + (Frames(ps[..k]) + [])
    {
      hide Frame, Frames, Reliable;
      ghost var before := s.bytes;
      assert ps[k] in ps;
      var ok;
      ghost var sent;
      ok, sent := WriteFrame(s, ps[k]);
      OneWritten(ps, k, old(s.bytes), before, sent, s.bytes);
      if !ok {
        cut := Frame(ps[k])[..sent];
        return;
      }
      k := k + 1;
    }
  }

  lemma NothingWritten(ps: seq<Payload>, start: seq<byte>)
    ensures start == start + (Frames(ps[..0]) + [])
  {
  }

  lemma OneWritten(ps: seq<Payload>, k: nat, start: seq<byte>, before: seq<byte>, sent: nat, bytes: seq<byte>)
    requires k < |ps| && before == start + (Frames(ps[..k]) + []) && sent <= |Frame(ps[k])|
    requires bytes == before + Frame(ps[k])[..sent]
    ensures bytes == start + (Frames(ps[..k]) + Frame(ps[k])[..sent])
    ensures sent == |Frame(ps[k])| ==> bytes == start + (Frames(ps[..k + 1]) + [])
  {
    assert ps[..k + 1] == ps[..k] + [ps[k]];
    FramesSnoc(ps[..k], ps[k]);
    hide Frame, Frames;
  }

  lemma SameTail(a: seq<byte>, b: seq<byte>, c: seq<byte>)
    requires a + b == a + c
    ensures b == c
  {
    assert b == (a + b)[|a|..] && c == (a + c)[|a|..];
  }

  /** What reading finds after the first `i` frames. */
  lemma NextOf(ps: seq<Payload>, i: nat, cut: seq<byte>, bytes: seq<byte>)
    requires Sendable(ps) && i <= |ps| && bytes == Frames(ps[i..]) + cut
    ensures i == |ps| ==> bytes == cut
    ensures i < |ps| ==> bytes == Frame(ps[i]) + (Frames(ps[i + 1..]) + cut) && Next(bytes) == Got(ps[i])
  {
    if i < |ps| {
      var tail := ps[i..];
      assert tail[1..] == ps[i + 1..] && ps[i] in ps;
      assert bytes == Frame(ps[i]) + (Frames(tail[1..]) + cut);
      NextOfFrame(ps[i], Frames(tail[1..]) + cut);
    } else {
      assert ps[i..] == [] && [] + cut == cut;
    }
  }

  /** The C++ side reads until the reader throws: the payloads that were written whole,
      in order, or the first of them when a call fails. */
  method ReadAll(s: Stream, ghost ps: seq<Payload>, ghost cut: seq<byte>) returns (out: seq<Payload>)
    requires Sendable(ps) && !s.down && s.bytes == Frames(ps) + cut && !Next(cut).Got?
    modifies s
    ensures Reliable(s.net) ==> !s.down
    ensures out <= ps && (!s.down ==> out == ps)
  {
    out := [];
    assert ps[0..] == ps;
    while true
      invariant out <= ps && !s.down && s.bytes == Frames(ps[|out|..]) + cut
      decreases |ps| - |out|
    {
      NextOf(ps, |out|, cut, s.bytes);
      hide Frame, Frames, Next;
      ghost var before := s.bytes;
      var r := ReadFrame(s);
      if r.None? { return; }
      SameTail(Frame(r.value), s.bytes, Frames(ps[|out| + 1..]) + cut);
      out := out + [r.value];
    }
  }

  /** The Python side reads until something other than a frame comes, and knows what. */
  method ReadAllOrEnd(s: Stream, ghost ps: seq<Payload>, ghost cut: seq<byte>)
    returns (out: seq<Payload>, end: Outcome)
    requires Sendable(ps) && !s.down && s.bytes == Frames(ps) + cut && !Next(cut).Got?
    modifies s
    ensures Reliable(s.net) ==> !s.down
    ensures out <= ps && (!s.down ==> out == ps && end == Next(cut)) && (s.down ==> end == Failed)
  {
    out := [];
    assert ps[0..] == ps;
    while true
      invariant out <= ps && !s.down && s.bytes == Frames(ps[|out|..]) + cut
      decreases |ps| - |out|
    {
      NextOf(ps, |out|, cut, s.bytes);
      hide Frame, Frames, Next;
      ghost var before := s.bytes;
      end := ReadFrameOrEnd(s);
      if !end.Got? { return; }
      SameTail(Frame(end.payload), s.bytes, Frames(ps[|out| + 1..]) + cut);
      out := out + [end.payload];
    }
  }

  /** From one end to the other, whatever the sends and receives are cut into and
      whichever of them fails: both readers get the payloads that went out whole, in
      order, none of them when cut; a reader whose own receives fail gets the first of
      these. */
  method Conversation(ps: seq<Payload>, sending: Network, receiving: Network)
    returns (k: nat, cpp: seq<Payload>, python: seq<Payload>, end: Outcome)
    requires Sendable(ps)
    ensures k <= |ps| && cpp <= ps[..k] && python <= ps[..k]
    ensures Reliable(sending) ==> k == |ps|
    ensures Reliable(receiving) ==> cpp == python == ps[..k] && end in {Closed, Broken}
    ensures k == |ps| && Reliable(receiving) ==> end == Closed
  {
    hide Frames, Next, Frame;
    var outgoing := new Stream([], sending);
    ghost var cut;
    k, cut := WriteAll(outgoing, ps);
    var wire := outgoing.bytes;
    ghost var whole := ps[..k];
    assert wire == [] + (Frames(whole) + cut) == Frames(whole) + cut;
    assert forall p | p in whole :: p in ps;
    CutIs(ps, k, cut);
    var toCpp := new Stream(wire, receiving);
    cpp := ReadAll(toCpp, whole, cut);
    var toPython := new Stream(wire, receiving);
    python, end := ReadAllOrEnd(toPython, whole, cut);
  }

  lemma CutIs(ps: seq<Payload>, k: nat, cut: seq<byte>)
    requires Sendable(ps) && if k < |ps| then cut < Frame(ps[k]) else cut == []
    ensures Next(cut) == Closed || Next(cut) == Broken
    ensures k >= |ps| ==> Next(cut) == Closed
  {
    if k < |ps| {
      assert ps[k] in ps && cut == Frame(ps[k])[..|cut|];
      CutFrame(ps[k], |cut|);
    }
  }
}
