/** Cutting a byte stream into packets: one parser of the whole stream, and the two incremental receivers. */
module Framing {
  import opened Bytes
  import opened Packets

  datatype Parsed = Parsed(frames: seq<Packet>, rest: bytes)

  /** One parse of a whole stream: its complete packets and the bytes of the unfinished one. */
  function Parse(s: bytes): Parsed
    decreases |s|
  {
    if !IsComplete(s) then Parsed([], s)
    else
      FrontIsExact(s);
      var tail := Parse(s[Front(s).TotalSize()..]);
      Parsed([Front(s)] + tail.frames, tail.rest)
  }

  function WireAll(ps: seq<Packet>): bytes {
    if ps == [] then [] else ps[0].Wire() + WireAll(ps[1..])
  }

  function Concat(chunks: seq<bytes>): bytes {
    if chunks == [] then [] else chunks[0] + Concat(chunks[1..])
  }

  /** The packets handed to a callback: both receivers drop those of type 0. */
  function NonZero(ps: seq<Packet>): seq<Packet> {
    if ps == [] then []
    else if ps[0].kind != 0 then [ps[0]] + NonZero(ps[1..])
    else NonZero(ps[1..])
  }

  lemma {:induction false} NonZeroAppend(a: seq<Packet>, b: seq<Packet>)
    ensures NonZero(a + b) == NonZero(a) + NonZero(b)
  {
    if a == [] {
      assert a + b == b;
    } else {
      assert (a + b)[1..] == a[1..] + b;
      NonZeroAppend(a[1..], b);
    }
  }

  lemma {:induction false} ConcatAppend(a: seq<bytes>, chunk: bytes)
    ensures Concat(a + [chunk]) == Concat(a) + chunk
  {
    if a == [] {
      assert a + [chunk] == [chunk];
      assert Concat([chunk][1..]) == [];
    } else {
      assert (a + [chunk])[1..] == a[1..] + [chunk];
      ConcatAppend(a[1..], chunk);
    }
  }

  lemma {:induction false} WireAllAppend(a: seq<Packet>, b: seq<Packet>)
    ensures WireAll(a + b) == WireAll(a) + WireAll(b)
  {
    if a == [] {
      assert a + b == b;
    } else {
      assert (a + b)[1..] == a[1..] + b;
      WireAllAppend(a[1..], b);
    }
  }

  lemma WireAllCons(p: Packet, ps: seq<Packet>)
    ensures WireAll([p] + ps) == p.Wire() + WireAll(ps)
  {
    assert ([p] + ps)[1..] == ps;
  }

  lemma Regroup(s: bytes, n: nat, middle: bytes, rest: bytes)
    requires n <= |s| && middle + rest == s[n..]
    ensures s[..n] + middle + rest == s
  {
    assert s[..n] + middle + rest == s[..n] + (middle + rest);
  }

  /** Parsing resumes from the leftover: cutting the stream anywhere changes nothing. */
  lemma {:induction false} ParseAppend(a: bytes, b: bytes)
    ensures Parse(a + b).frames == Parse(a).frames + Parse(Parse(a).rest + b).frames
    ensures Parse(a + b).rest == Parse(Parse(a).rest + b).rest
    decreases |a|
  {
    if IsComplete(a) {
      FrontIsExact(a);
      CompleteIsStable(a, b);
      var n := Front(a).TotalSize();
      assert (a + b)[n..] == a[n..] + b;
      ParseAppend(a[n..], b);
    }
  }

  /** Nothing is lost: the frames written out again, then the leftover, are the stream; no frame is left waiting. */
  lemma {:induction false} ParseIsLossless(s: bytes)
    ensures WireAll(Parse(s).frames) + Parse(s).rest == s
    ensures forall p :: p in Parse(s).frames ==> p.Received()
    ensures !IsComplete(Parse(s).rest)
    decreases |s|
  {
    if IsComplete(s) {
      FrontIsExact(s);
      var p := Front(s);
      var n := p.TotalSize();
      var tail := Parse(s[n..]);
      ParseIsLossless(s[n..]);
      WireAllCons(p, tail.frames);
      Regroup(s, n, WireAll(tail.frames), tail.rest);
    } else {
      assert WireAll([]) + s == s;
    }
  }

  /** Any way of reading the stream as frames and an unfinished rest is the way `Parse` reads it. */
  lemma {:induction false} ParseOfFrames(ps: seq<Packet>, rest: bytes)
    requires forall p :: p in ps ==> p.Received()
    requires !IsComplete(rest)
    ensures Parse(WireAll(ps) + rest) == Parsed(ps, rest)
  {
    if ps == [] {
      assert WireAll(ps) + rest == rest;
    } else {
      var after := WireAll(ps[1..]) + rest;
      var s := WireAll(ps) + rest;
      assert s == ps[0].Wire() + after;
      WireIsRead(ps[0], after);
      assert s[ps[0].TotalSize()..] == after;
      ParseOfFrames(ps[1..], rest);
      assert ps == [ps[0]] + ps[1..];
    }
  }

  /** The framing of a stream without reference to any parser. */
  ghost predicate IsFraming(s: bytes, ps: seq<Packet>, rest: bytes) {
    && WireAll(ps) + rest == s
    && (forall p :: p in ps ==> p.Received())
    && !IsComplete(rest)
  }

  /** Every stream, malformed lengths included, has exactly one framing, and `Parse` computes it. */
  lemma ParseIsTheFraming(s: bytes, ps: seq<Packet>, rest: bytes)
    ensures IsFraming(s, ps, rest) <==> Parse(s) == Parsed(ps, rest)
  {
    ParseIsLossless(s);
    if IsFraming(s, ps, rest) {
      ParseOfFrames(ps, rest);
    }
  }

  /** A receiver that has seen only part of a stream of packets has delivered a prefix of them. */
  lemma PartialStreamDeliversPrefix(ps: seq<Packet>, cut: nat)
    requires forall p :: p in ps ==> p.Received()
    requires cut <= |WireAll(ps)|
    ensures Parse(WireAll(ps)[..cut]).frames <= ps
  {
    var s := WireAll(ps);
    ParseOfFrames(ps, []);
    assert s + [] == s;
    assert s == s[..cut] + s[cut..];
    ParseAppend(s[..cut], s[cut..]);
  }

  /** The bytes `read` so far are exactly the frames `done`, each of them at least a header long. */
  ghost predicate IsRead(read: bytes, done: seq<Packet>) {
    WireAll(done) == read && 6 * |done| <= |read|
  }

  /** The parse of `s` is the frames `done` followed by the parse of `unread`. */
  ghost predicate GoesOn(s: bytes, done: seq<Packet>, unread: bytes) {
    Parse(s) == Parsed(done + Parse(unread).frames, Parse(unread).rest)
  }

  lemma ReadOne(read: bytes, done: seq<Packet>, unread: bytes, p: Packet)
    requires IsRead(read, done) && IsComplete(unread) && p == Front(unread)
    ensures p.TotalSize() <= |unread|
    ensures IsRead(read + unread[..p.TotalSize()], done + [p])
  {
    FrontIsExact(unread);
    WireAllSnoc(done, p);
  }

  lemma GoesOnOne(s: bytes, done: seq<Packet>, unread: bytes, p: Packet)
    requires GoesOn(s, done, unread) && IsComplete(unread) && p == Front(unread)
    ensures p.TotalSize() <= |unread|
    ensures GoesOn(s, done + [p], unread[p.TotalSize()..])
  {
    FrontIsExact(unread);
    Reassociate(done, p, Parse(unread[p.TotalSize()..]).frames);
  }

  /** One turn of the server's loop: the offset grows by at least a header and stays inside the buffer. */
  lemma Advance(s: bytes, offset: nat, done: seq<Packet>, p: Packet)
    requires offset <= |s| && IsRead(s[..offset], done) && GoesOn(s, done, s[offset..])
    requires IsComplete(s[offset..]) && p == Front(s[offset..])
    ensures offset + p.TotalSize() <= |s| && IsRead(s[..offset + p.TotalSize()], done + [p])
    ensures s[offset..][p.TotalSize()..] == s[offset + p.TotalSize()..]
    ensures GoesOn(s, done + [p], s[offset + p.TotalSize()..])
    ensures NonZero(done + [p]) == NonZero(done) + if p.kind != 0 then [p] else []
  {
    NonZeroSnoc(done, p);
    ReadOne(s[..offset], done, s[offset..], p);
    GoesOnOne(s, done, s[offset..], p);
    SliceTwice(s, offset, p.TotalSize());
  }

  lemma NonZeroSnoc(ps: seq<Packet>, p: Packet)
    ensures NonZero(ps + [p]) == NonZero(ps) + if p.kind != 0 then [p] else []
  {
    NonZeroAppend(ps, [p]);
    assert NonZero([p][1..]) == [];
  }

  lemma WireAllSnoc(ps: seq<Packet>, p: Packet)
    ensures WireAll(ps + [p]) == WireAll(ps) + p.Wire()
  {
    WireAllAppend(ps, [p]);
    assert WireAll([p][1..]) == [];
  }

  lemma SliceTwice(s: bytes, offset: nat, n: nat)
    requires offset + n <= |s|
    ensures s[offset..][n..] == s[offset + n..]
    ensures s[..offset + n] == s[..offset] + s[offset..][..n]
  {
  }

  lemma Reassociate<T>(a: seq<T>, x: T, b: seq<T>)
    ensures a + ([x] + b) == a + [x] + b
  {
  }

  /** The server's thread for one client, reading with an offset into its buffer. */
  class ClientHandler {
    var packetBuffer: bytes
    var active: bool
    /** Whether the connection manager still lists the client. */
    var registered: bool
    /** The packets given to the packet callback, oldest first. */
    var callbacks: seq<Packet>

    constructor ()
      ensures packetBuffer == [] && active && registered && callbacks == []
    {
      packetBuffer, active, registered, callbacks := [], true, true, [];
    }

    /** Gives a packet to the callback unless its type is 0. */
    method HandOver(packet: Packet)
      modifies this`callbacks
      ensures callbacks == old(callbacks) + if packet.kind != 0 then [packet] else []
    {
      if packet.kind != 0 {
        callbacks := callbacks + [packet];
      }
    }

    /** One successful `recv`: every packet that is now complete goes to the callback. */
    method Receive(chunk: bytes)
      modifies this`packetBuffer, this`callbacks
      ensures callbacks == old(callbacks) + NonZero(Parse(old(packetBuffer) + chunk).frames)
      ensures packetBuffer == Parse(old(packetBuffer) + chunk).rest
    {
      packetBuffer := packetBuffer + chunk;
      var offset := 0;
      ghost var buffer, unread, done := packetBuffer, packetBuffer, [];
      while offset < |packetBuffer|
        invariant packetBuffer == buffer
        invariant offset <= |buffer| && unread == buffer[offset..]
        invariant IsRead(buffer[..offset], done)
        invariant GoesOn(buffer, done, unread)
        invariant callbacks == old(callbacks) + NonZero(done)
      {
        if !IsComplete(packetBuffer[offset..]) {
          break;
        }
        var packet := Deserialize(packetBuffer[offset..]);
        HandOver(packet);
        Advance(buffer, offset, done, packet);
        unread, done := unread[packet.TotalSize()..], done + [packet];
        offset := offset + packet.TotalSize();
      }
      assert done + [] == done;
      if offset > 0 {
        packetBuffer := packetBuffer[offset..];
      }
    }

    /** The whole thread: read until the connection ends, take it off the list, then report one PLAYER_LEAVE. */
    method Run(chunks: seq<bytes>)
      requires packetBuffer == [] && callbacks == [] && registered && active
      modifies this
      ensures callbacks == NonZero(Parse(Concat(chunks)).frames) + [Make(PLAYER_LEAVE, [])]
      ensures packetBuffer == Parse(Concat(chunks)).rest
      ensures !active && !registered
    {
      var i := 0;
      assert Concat(chunks[..0]) == [];
      while i < |chunks|
        invariant 0 <= i <= |chunks|
        invariant callbacks == NonZero(Parse(Concat(chunks[..i])).frames)
        invariant packetBuffer == Parse(Concat(chunks[..i])).rest
      {
        ParseAppend(Concat(chunks[..i]), chunks[i]);
        NonZeroAppend(Parse(Concat(chunks[..i])).frames, Parse(packetBuffer + chunks[i]).frames);
        ConcatAppend(chunks[..i], chunks[i]);
        assert chunks[..i + 1] == chunks[..i] + [chunks[i]];
        Receive(chunks[i]);
        i := i + 1;
      }
      assert chunks[..i] == chunks;
      active := false;
      registered := false;
      callbacks := callbacks + [Make(PLAYER_LEAVE, [])];
    }
  }

  /** The client's receiver, which takes one packet off its buffer at a time. */
  class Client {
    var connected: bool
    var packetBuffer: bytes
    /** What the socket will still yield, chunk by chunk, before the connection ends. */
    var network: seq<bytes>
    /** The packets given to the packet callback, oldest first. */
    var callbacks: seq<Packet>

    ghost predicate Valid()
      reads this
    {
      forall i :: 0 <= i < |network| ==> network[i] != []
    }

    constructor (network: seq<bytes>)
      requires forall i :: 0 <= i < |network| ==> network[i] != []
      ensures Valid() && connected && packetBuffer == [] && this.network == network && callbacks == []
    {
      connected, packetBuffer, this.network, callbacks := true, [], network, [];
    }

    /** All bytes the client has not yet cut into packets. */
    ghost function Unread(): bytes
      reads this
    {
      packetBuffer + Concat(network)
    }

    /** `recv`: a nonempty chunk, or nothing once the connection has ended. It is never called while a packet waits. */
    method Recv() returns (chunk: bytes)
      requires Valid() && !IsComplete(packetBuffer)
      modifies this`network
      ensures Valid()
      ensures if old(network) == [] then chunk == [] && network == []
              else chunk == old(network)[0] && network == old(network)[1..]
    {
      if network == [] {
        chunk := [];
      } else {
        chunk := network[0];
        network := network[1..];
      }
    }

    /** Takes the complete packet off the front of the buffer. */
    method TakePacket() returns (ok: bool, packet: Packet)
      requires IsComplete(packetBuffer)
      modifies this`packetBuffer
      ensures IsComplete(old(Unread())) && packet == Front(old(Unread())) && ok == (packet.kind != 0)
      ensures packet.TotalSize() <= |old(Unread())| && Unread() == old(Unread())[packet.TotalSize()..]
    {
      CompleteIsStable(packetBuffer, Concat(network));
      FrontIsExact(packetBuffer);
      packet := Deserialize(packetBuffer);
      DropInFront(packetBuffer, Concat(network), packet.TotalSize());
      packetBuffer := packetBuffer[packet.TotalSize()..];
      ok := packet.kind != 0;
    }

    static lemma DropInFront(buffer: bytes, more: bytes, n: nat)
      requires n <= |buffer|
      ensures (buffer + more)[n..] == buffer[n..] + more
    {
    }

    /** Blocks for the next packet: the first one of everything unread, or false at the end of the connection. */
    method ReceivePacket() returns (ok: bool, packet: Packet)
      requires Valid()
      modifies this`connected, this`packetBuffer, this`network
      ensures Valid()
      ensures !old(connected) ==> !ok && !connected && Unread() == old(Unread())
      ensures old(connected) && IsComplete(old(Unread())) ==>
                && connected && packet == Front(old(Unread())) && ok == (packet.kind != 0)
                && packet.TotalSize() <= |old(Unread())| && Unread() == old(Unread())[packet.TotalSize()..]
      ensures old(connected) && !IsComplete(old(Unread())) ==>
                !ok && !connected && network == [] && Unread() == old(Unread())
    {
      ok, packet := false, Packet(0, 0, []);
      if !connected {
        return;
      }
      ghost var unread := Unread();
      while connected
        invariant Valid() && Unread() == unread && connected
        decreases |network|
      {
        if packetBuffer != [] && IsComplete(packetBuffer) {
          ok, packet := TakePacket();
          return;
        }
        var chunk := Recv();
        if |chunk| > 0 {
          packetBuffer := packetBuffer + chunk;
          assert Unread() == unread;
          if IsComplete(packetBuffer) {
            ok, packet := TakePacket();
            return;
          }
        } else {
          assert unread == packetBuffer + [] == packetBuffer;
          connected := false;
          return;
        }
      }
    }

    /** The next buffered packet, without touching the socket. */
    method TryReceivePacket() returns (ok: bool, packet: Packet)
      requires Valid()
      modifies this`packetBuffer
      ensures Valid()
      ensures !old(connected) || !IsComplete(old(packetBuffer)) ==> !ok && packetBuffer == old(packetBuffer)
      ensures old(connected) && IsComplete(old(packetBuffer)) ==>
                && IsComplete(old(Unread())) && packet == Front(old(Unread())) && ok == (packet.kind != 0)
                && packet.TotalSize() <= |old(Unread())| && Unread() == old(Unread())[packet.TotalSize()..]
    {
      ok, packet := false, Packet(0, 0, []);
      if connected && packetBuffer != [] && IsComplete(packetBuffer) {
        ok, packet := TakePacket();
      }
    }

    /** The receiving thread until the connection ends. */
    method ReceivingThread()
      requires Valid() && connected
      modifies this
      ensures callbacks == old(callbacks) + NonZero(Parse(old(Unread())).frames)
      ensures packetBuffer == Parse(old(Unread())).rest
      ensures !connected && network == []
    {
      ghost var all, done := Parse(Unread()), [];
      while connected
        invariant Valid()
        invariant callbacks == old(callbacks) + NonZero(done)
        invariant all == Parsed(done + Parse(Unread()).frames, Parse(Unread()).rest)
        invariant !connected ==> network == [] && !IsComplete(Unread())
        decreases connected, |Unread()|
      {
        var ok, packet := ReceivePacket();
        if connected {
          NonZeroSnoc(done, packet);
          Reassociate(done, packet, Parse(Unread()).frames);
          done := done + [packet];
        }
        if ok {
          callbacks := callbacks + [packet];
        }
      }
      assert Unread() == packetBuffer + [] == packetBuffer;
      assert all.frames == done + [] == done;
    }
  }

  /** The same bytes, cut up differently on the way to a server handler and to a client, are the same packets. */
  method ReceiversAgree(toServer: seq<bytes>, toClient: seq<bytes>) returns (server: seq<Packet>, client: seq<Packet>)
    requires Concat(toServer) == Concat(toClient)
    requires forall i :: 0 <= i < |toClient| ==> toClient[i] != []
    ensures client == NonZero(Parse(Concat(toClient)).frames)
    ensures server == client + [Make(PLAYER_LEAVE, [])]
  {
    var h := new ClientHandler();
    h.Run(toServer);
    server := h.callbacks;
    var c := new Client(toClient);
    assert [] + Concat(toClient) == Concat(toClient);
    c.ReceivingThread();
    client := c.callbacks;
  }
}
