/** The packet header and its byte layout: 4 bytes of total length, 2 bytes of type, then the data. */
module Packets {
  import opened Bytes
  import Seqs

  const HEADER_SIZE: nat := 6

  const PLAYER_JOIN: u16 := 10
  const PLAYER_LEAVE: u16 := 13
  const GAME_STATE_UPDATE: u16 := 14
  const PLAYER_JOINED: u16 := 15
  const CHAT_MESSAGE: u16 := 16
  const CHAT_BROADCAST: u16 := 17
  const ROLE_ASSIGNMENT: u16 := 19
  const VOTE_COMMAND: u16 := 21
  const VOTE_RESULT: u16 := 22

  /** The header keeps the length that was read, which a malformed sender may have got wrong. */
  datatype Packet = Packet(length: u32, kind: u16, data: bytes) {

    /** The number of bytes the receivers step over, whatever the header claims. */
    function TotalSize(): nat {
      HEADER_SIZE + |data|
    }

    function Wire(): bytes {
      U32(length) + U16(kind) + data
    }

    /** The packets a receiver can make of a complete buffer: an honest length, or one too short for a header. */
    predicate Received() {
      length == TotalSize() || (length < HEADER_SIZE && data == [])
    }
  }

  /** The `Packet(type, data)` constructor, with `updateHeader` cutting the length to 32 bits. */
  function Make(kind: u16, data: bytes): Packet {
    Packet(Low32(HEADER_SIZE + |data|), kind, data)
  }

  predicate IsComplete(s: bytes) {
    |s| >= HEADER_SIZE && At32(s, 0) <= |s|
  }

  /** The packet at the front of `s`, the empty packet when there is not even a header. */
  function Front(s: bytes): Packet {
    if |s| < HEADER_SIZE then Packet(0, 0, [])
    else if At32(s, 0) < HEADER_SIZE || At32(s, 0) > |s| then Packet(At32(s, 0), At16(s, 4), [])
    else Packet(At32(s, 0), At16(s, 4), s[HEADER_SIZE..At32(s, 0)])
  }

  method Serialize(p: Packet) returns (buffer: bytes)
    ensures buffer == p.Wire()
  {
    buffer := [];
    buffer := buffer + U32(p.length);
    buffer := buffer + U16(p.kind);
    buffer := buffer + p.data;
  }

  method Deserialize(s: bytes) returns (packet: Packet)
    ensures packet == Front(s)
  {
    packet := Packet(0, 0, []);
    if |s| >= HEADER_SIZE {
      packet := packet.(length := At32(s, 0), kind := At16(s, 4));
      if HEADER_SIZE <= packet.length <= |s| {
        var dataSize := packet.length - HEADER_SIZE;
        packet := packet.(data := s[HEADER_SIZE..HEADER_SIZE + dataSize]);
      }
    }
  }

  /** What is taken off a complete buffer is exactly its first bytes: nothing is altered or skipped. */
  lemma FrontIsExact(s: bytes)
    requires IsComplete(s)
    ensures Front(s).TotalSize() <= |s|
    ensures Front(s).Received()
    ensures Front(s).Wire() == s[..Front(s).TotalSize()]
  {
    U32Rewrite(s, 0);
    U16Rewrite(s, 4);
    var n := Front(s).TotalSize();
    assert s[..n] == s[0..4] + s[4..6] + s[6..n];
  }

  /** A packet followed by anything is complete and is read back, malformed length or not. */
  lemma WireIsRead(p: Packet, after: bytes)
    requires p.Received()
    ensures IsComplete(p.Wire() + after)
    ensures Front(p.Wire() + after) == p
  {
    var s := p.Wire() + after;
    assert s == [] + U32(p.length) + (U16(p.kind) + p.data + after);
    U32RoundTrip([], p.length, U16(p.kind) + p.data + after);
    assert s == U32(p.length) + U16(p.kind) + (p.data + after);
    U16RoundTrip(U32(p.length), p.kind, p.data + after);
    if p.length >= HEADER_SIZE {
      assert s[HEADER_SIZE..p.length] == p.data;
    }
  }

  /** More bytes arriving never change the packet that was already complete. */
  lemma CompleteIsStable(s: bytes, more: bytes)
    requires IsComplete(s)
    ensures IsComplete(s + more)
    ensures Front(s + more) == Front(s)
  {
    FrontIsExact(s);
    var p := Front(s);
    assert s + more == p.Wire() + (s[p.TotalSize()..] + more);
    WireIsRead(p, s[p.TotalSize()..] + more);
  }

  /** A packet on the wire, byte by byte: the length of the whole, the type, the data. */
  lemma WireByteByByte(kind: u16, data: bytes)
    requires 6 + |data| < 0x1_0000_0000
    ensures var n, wire := 6 + |data|, Make(kind, data).Wire();
      && wire[..6] == [n / 0x100_0000, n / 0x1_0000 % 0x100, n / 0x100 % 0x100, n % 0x100, kind / 0x100, kind % 0x100]
      && wire[6..] == data
  {
    U32IsBigEndian(6 + |data|);
    U16IsBigEndian(kind);
    Seqs.Split(U32(6 + |data|) + U16(kind), data);
  }
}
