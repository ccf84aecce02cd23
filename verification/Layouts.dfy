/** Where each field of a message stands, as byte offsets, and which numbers name types and roles. */
module Layouts {
  import opened Bytes
  import opened Packets
  import opened Messages
  import opened Votes
  import opened Codec
  import Seqs

  /** The bytes `t` stand at offset `i`. */
  predicate HasAt(d: bytes, i: nat, t: bytes) {
    i + |t| <= |d| && d[i..i + |t|] == t
  }

  /** The 32-bit number `n` stands at offset `i`, most significant byte first. */
  predicate Has32(d: bytes, i: nat, n: int) {
    0 <= n < 0x1_0000_0000 && HasAt(d, i, [n / 0x100_0000, n / 0x1_0000 % 0x100, n / 0x100 % 0x100, n % 0x100])
  }

  lemma FieldAt(d: bytes, before: bytes, x: u32, after: bytes)
    requires d == before + U32(x) + after
    ensures Has32(d, |before|, x)
  {
    U32IsBigEndian(x);
    Seqs.Split(before + U32(x), after);
    Seqs.Split(before, U32(x));
    assert d[|before|..|before| + 4] == U32(x);
  }

  lemma TextAt(d: bytes, before: bytes, t: bytes, after: bytes)
    requires |t| < 0x1_0000_0000 && d == before + Text(t) + after
    ensures Has32(d, |before|, |t|) && HasAt(d, |before| + 4, t)
  {
    Seqs.Assoc(before, U32(|t|), t);
    Seqs.Assoc(before + U32(|t|), t, after);
    FieldAt(d, before, |t|, t + after);
    assert d[|before| + 4..|before| + 4 + |t|] == t;
  }

  predicate HasText(d: bytes, i: nat, t: bytes) {
    Has32(d, i, |t|) && HasAt(d, i + 4, t)
  }

  /** The number of a role on the wire. */
  predicate HasRole(d: bytes, i: nat, role: Role) {
    match role
    case NoRole => HasAt(d, i, [0, 0, 0, 0])
    case Liar => HasAt(d, i, [0, 0, 0, 1])
    case Guesser => HasAt(d, i, [0, 0, 0, 2])
    case Unnamed(code) => Has32(d, i, code)
  }

  /** Two's complement for a negative score. */
  function Unsigned(n: int): int {
    if n < 0 then n + 0x1_0000_0000 else n
  }

  lemma PlayerLayout(s: PlayerState)
    requires |s.username| < 0x1_0000_0000 && IsInt32(s.score)
    ensures var d := PlayerBytes(s);
      && |d| == 16 + |s.username|
      && Has32(d, 0, s.id) && HasRole(d, 4, s.role) && Has32(d, 8, Unsigned(s.score)) && HasText(d, 12, s.username)
  {
    var d, a, b, c, t := PlayerBytes(s), U32(s.id), U32(RoleCode(s.role)), U32(Low32(s.score)), Text(s.username);
    FourParts(d, a, b, c, t);
    FieldAt(d, [], s.id, b + c + t);
    FieldAt(d, a, RoleCode(s.role), c + t);
    LowOfScore(s.score);
    FieldAt(d, a + b, Low32(s.score), t);
    TextAt(d, a + b + c, s.username, []);
  }

  lemma LowOfScore(n: int)
    requires IsInt32(n)
    ensures Low32(n) == Unsigned(n)
  {
  }

  lemma FourParts(d: bytes, a: bytes, b: bytes, c: bytes, t: bytes)
    requires d == a + b + c + t
    ensures d == [] + a + (b + c + t) && d == a + b + (c + t) && d == a + b + c + t + []
  {
  }

  lemma ChatLayout(m: ChatMessage)
    requires |m.username| < 0x1_0000_0000 && |m.text| < 0x1_0000_0000
    ensures var d := ChatBytes(m);
      && |d| == 12 + |m.username| + |m.text|
      && Has32(d, 0, m.senderId) && HasText(d, 4, m.username) && HasText(d, 8 + |m.username|, m.text)
  {
    var d, a, b, c := ChatBytes(m), U32(m.senderId), Text(m.username), Text(m.text);
    FourParts(d, a, b, c, []);
    FieldAt(d, [], m.senderId, b + c + []);
    TextAt(d, a, m.username, c + []);
    TextAt(d, a + b, m.text, []);
  }

  lemma AssignmentLayout(r: RoleAssignment)
    requires |r.topic| < 0x1_0000_0000 && |r.secretWord| < 0x1_0000_0000
    ensures var d := AssignmentBytes(r);
      && |d| == 16 + |r.topic| + |r.secretWord|
      && Has32(d, 0, r.playerId) && HasRole(d, 4, r.role)
      && HasText(d, 8, r.topic) && HasText(d, 12 + |r.topic|, r.secretWord)
  {
    var d, a, b, c, t := AssignmentBytes(r), U32(r.playerId), U32(RoleCode(r.role)), Text(r.topic), Text(r.secretWord);
    FourParts(d, a, b, c, t);
    FieldAt(d, [], r.playerId, b + c + t);
    FieldAt(d, a, RoleCode(r.role), c + t);
    TextAt(d, a + b, r.topic, t);
    TextAt(d, a + b + c, r.secretWord, []);
  }

  lemma VoteLayout(v: VoteCommand)
    ensures var d := VoteBytes(v);
      |d| == 8 && Has32(d, 0, v.voterId) && Has32(d, 4, v.targetId)
  {
    var d, a, b := VoteBytes(v), U32(v.voterId), U32(v.targetId);
    FourParts(d, a, b, [], []);
    FieldAt(d, [], v.voterId, b + [] + []);
    FieldAt(d, a, v.targetId, [] + []);
  }

  lemma {:induction false} PairsLayout(tally: map<u32, nat>, walk: seq<u32>, d: bytes, before: bytes, after: bytes)
    requires forall t :: t in walk ==> t in tally && tally[t] < 0x1_0000_0000
    requires d == before + PairsBytes(tally, walk) + after
    ensures forall i :: 0 <= i < |walk| ==> PairAt(d, |before|, tally, walk, i)
    decreases |walk|
  {
    if walk != [] {
      var t := walk[0];
      var a, b, more := U32(t), U32(tally[t]), PairsBytes(tally, walk[1..]);
      PairParts(d, before, a, b, more, after);
      FieldAt(d, before, t, b + (more + after));
      FieldAt(d, before + a, tally[t], more + after);
      PairsLayout(tally, walk[1..], d, before + a + b, after);
      forall i | 0 <= i < |walk|
        ensures PairAt(d, |before|, tally, walk, i)
      {
        if i > 0 {
          assert PairAt(d, |before + a + b|, tally, walk[1..], i - 1);
        }
      }
    }
  }

  /** The i-th pair of the walk: the target and the number of its votes. */
  predicate PairAt(d: bytes, at: nat, tally: map<u32, nat>, walk: seq<u32>, i: nat)
    requires i < |walk| && walk[i] in tally
  {
    Has32(d, at + 8 * i, walk[i]) && Has32(d, at + 8 * i + 4, tally[walk[i]])
  }

  lemma PairParts(d: bytes, before: bytes, a: bytes, b: bytes, more: bytes, after: bytes)
    requires d == before + (a + b + more) + after
    ensures d == before + a + (b + (more + after))
    ensures d == before + a + b + (more + after)
    ensures d == before + a + b + more + after
  {
  }

  /** The flag for a caught liar. */
  predicate HasFlag(d: bytes, i: nat, caught: bool) {
    HasAt(d, i, if caught then [0, 0, 0, 1] else [0, 0, 0, 0])
  }

  lemma FlagAt(d: bytes, i: nat, caught: bool)
    requires Has32(d, i, if caught then 1 else 0)
    ensures HasFlag(d, i, caught)
  {
  }

  lemma ResultLayout(r: VoteResult, walk: seq<u32>)
    requires IsWalk(walk, r.tally.Keys) && |r.tally| < 0x1_0000_0000
    requires forall t :: t in r.tally ==> r.tally[t] < 0x1_0000_0000
    ensures var d, n := ResultBytes(r, walk), |r.tally|;
      && |d| == 12 + 8 * n && Has32(d, 0, n)
      && (forall i :: 0 <= i < |walk| ==> PairAt(d, 4, r.tally, walk, i))
      && Has32(d, 4 + 8 * n, r.winnerId) && HasFlag(d, 8 + 8 * n, r.liarCaught)
  {
    WalkLength(walk, r.tally.Keys);
    PairsLength(r.tally, walk);
    var flag: u32 := if r.liarCaught then 1 else 0;
    ResultParts(ResultBytes(r, walk), |r.tally|, r.tally, walk, r.winnerId, flag);
    FlagAt(ResultBytes(r, walk), 8 + 8 * |r.tally|, r.liarCaught);
  }

  lemma ResultParts(d: bytes, n: u32, tally: map<u32, nat>, walk: seq<u32>, winner: u32, flag: u32)
    requires forall t :: t in walk ==> t in tally && tally[t] < 0x1_0000_0000
    requires d == U32(n) + PairsBytes(tally, walk) + U32(winner) + U32(flag)
    ensures Has32(d, 0, n)
    ensures forall i :: 0 <= i < |walk| ==> PairAt(d, 4, tally, walk, i)
    ensures Has32(d, 4 + |PairsBytes(tally, walk)|, winner)
    ensures Has32(d, 8 + |PairsBytes(tally, walk)|, flag)
  {
    var a, b, c, t := U32(n), PairsBytes(tally, walk), U32(winner), U32(flag);
    FourParts(d, a, b, c, t);
    Seqs.Assoc(a + b, c, t);
    FieldAt(d, [], n, b + c + t);
    PairsLayout(tally, walk, d, a, c + t);
    FieldAt(d, a + b, winner, t);
    FieldAt(d, a + b + c, flag, []);
  }

  /** The type numbers of the packets the server sends and the client reads. */
  lemma TypeNumbers(m: Msg, p: Packet)
    requires Encodes(m, p)
    ensures match m
      case StateUpdate(_) => p.kind == 14
      case Joined(_) => p.kind == 15
      case Left(_) => p.kind == 13
      case Chat(_) => p.kind == 17
      case Assign(_) => p.kind == 19
      case Vote(_) => p.kind == 21
      case Result(_) => p.kind == 22
  {
  }

  /** A game state update: the number of players, then the players one after the other. */
  lemma UpdateLayout(ss: seq<PlayerState>, s: PlayerState)
    requires |ss| + 1 < 0x1_0000_0000
    ensures UpdateBytes([]) == [0, 0, 0, 0]
    ensures Has32(UpdateBytes(ss), 0, |ss|)
    ensures UpdateBytes(ss + [s])[4..] == UpdateBytes(ss)[4..] + PlayerBytes(s)
  {
    U32IsBigEndian(0);
    Seqs.Empty(U32(0));
    FieldAt(UpdateBytes(ss), [], |ss|, PlayersBytes(ss));
    PlayersBytesSnoc(ss, s);
    Seqs.Split(U32(|ss|), PlayersBytes(ss));
    Seqs.Split(U32(|ss| + 1), PlayersBytes(ss + [s]));
  }
}
