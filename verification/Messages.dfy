/** The values the game puts into packets, and the byte layout of each: 32-bit fields and length-prefixed text. */
module Messages {
  import opened Bytes
  import Seqs

  /** `PlayerRole`; a decoder may also meet a number that names no role. */
  datatype Role = NoRole | Liar | Guesser | Unnamed(code: u32)

  datatype PlayerState = PlayerState(id: u32, username: bytes, role: Role, score: int)
  datatype ChatMessage = ChatMessage(senderId: u32, username: bytes, text: bytes)
  datatype RoleAssignment = RoleAssignment(playerId: u32, role: Role, topic: bytes, secretWord: bytes)
  datatype VoteCommand = VoteCommand(voterId: u32, targetId: u32)
  datatype VoteResult = VoteResult(tally: map<u32, nat>, winnerId: u32, liarCaught: bool)

  const NOBODY := PlayerState(0, [], NoRole, 0)

  function RoleCode(role: Role): u32 {
    match role
    case NoRole => 0
    case Liar => 1
    case Guesser => 2
    case Unnamed(code) => code
  }

  function RoleOf(code: u32): Role {
    if code == 0 then NoRole else if code == 1 then Liar else if code == 2 then Guesser else Unnamed(code)
  }

  /** `static_cast<int>` of an unsigned number. */
  function Signed(x: u32): int {
    if x < 0x8000_0000 then x else x - 0x1_0000_0000
  }

  predicate IsInt32(n: int) {
    -0x8000_0000 <= n < 0x8000_0000
  }

  /** A 32-bit field in front of anything. */
  lemma LeadingField(x: u32, after: bytes)
    ensures |U32(x) + after| == 4 + |after| && At32(U32(x) + after, 0) == x && (U32(x) + after)[4..] == after
  {
    Seqs.Empty(U32(x));
    U32RoundTrip([], x, after);
    Seqs.Split(U32(x), after);
  }

  lemma CutBehindField(d: bytes, x: u32, after: bytes, n: nat)
    requires 4 <= n <= 4 + |after| && d == (U32(x) + after)[..n]
    ensures At32(d, 0) == x && d[4..] == after[..n - 4]
  {
    Seqs.TakeOfAppend(U32(x), after, n);
    LeadingField(x, after[..n - 4]);
  }

  lemma TwoLeadingFields(x: u32, y: u32, after: bytes)
    ensures var d := U32(x) + U32(y) + after;
      |d| == 8 + |after| && At32(d, 0) == x && At32(d, 4) == y && d[8..] == after
  {
    Seqs.Assoc(U32(x), U32(y), after);
    LeadingField(x, U32(y) + after);
    U32RoundTrip(U32(x), y, after);
    Seqs.Split(U32(x) + U32(y), after);
  }

  // --------------------------------------------------------------- text ----

  function Text(t: bytes): bytes {
    U32(Low32(|t|)) + t
  }

  /** The text whose length stands at `at`, and the position after it; a length of 0 or past the end reads as empty. */
  function ReadText(d: bytes, at: nat): (r: (bytes, nat))
    requires at + 4 <= |d|
    ensures r.1 == at + 4 + |r.0| <= |d|
  {
    var n := At32(d, at);
    if 0 < n && at + 4 + n <= |d| then (d[at + 4..at + 4 + n], at + 4 + n) else ([], at + 4)
  }

  lemma TextRoundTrip(before: bytes, t: bytes, after: bytes)
    requires |t| < 0x1_0000_0000
    ensures ReadText(before + Text(t) + after, |before|) == (t, |before| + 4 + |t|)
  {
    var d := before + Text(t) + after;
    assert d == before + U32(|t|) + (t + after);
    U32RoundTrip(before, |t|, t + after);
    assert d[|before| + 4..|before| + 4 + |t|] == t;
  }

  // ------------------------------------------------------- player state ----

  function PlayerBytes(s: PlayerState): bytes {
    U32(s.id) + U32(RoleCode(s.role)) + U32(Low32(s.score)) + Text(s.username)
  }

  function ReadPlayer(d: bytes): PlayerState {
    if |d| < 16 then NOBODY
    else PlayerState(At32(d, 0), ReadText(d, 12).0, RoleOf(At32(d, 4)), Signed(At32(d, 8)))
  }

  /** What survives the 32-bit fields. */
  predicate FitsPlayer(s: PlayerState) {
    && |s.username| < 0x1_0000_0000
    && IsInt32(s.score)
    && RoleOf(RoleCode(s.role)) == s.role
  }

  predicate AllFit(ss: seq<PlayerState>) {
    forall i :: 0 <= i < |ss| ==> FitsPlayer(ss[i])
  }

  lemma TailFits(ss: seq<PlayerState>)
    requires ss != [] && AllFit(ss)
    ensures FitsPlayer(ss[0]) && AllFit(ss[1..])
  {
  }

  lemma PlayerFields(s: PlayerState, after: bytes)
    requires |s.username| < 0x1_0000_0000
    ensures var d := PlayerBytes(s) + after;
      && |PlayerBytes(s)| == 16 + |s.username|
      && At32(d, 0) == s.id && At32(d, 4) == RoleCode(s.role) && At32(d, 8) == Low32(s.score)
      && At32(d, 12) == |s.username| && ReadText(d, 12).0 == s.username
  {
    var a, b, c := U32(s.id), U32(RoleCode(s.role)), U32(Low32(s.score));
    var d := PlayerBytes(s) + after;
    assert d == [] + a + (b + c + Text(s.username) + after);
    U32RoundTrip([], s.id, b + c + Text(s.username) + after);
    assert d == a + b + (c + Text(s.username) + after);
    U32RoundTrip(a, RoleCode(s.role), c + Text(s.username) + after);
    assert d == (a + b) + c + (Text(s.username) + after);
    U32RoundTrip(a + b, Low32(s.score), Text(s.username) + after);
    assert d == (a + b + c) + U32(|s.username|) + (s.username + after);
    U32RoundTrip(a + b + c, |s.username|, s.username + after);
    assert d == (a + b + c) + Text(s.username) + after;
    TextRoundTrip(a + b + c, s.username, after);
  }

  lemma PlayerRoundTrip(s: PlayerState)
    requires FitsPlayer(s)
    ensures ReadPlayer(PlayerBytes(s)) == s
  {
    PlayerFields(s, []);
    Seqs.Empty(PlayerBytes(s));
    SignedRoundTrip(s.score);
  }

  lemma SignedRoundTrip(n: int)
    requires IsInt32(n)
    ensures Signed(Low32(n)) == n
  {
  }

  // -------------------------------------------------- game state update ----

  function PlayersBytes(ss: seq<PlayerState>): bytes {
    if ss == [] then [] else PlayerBytes(ss[0]) + PlayersBytes(ss[1..])
  }

  function UpdateBytes(ss: seq<PlayerState>): bytes {
    U32(Low32(|ss|)) + PlayersBytes(ss)
  }

  /** Up to `count` players, stopping at the first that is not wholly there. */
  function ReadPlayers(d: bytes, count: nat): seq<PlayerState> {
    if count == 0 || |d| < 16 || |d| < 16 + At32(d, 12) then []
    else [ReadPlayer(d[..16 + At32(d, 12)])] + ReadPlayers(d[16 + At32(d, 12)..], count - 1)
  }

  function ReadUpdate(d: bytes): seq<PlayerState> {
    if |d| < 4 then [] else ReadPlayers(d[4..], At32(d, 0))
  }

  lemma {:induction false} PlayersBytesSnoc(ss: seq<PlayerState>, s: PlayerState)
    ensures PlayersBytes(ss + [s]) == PlayersBytes(ss) + PlayerBytes(s)
  {
    if ss == [] {
      Seqs.Empty([s]);
    } else {
      Seqs.TailOfAppend(ss, [s]);
      PlayersBytesSnoc(ss[1..], s);
    }
  }

  /** How many of the players fit completely into `n` bytes. */
  function Fitting(ss: seq<PlayerState>, n: nat): (k: nat)
    ensures k <= |ss|
  {
    if ss == [] || n < |PlayerBytes(ss[0])| then 0 else 1 + Fitting(ss[1..], n - |PlayerBytes(ss[0])|)
  }

  /** `Fitting` is the length of the longest prefix whose encoding is no longer than `n`. */
  lemma {:induction false} FittingIsLongest(ss: seq<PlayerState>, n: nat, k: nat)
    requires k <= |ss|
    ensures k <= Fitting(ss, n) <==> |PlayersBytes(ss[..k])| <= n
    decreases |ss|
  {
    if k > 0 {
      Seqs.DropOfTake(ss, k);
      if n >= |PlayerBytes(ss[0])| {
        FittingIsLongest(ss[1..], n - |PlayerBytes(ss[0])|, k - 1);
      }
    }
  }

  /** The first player's bytes are wholly there: it is read, and reading goes on behind it. */
  lemma ReadOnePlayer(d: bytes, s: PlayerState, more: bytes, count: nat)
    requires FitsPlayer(s) && count > 0 && d == PlayerBytes(s) + more
    ensures ReadPlayers(d, count) == [s] + ReadPlayers(more, count - 1)
  {
    PlayerFields(s, more);
    PlayerRoundTrip(s);
    Seqs.Split(PlayerBytes(s), more);
  }

  /** The first player's bytes are cut short: nothing is read. */
  lemma ReadPartialPlayer(d: bytes, s: PlayerState, n: nat, count: nat)
    requires FitsPlayer(s) && n < |PlayerBytes(s)| && d == PlayerBytes(s)[..n]
    ensures ReadPlayers(d, count) == []
  {
    PlayerFields(s, []);
    Seqs.Empty(PlayerBytes(s));
    if n >= 16 {
      assert d[12..16] == PlayerBytes(s)[12..16];
    }
  }

  /** A list of players cut after `n` bytes is read as the players that fit, and no more. */
  lemma {:induction false} ReadCutPlayers(d: bytes, ss: seq<PlayerState>, n: nat)
    requires AllFit(ss)
    requires n <= |PlayersBytes(ss)| && d == PlayersBytes(ss)[..n]
    ensures ReadPlayers(d, |ss|) == ss[..Fitting(ss, n)]
    decreases |ss|
  {
    if ss != [] {
      var first, others := PlayerBytes(ss[0]), PlayersBytes(ss[1..]);
      TailFits(ss);
      Seqs.TakeOfAppend(first, others, n);
      if n < |first| {
        ReadPartialPlayer(d, ss[0], n, |ss|);
      } else {
        var more := others[..n - |first|];
        ReadOnePlayer(d, ss[0], more, |ss|);
        ReadCutPlayers(more, ss[1..], n - |first|);
        Seqs.TakeFirst(ss, Fitting(ss, n));
      }
    }
  }

  /** A game state update cut anywhere after its count is read as the longest list prefix that fits completely. */
  lemma CutUpdateIsReadAsPrefix(ss: seq<PlayerState>, n: nat, k: nat)
    requires |ss| < 0x1_0000_0000 && AllFit(ss)
    requires 4 <= n <= |UpdateBytes(ss)| && k <= |ss|
    requires |UpdateBytes(ss[..k])| <= n && (k < |ss| ==> n < |UpdateBytes(ss[..k + 1])|)
    ensures ReadUpdate(UpdateBytes(ss)[..n]) == ss[..k]
  {
    FittingIsLongest(ss, n - 4, k);
    if k < |ss| {
      FittingIsLongest(ss, n - 4, k + 1);
    }
    ReadCutUpdate(UpdateBytes(ss)[..n], ss, n);
  }

  lemma ReadCutUpdate(d: bytes, ss: seq<PlayerState>, n: nat)
    requires |ss| < 0x1_0000_0000 && AllFit(ss)
    requires 4 <= n <= |UpdateBytes(ss)| && d == UpdateBytes(ss)[..n]
    ensures ReadUpdate(d) == ss[..Fitting(ss, n - 4)]
  {
    assert Low32(|ss|) == |ss|;
    CutBehindField(d, Low32(|ss|), PlayersBytes(ss), n);
    ReadCutPlayers(d[4..], ss, n - 4);
  }

  lemma UpdateRoundTrip(ss: seq<PlayerState>)
    requires |ss| < 0x1_0000_0000 && AllFit(ss)
    ensures ReadUpdate(UpdateBytes(ss)) == ss
  {
    var n := |UpdateBytes(ss)|;
    Seqs.Empty(ss);
    Seqs.Empty(UpdateBytes(ss));
    FittingIsLongest(ss, n - 4, |ss|);
    ReadCutUpdate(UpdateBytes(ss), ss, n);
  }

  // --------------------------------------------------------------- chat ----

  function ChatBytes(m: ChatMessage): bytes {
    U32(m.senderId) + Text(m.username) + Text(m.text)
  }

  function ReadChat(d: bytes): ChatMessage {
    if |d| < 12 then ChatMessage(0, [], [])
    else
      var (username, at) := ReadText(d, 4);
      ChatMessage(At32(d, 0), username, if at + 4 > |d| then [] else ReadText(d, at).0)
  }

  lemma ChatRoundTrip(m: ChatMessage)
    requires |m.username| < 0x1_0000_0000 && |m.text| < 0x1_0000_0000
    ensures ReadChat(ChatBytes(m)) == m
  {
    var d, a := ChatBytes(m), U32(m.senderId);
    assert d == [] + a + (Text(m.username) + Text(m.text));
    U32RoundTrip([], m.senderId, Text(m.username) + Text(m.text));
    TextRoundTrip(a, m.username, Text(m.text));
    assert d == (a + Text(m.username)) + Text(m.text) + [];
    TextRoundTrip(a + Text(m.username), m.text, []);
  }

  // ---------------------------------------------------- role assignment ----

  function AssignmentBytes(a: RoleAssignment): bytes {
    U32(a.playerId) + U32(RoleCode(a.role)) + Text(a.topic) + Text(a.secretWord)
  }

  function ReadAssignment(d: bytes): RoleAssignment {
    if |d| < 12 then RoleAssignment(0, NoRole, [], [])
    else
      var (topic, at) := ReadText(d, 8);
      RoleAssignment(At32(d, 0), RoleOf(At32(d, 4)), topic, if at + 4 > |d| then [] else ReadText(d, at).0)
  }

  lemma AssignmentRoundTrip(r: RoleAssignment)
    requires RoleOf(RoleCode(r.role)) == r.role
    requires |r.topic| < 0x1_0000_0000 && |r.secretWord| < 0x1_0000_0000
    ensures ReadAssignment(AssignmentBytes(r)) == r
  {
    var d, a, b := AssignmentBytes(r), U32(r.playerId), U32(RoleCode(r.role));
    assert d == [] + a + (b + Text(r.topic) + Text(r.secretWord));
    U32RoundTrip([], r.playerId, b + Text(r.topic) + Text(r.secretWord));
    assert d == a + b + (Text(r.topic) + Text(r.secretWord));
    U32RoundTrip(a, RoleCode(r.role), Text(r.topic) + Text(r.secretWord));
    TextRoundTrip(a + b, r.topic, Text(r.secretWord));
    assert d == (a + b + Text(r.topic)) + Text(r.secretWord) + [];
    TextRoundTrip(a + b + Text(r.topic), r.secretWord, []);
  }

  // -------------------------------------------------------------- votes ----

  function VoteBytes(v: VoteCommand): bytes {
    U32(v.voterId) + U32(v.targetId)
  }

  function ReadVote(d: bytes): VoteCommand {
    if |d| < 8 then VoteCommand(0, 0) else VoteCommand(At32(d, 0), At32(d, 4))
  }

  lemma VoteRoundTrip(v: VoteCommand)
    ensures ReadVote(VoteBytes(v)) == v
  {
    Seqs.Empty(VoteBytes(v));
    TwoLeadingFields(v.voterId, v.targetId, []);
  }

  /** One way of walking an unordered container: every element of `s` once. */
  ghost predicate IsWalk(walk: seq<u32>, s: set<u32>) {
    && (forall x :: x in walk <==> x in s)
    && (forall i, j :: 0 <= i < j < |walk| ==> walk[i] != walk[j])
  }

  function PairsBytes(tally: map<u32, nat>, walk: seq<u32>): bytes
    requires forall t :: t in walk ==> t in tally
  {
    if walk == [] then []
    else U32(walk[0]) + U32(Low32(tally[walk[0]])) + PairsBytes(tally, walk[1..])
  }

  function ResultBytes(r: VoteResult, walk: seq<u32>): bytes
    requires forall t :: t in walk ==> t in r.tally
  {
    U32(Low32(|r.tally|)) + PairsBytes(r.tally, walk) + U32(r.winnerId) + U32(if r.liarCaught then 1 else 0)
  }

  /** Up to `count` pairs put into `tally`, and the bytes left after them. */
  function ReadPairs(d: bytes, count: nat, tally: map<u32, nat>): (map<u32, nat>, bytes) {
    if count == 0 || |d| < 8 then (tally, d)
    else ReadPairs(d[8..], count - 1, tally[At32(d, 0) := At32(d, 4)])
  }

  function ReadResult(d: bytes): VoteResult {
    if |d| < 12 then VoteResult(map[], 0, false)
    else
      var (tally, after) := ReadPairs(d[4..], At32(d, 0), map[]);
      if |after| < 8 then VoteResult(tally, 0, false)
      else VoteResult(tally, At32(after, 0), At32(after, 4) != 0)
  }

  lemma ReadOnePair(d: bytes, t: u32, n: u32, more: bytes, count: nat, tally: map<u32, nat>)
    requires count > 0 && d == U32(t) + U32(n) + more
    ensures ReadPairs(d, count, tally) == ReadPairs(more, count - 1, tally[t := n])
  {
    TwoLeadingFields(t, n, more);
  }

  lemma {:induction false} PairsRoundTrip(tally: map<u32, nat>, walk: seq<u32>, after: bytes, seen: map<u32, nat>)
    requires forall t :: t in walk ==> t in tally && tally[t] < 0x1_0000_0000
    requires forall t :: t in seen ==> t in tally && seen[t] == tally[t]
    ensures ReadPairs(PairsBytes(tally, walk) + after, |walk|, seen).1 == after
    ensures var all := ReadPairs(PairsBytes(tally, walk) + after, |walk|, seen).0;
      && (forall t :: t in all <==> t in seen || t in walk)
      && (forall t :: t in all ==> t in tally && all[t] == tally[t])
    decreases |walk|
  {
    if walk == [] {
      Seqs.Empty(after);
    } else {
      var t, more := walk[0], PairsBytes(tally, walk[1..]) + after;
      Seqs.Assoc(U32(t) + U32(tally[t]), PairsBytes(tally, walk[1..]), after);
      ReadOnePair(PairsBytes(tally, walk) + after, t, tally[t], more, |walk|, seen);
      PairsRoundTrip(tally, walk[1..], after, seen[t := tally[t]]);
    }
  }

  lemma {:induction false} WalkLength(walk: seq<u32>, s: set<u32>)
    requires IsWalk(walk, s)
    ensures |walk| == |s|
    decreases |walk|
  {
    if walk == [] {
      assert s == {};
    } else {
      var x := walk[0];
      assert walk == [x] + walk[1..];
      assert IsWalk(walk[1..], s - {x});
      WalkLength(walk[1..], s - {x});
    }
  }

  lemma {:induction false} PairsLength(tally: map<u32, nat>, walk: seq<u32>)
    requires forall t :: t in walk ==> t in tally
    ensures |PairsBytes(tally, walk)| == 8 * |walk|
  {
    if walk != [] {
      PairsLength(tally, walk[1..]);
    }
  }

  /** A vote result is read back whole whatever order the encoder walked the tally in. */
  lemma ResultRoundTrip(r: VoteResult, walk: seq<u32>)
    requires IsWalk(walk, r.tally.Keys) && |r.tally| < 0x1_0000_0000
    requires forall t :: t in r.tally ==> r.tally[t] < 0x1_0000_0000
    ensures ReadResult(ResultBytes(r, walk)) == r
  {
    WalkLength(walk, r.tally.Keys);
    var caught: u32 := if r.liarCaught then 1 else 0;
    var pairs, after := PairsBytes(r.tally, walk), U32(r.winnerId) + U32(caught);
    PairsRoundTrip(r.tally, walk, after, map[]);
    assert ReadPairs(pairs + after, |walk|, map[]).0 == r.tally;
    ResultRegroup(U32(|walk|), pairs, U32(r.winnerId), U32(caught));
    ReadResultBytes(ResultBytes(r, walk), |walk|, pairs + after, r.tally, r.winnerId, caught);
  }

  lemma ResultRegroup(a: bytes, b: bytes, c: bytes, d: bytes)
    ensures a + b + c + d == a + (b + (c + d))
  {
  }

  lemma ReadResultBytes(d: bytes, count: u32, body: bytes, tally: map<u32, nat>, winner: u32, caught: u32)
    requires d == U32(count) + body
    requires |body| >= 8 && ReadPairs(body, count, map[]) == (tally, U32(winner) + U32(caught))
    ensures ReadResult(d) == VoteResult(tally, winner, caught != 0)
  {
    LeadingField(count, body);
    TwoLeadingFields(winner, caught, []);
    Seqs.Empty(U32(winner) + U32(caught));
  }
}
