/** What the decoders make of a message whose end is missing: the fields that are wholly there, and nothing invented. */
module Cuts {
  import opened Bytes
  import opened Messages
  import opened Votes
  import Seqs

  lemma CutField(d: bytes, before: bytes, x: u32, after: bytes, n: nat)
    requires |before| + 4 <= n <= |before| + 4 + |after| && d == (before + U32(x) + after)[..n]
    ensures At32(d, |before|) == x
  {
    Seqs.TakeOfAppend(before + U32(x), after, n);
    U32RoundTrip(before, x, after[..n - |before| - 4]);
  }

  /** Text is read whole or as empty. */
  lemma CutText(d: bytes, before: bytes, t: bytes, after: bytes, n: nat)
    requires |t| < 0x1_0000_0000 && |before| + 4 <= n <= |before| + 4 + |t| + |after|
    requires d == (before + Text(t) + after)[..n]
    ensures ReadText(d, |before|)
         == if |before| + 4 + |t| <= n then (t, |before| + 4 + |t|) else ([], |before| + 4)
  {
    if |before| + 4 + |t| <= n {
      Seqs.TakeOfAppend(before + Text(t), after, n);
      TextRoundTrip(before, t, after[..n - |before| - 4 - |t|]);
    } else {
      Seqs.Assoc(before, U32(|t|), t);
      Seqs.Assoc(before + U32(|t|), t, after);
      CutField(d, before, |t|, t + after, n);
    }
  }

  lemma ThreeParts(d: bytes, a: bytes, b: bytes, c: bytes, n: nat)
    requires n <= |a| + |b| + |c| && d == (a + b + c)[..n]
    ensures d == ([] + a + (b + c))[..n] && d == (a + b + c + [])[..n]
  {
    Seqs.Assoc(a, b, c);
    Seqs.Empty(a);
    Seqs.Empty(a + b + c);
  }

  /** A player state that is not whole: nobody without its fixed fields, else the player without a name. */
  lemma CutPlayer(s: PlayerState, n: nat)
    requires FitsPlayer(s) && n < |PlayerBytes(s)|
    ensures ReadPlayer(PlayerBytes(s)[..n]) == if n < 16 then NOBODY else s.(username := [])
  {
    if n >= 16 {
      var d, a, b, c, t := PlayerBytes(s)[..n], U32(s.id), U32(RoleCode(s.role)), U32(Low32(s.score)), Text(s.username);
      PlayerParts(d, a, b, c, t, n);
      CutField(d, [], s.id, b + c + t, n);
      CutField(d, a, RoleCode(s.role), c + t, n);
      CutField(d, a + b, Low32(s.score), t, n);
      CutText(d, a + b + c, s.username, [], n);
      SignedRoundTrip(s.score);
    }
  }

  lemma PlayerParts(d: bytes, a: bytes, b: bytes, c: bytes, t: bytes, n: nat)
    requires n <= |a| + |b| + |c| + |t| && d == (a + b + c + t)[..n]
    ensures d == ([] + a + (b + c + t))[..n]
    ensures d == (a + b + (c + t))[..n]
    ensures d == (a + b + c + t + [])[..n]
  {
    Seqs.Assoc(a + b, c, t);
    Seqs.Assoc(a, b, c + t);
    Seqs.Assoc(b, c, t);
    Seqs.Empty(a);
    Seqs.Empty(a + b + c + t);
  }

  /** A chat message that is not whole: no sender without the shortest possible message; else the right sender, and once
      the name is wholly there, the name with no text. */
  lemma CutChat(m: ChatMessage, n: nat)
    requires |m.username| < 0x1_0000_0000 && |m.text| < 0x1_0000_0000 && n < |ChatBytes(m)|
    ensures var r := ReadChat(ChatBytes(m)[..n]);
      if n < 12 then r == ChatMessage(0, [], [])
      else if n < 8 + |m.username| then r.senderId == m.senderId && r.username == []
      else r == m.(text := [])
  {
    if n >= 12 {
      var d, a, b, c := ChatBytes(m)[..n], U32(m.senderId), Text(m.username), Text(m.text);
      ThreeParts(d, a, b, c, n);
      CutField(d, [], m.senderId, b + c, n);
      CutText(d, a, m.username, c, n);
      if n >= 12 + |m.username| {
        CutText(d, a + b, m.text, [], n);
      }
    }
  }

  /** A role assignment that is not whole: nothing without the shortest one possible; else the right player and role, and
      once the topic is wholly there, the topic with no word. */
  lemma CutAssignment(r: RoleAssignment, n: nat)
    requires RoleOf(RoleCode(r.role)) == r.role && n < |AssignmentBytes(r)|
    requires |r.topic| < 0x1_0000_0000 && |r.secretWord| < 0x1_0000_0000
    ensures var s := ReadAssignment(AssignmentBytes(r)[..n]);
      if n < 12 then s == RoleAssignment(0, NoRole, [], [])
      else if n < 12 + |r.topic| then s.playerId == r.playerId && s.role == r.role && s.topic == []
      else s == r.(secretWord := [])
  {
    if n >= 12 {
      var d, a, b, c, t := AssignmentBytes(r)[..n], U32(r.playerId), U32(RoleCode(r.role)), Text(r.topic),
        Text(r.secretWord);
      PlayerParts(d, a, b, c, t, n);
      CutField(d, [], r.playerId, b + c + t, n);
      CutField(d, a, RoleCode(r.role), c + t, n);
      Seqs.Assoc(a + b, c, t);
      CutText(d, a + b, r.topic, t, n);
      if n >= 16 + |r.topic| {
        CutText(d, a + b + c, r.secretWord, [], n);
      }
    }
  }

  /** A vote command that is not whole is read as one by nobody for nobody. */
  lemma CutVote(v: VoteCommand, n: nat)
    requires n < |VoteBytes(v)|
    ensures ReadVote(VoteBytes(v)[..n]) == VoteCommand(0, 0)
  {
  }

  // ------------------------------------------------------------------ vote result ----

  /** The entries of the tally for the first `k` targets of the walk. */
  function FirstPairs(tally: map<u32, nat>, walk: seq<u32>, k: nat): map<u32, nat>
    requires k <= |walk| && forall t :: t in walk ==> t in tally
  {
    map t | t in walk[..k] :: tally[t]
  }

  lemma OnePairLess(tally: map<u32, nat>, walk: seq<u32>, seen: map<u32, nat>, k: nat)
    requires 0 < k <= |walk| && forall t :: t in walk ==> t in tally
    requires forall t :: t in seen ==> t in tally && seen[t] == tally[t]
    ensures seen[walk[0] := tally[walk[0]]] + FirstPairs(tally, walk[1..], k - 1) == seen + FirstPairs(tally, walk, k)
  {
    Seqs.TakeFirst(walk, k);
    assert forall t :: t in walk[..k] <==> t == walk[0] || t in walk[1..][..k - 1];
  }

  lemma NoPairs(d: bytes, tally: map<u32, nat>, walk: seq<u32>, seen: map<u32, nat>)
    requires |d| < 8 && forall t :: t in walk ==> t in tally
    ensures ReadPairs(d, |walk|, seen) == (seen, d) && seen + FirstPairs(tally, walk, 0) == seen
  {
  }

  lemma FirstOfCutPairs(d: bytes, tally: map<u32, nat>, walk: seq<u32>, after: bytes, n: nat, seen: map<u32, nat>)
    requires walk != [] && forall t :: t in walk ==> t in tally && tally[t] < 0x1_0000_0000
    requires 8 <= n <= |PairsBytes(tally, walk)| + |after| && d == (PairsBytes(tally, walk) + after)[..n]
    ensures |PairsBytes(tally, walk)| == 8 + |PairsBytes(tally, walk[1..])|
    ensures var more := (PairsBytes(tally, walk[1..]) + after)[..n - 8];
      forall all :: ReadsAs(more, |walk| - 1, seen[walk[0] := tally[walk[0]]], all) ==> ReadsAs(d, |walk|, seen, all)
  {
    var t, others := walk[0], PairsBytes(tally, walk[1..]);
    PairThenRest(d, U32(t), U32(tally[t]), others, after, n);
    ReadOnePair(d, t, tally[t], (others + after)[..n - 8], |walk|, seen);
  }

  ghost predicate ReadsAs(d: bytes, count: nat, seen: map<u32, nat>, all: map<u32, nat>) {
    ReadPairs(d, count, seen).0 == all && |ReadPairs(d, count, seen).1| < 8
  }

  /** Of the pairs cut after `n` bytes those that are wholly there are read, and less than a pair is left. */
  lemma {:induction false} CutPairs(d: bytes, tally: map<u32, nat>, walk: seq<u32>, after: bytes, n: nat,
                                    k: nat, seen: map<u32, nat>, all: map<u32, nat>)
    requires forall t :: t in walk ==> t in tally && tally[t] < 0x1_0000_0000
    requires forall t :: t in seen ==> t in tally && seen[t] == tally[t]
    requires k <= |walk| && all == seen + FirstPairs(tally, walk, k)
    requires 8 * k <= n < 8 * k + 8 && n <= |PairsBytes(tally, walk)| + |after|
    requires d == (PairsBytes(tally, walk) + after)[..n]
    ensures ReadsAs(d, |walk|, seen, all)
    decreases k
  {
    if k == 0 {
      NoPairs(d, tally, walk, seen);
    } else {
      var next := seen[walk[0] := tally[walk[0]]];
      FirstOfCutPairs(d, tally, walk, after, n, seen);
      OnePairLess(tally, walk, seen, k);
      CutPairs((PairsBytes(tally, walk[1..]) + after)[..n - 8], tally, walk[1..], after, n - 8, k - 1, next, all);
    }
  }

  lemma PairThenRest(d: bytes, a: bytes, b: bytes, others: bytes, after: bytes, n: nat)
    requires |a| == |b| == 4 && 8 <= n <= 8 + |others| + |after| && d == (a + b + others + after)[..n]
    ensures d == a + b + (others + after)[..n - 8]
  {
    Seqs.Assoc(a + b, others, after);
    Seqs.TakeOfAppend(a + b, others + after, n);
  }

  /** A vote result that is not whole: the pairs that are wholly there, and neither winner nor liar caught. */
  lemma CutResult(r: VoteResult, walk: seq<u32>, n: nat)
    requires IsWalk(walk, r.tally.Keys) && |r.tally| < 0x1_0000_0000
    requires forall t :: t in r.tally ==> r.tally[t] < 0x1_0000_0000
    requires n < |ResultBytes(r, walk)|
    ensures n >= 12 ==> (n - 4) / 8 <= |walk|
    ensures ReadResult(ResultBytes(r, walk)[..n])
         == VoteResult(if n < 12 then map[] else FirstPairs(r.tally, walk, (n - 4) / 8), 0, false)
  {
    WalkLength(walk, r.tally.Keys);
    PairsLength(r.tally, walk);
    if n >= 12 {
      var caught: u32 := if r.liarCaught then 1 else 0;
      var pairs, after := PairsBytes(r.tally, walk), U32(r.winnerId) + U32(caught);
      ResultRegroup(U32(|walk|), pairs, U32(r.winnerId), U32(caught));
      var d := ResultBytes(r, walk)[..n];
      CutBehindField(d, |walk|, pairs + after, n);
      var k := (n - 4) / 8;
      var all := FirstPairs(r.tally, walk, k);
      assert map[] + all == all;
      CutPairs(d[4..], r.tally, walk, after, n - 4, k, map[], all);
    }
  }
}
