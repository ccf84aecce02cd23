/** Counting votes: the tally, its conservation, majorities, and the winner the plurality loop picks. */
module Votes {
  import opened Bytes
  import opened Messages
  import Seqs

  /** Who voted for `target`. */
  function Voters(votes: map<u32, u32>, target: u32): set<u32> {
    set v | v in votes && votes[v] == target
  }

  /** Each target that got a vote, with the number of its voters. */
  function Tally(votes: map<u32, u32>): map<u32, nat> {
    map target | target in votes.Values :: |Voters(votes, target)|
  }

  /** The sum of the counts along a walk of the tally. */
  function CountAlong(tally: map<u32, nat>, walk: seq<u32>): nat
    requires forall t :: t in walk ==> t in tally
  {
    if walk == [] then 0 else tally[walk[0]] + CountAlong(tally, walk[1..])
  }

  function VotersAlong(votes: map<u32, u32>, walk: seq<u32>): set<u32> {
    set v | v in votes && votes[v] in walk
  }

  lemma SplitVoters(votes: map<u32, u32>, walk: seq<u32>)
    requires walk != [] && forall j :: 0 < j < |walk| ==> walk[j] != walk[0]
    ensures |VotersAlong(votes, walk)| == |Voters(votes, walk[0])| + |VotersAlong(votes, walk[1..])|
  {
    var first, others := Voters(votes, walk[0]), VotersAlong(votes, walk[1..]);
    assert VotersAlong(votes, walk) == first + others;
    assert first !! others;
  }

  lemma {:induction false} CountsAlong(votes: map<u32, u32>, walk: seq<u32>)
    requires forall t :: t in walk ==> t in votes.Values
    requires forall i, j :: 0 <= i < j < |walk| ==> walk[i] != walk[j]
    ensures CountAlong(Tally(votes), walk) == |VotersAlong(votes, walk)|
    decreases |walk|
  {
    if walk == [] {
      assert VotersAlong(votes, walk) == {};
    } else {
      CountsAlong(votes, walk[1..]);
      SplitVoters(votes, walk);
    }
  }

  /** No vote is lost or counted twice: the counts add up to the number of votes, in any order. */
  lemma TallyIsConserved(votes: map<u32, u32>, walk: seq<u32>)
    requires IsWalk(walk, Tally(votes).Keys)
    ensures CountAlong(Tally(votes), walk) == |votes|
  {
    CountsAlong(votes, walk);
    assert VotersAlong(votes, walk) == votes.Keys;
  }

  /** One more vote moves exactly one count. */
  lemma TallyAfterVote(votes: map<u32, u32>, voter: u32, target: u32)
    requires voter !in votes
    ensures var tally := Tally(votes);
      Tally(votes[voter := target]) == tally[target := 1 + if target in tally then tally[target] else 0]
  {
    var after := votes[voter := target];
    forall t
      ensures Voters(after, t) == if t == target then Voters(votes, t) + {voter} else Voters(votes, t)
    {
    }
    forall t
      ensures t in after.Values <==> t == target || t in votes.Values
    {
      if t == target {
        assert after[voter] == t;
      }
      if t in votes.Values {
        var v :| v in votes && votes[v] == t;
        assert after[v] == t;
      }
    }
    if target !in votes.Values {
      assert Voters(votes, target) == {};
    }
  }

  // ------------------------------------------------------------ majority ----

  ghost predicate HasMajority(votes: map<u32, u32>, total: nat, target: u32) {
    2 * |Voters(votes, target)| > total
  }

  lemma SubsetCount(a: set<u32>, b: set<u32>)
    requires a <= b
    ensures |a| <= |b|
  {
    assert b == a + (b - a);
  }

  lemma SubsetIsWhole(a: set<u32>, b: set<u32>)
    requires a <= b
    ensures |a| >= |b| <==> a == b
    ensures a != b ==> exists x :: x in b && x !in a
  {
    assert b == a + (b - a);
    assert |b| == |a| + |b - a|;
    if a != b {
      assert exists x :: x in b - a;
    }
  }

  lemma VotersDisjoint(votes: map<u32, u32>, s: u32, t: u32)
    requires s != t
    ensures |Voters(votes, s)| + |Voters(votes, t)| <= |votes|
  {
    assert Voters(votes, s) !! Voters(votes, t);
    assert |Voters(votes, s) + Voters(votes, t)| == |Voters(votes, s)| + |Voters(votes, t)|;
    SubsetCount(Voters(votes, s) + Voters(votes, t), votes.Keys);
  }

  /** A majority target outvotes every other target, so at most one target has a majority. */
  lemma MajorityIsUniqueMaximum(votes: map<u32, u32>, total: nat, target: u32, other: u32)
    requires |votes| <= total && HasMajority(votes, total, target) && other != target
    ensures |Voters(votes, other)| < |Voters(votes, target)|
    ensures !HasMajority(votes, total, other)
  {
    VotersDisjoint(votes, target, other);
  }

  // ----------------------------------------------------------- plurality ----

  /** The winner so far and its count: the loop's variables `winnerId` and `maxVotes` after the walk. */
  function Plurality(tally: map<u32, nat>, walk: seq<u32>): (u32, nat)
    requires forall t :: t in walk ==> t in tally
  {
    if walk == [] then (0, 0)
    else
      var n := |walk| - 1;
      var (winner, most) := Plurality(tally, walk[..n]);
      if tally[walk[n]] > most then (walk[n], tally[walk[n]]) else (winner, most)
  }

  /** The plurality loop ends with a largest count of the tally and a target that has it. */
  lemma {:induction false} PluralityIsMaximum(tally: map<u32, nat>, walk: seq<u32>)
    requires forall t :: t in walk ==> t in tally
    ensures var (winner, most) := Plurality(tally, walk);
      && (forall t :: t in walk ==> tally[t] <= most)
      && (if most == 0 then winner == 0 else winner in walk && tally[winner] == most)
    decreases |walk|
  {
    if walk != [] {
      var n := |walk| - 1;
      PluralityIsMaximum(tally, walk[..n]);
      assert walk == walk[..n] + [walk[n]];
    }
  }

  /** The code's majority test succeeds exactly when some target has a majority, and then that target is the winner,
      whatever order the tally was walked in. */
  lemma PluralityFindsMajority(votes: map<u32, u32>, total: nat, walk: seq<u32>)
    requires |votes| <= total && IsWalk(walk, Tally(votes).Keys)
    ensures var (winner, most) := Plurality(Tally(votes), walk);
      && (most > total / 2 ==> HasMajority(votes, total, winner))
      && (forall t :: HasMajority(votes, total, t) ==> most > total / 2 && winner == t)
  {
    var tally := Tally(votes);
    var (winner, most) := Plurality(tally, walk);
    PluralityIsMaximum(tally, walk);
    forall t | HasMajority(votes, total, t)
      ensures most > total / 2 && winner == t
    {
      var v :| v in Voters(votes, t);
      assert votes[v] in votes.Values;
      assert tally[t] <= most;
      if winner != t {
        VotersDisjoint(votes, winner, t);
      }
    }
  }

  /** Any vote at all makes the winner a real target, so the winner id is never the 0 that would mean nobody. */
  lemma WinnerIsATarget(votes: map<u32, u32>, walk: seq<u32>)
    requires votes != map[] && IsWalk(walk, Tally(votes).Keys)
    ensures Plurality(Tally(votes), walk).0 in votes.Values
  {
    PluralityIsMaximum(Tally(votes), walk);
    var v :| v in votes;
    assert v in Voters(votes, votes[v]);
    assert votes[v] in Tally(votes) && votes[v] in walk;
  }
}
