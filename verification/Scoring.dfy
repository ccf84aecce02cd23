/** What a finished round pays, stated by counting votes, for every order in which the tally may be walked. */
module Scoring {
  import opened Bytes
  import opened Messages
  import opened Votes
  import opened Rules
  import opened GameStates
  import opened Codec
  import opened Handlers

  /** More than half of all players voted for the target. */
  ghost predicate VotedOut(g: Game, target: u32) {
    HasMajority(g.votes, |g.players|, target)
  }

  /** The points a player gets when the round ends. */
  ghost function Points(g: Game, id: u32): int
    requires id in g.players
  {
    if VotedOut(g, g.liarId) then
      if g.players[id].role == Guesser && id in g.votes && g.votes[id] == g.liarId then 1 else 0
    else if exists target :: VotedOut(g, target) then
      if id == g.liarId then 2 else 0
    else 0
  }

  lemma VotesAreFew(g: Game)
    requires Inv(g)
    ensures |g.votes| <= |g.players|
  {
    assert |g.votes.Keys| == |g.votes| && |g.players.Keys| == |g.players|;
    SubsetCount(g.votes.Keys, g.players.Keys);
  }

  /** The three branches of the scoring, decided by counting alone. */
  lemma OutcomeByCounting(g: Game, walk: seq<u32>)
    requires Inv(g) && IsWalk(walk, Tally(g.votes).Keys)
    ensures var v := VerdictOf(g, walk);
      && (v.hasMajority <==> exists target :: VotedOut(g, target))
      && (v.liarCaught <==> VotedOut(g, g.liarId))
      && (forall target :: VotedOut(g, target) ==> v.winnerId == target)
  {
    VotesAreFew(g);
    PluralityFindsMajority(g.votes, |g.players|, walk);
    var (winner, most) := Plurality(Tally(g.votes), walk);
    if most > |g.players| / 2 {
      assert VotedOut(g, winner);
    }
  }

  lemma ScoredPays(g: Game, v: Verdict)
    requires Inv(g) && g.active && g.liarId != 0
    requires v.liarCaught == VotedOut(g, g.liarId) && v.hasMajority == exists target :: VotedOut(g, target)
    requires v.liarCaught == (v.hasMajority && v.winnerId == g.liarId)
    ensures var after := Scored(g, v.liarCaught, v.winnerId, v.hasMajority).players;
      forall id :: id in g.players ==>
        id in after && after[id] == g.players[id].(score := g.players[id].score + Points(g, id))
  {
  }

  lemma StartKeepsScores(g: Game, ch: Choice)
    requires Fits(ch, g.players.Keys)
    ensures var after := StartIfPossible(g, ch).game.players;
      after.Keys == g.players.Keys && forall id :: id in after ==>
        after[id].score == g.players[id].score && after[id].username == g.players[id].username
  {
  }

  /** When the last vote is in, every player gets exactly the points the counting gives, in every order of every walk. */
  lemma RoundPaysByCounting(g: Game, ch: Choice)
    requires Inv(g) && g.active && g.liarId != 0
    requires Fits(ch, g.players.Keys) && IsWalk(ch.ballots, Tally(g.votes).Keys)
    ensures var after := FinishRound(g, ch).game.players;
      && after.Keys == g.players.Keys
      && forall id :: id in after ==>
           && after[id].score == g.players[id].score + Points(g, id)
           && after[id].username == g.players[id].username
  {
    var v := VerdictOf(g, ch.ballots);
    OutcomeByCounting(g, ch.ballots);
    ScoredPays(g, v);
    PaidKeepsKeys(g, v);
    StartKeepsScores(Paid(g, v), ch);
  }

  /** The result that is broadcast names the majority's choice and says rightly whether the liar was caught. */
  lemma ResultIsRight(g: Game, ch: Choice)
    requires Inv(g) && Fits(ch, g.players.Keys) && IsWalk(ch.ballots, Tally(g.votes).Keys)
    ensures var msg := FinishRound(g, ch).effects[0].msg;
      && msg.Result?
      && msg.result.tally == Tally(g.votes)
      && (msg.result.liarCaught <==> VotedOut(g, g.liarId))
      && (forall target :: VotedOut(g, target) ==> msg.result.winnerId == target)
  {
    OutcomeByCounting(g, ch.ballots);
  }

  /** The header promises a winner id of 0 when there is no majority. The code sends the plurality leader, so with any
      vote cast the promise is kept exactly when there is a majority. */
  lemma WinnerIdZeroPromise(g: Game, ch: Choice)
    requires Inv(g) && Fits(ch, g.players.Keys) && IsWalk(ch.ballots, Tally(g.votes).Keys)
    requires g.votes != map[]
    ensures var result := FinishRound(g, ch).effects[0].msg.result;
      && result.winnerId in g.players && result.winnerId != 0
      && (((!exists target :: VotedOut(g, target)) ==> result.winnerId == 0) <==> exists target :: VotedOut(g, target))
  {
    WinnerIsATarget(g.votes, ch.ballots);
  }

  /** Three players, each of whom has voted for the next. */
  const CYCLE := Game(map[1 := PlayerState(1, [65], Liar, 0), 2 := PlayerState(2, [66], Guesser, 0),
                          3 := PlayerState(3, [67], Guesser, 0)],
                      map[1 := 2, 2 := 3, 3 := 1], 1, [70], [71], true)

  lemma CycleHasNoMajority(target: u32)
    ensures !VotedOut(CYCLE, target)
  {
    var only: u32 := if target == 2 then 1 else if target == 3 then 2 else 3;
    SubsetCount(Voters(CYCLE.votes, target), {only});
    assert |CYCLE.players| == 3;
  }

  lemma CycleTargets()
    ensures Tally(CYCLE.votes).Keys == {1, 2, 3}
  {
    var votes := CYCLE.votes;
    assert votes[1] == 2 && votes[2] == 3 && votes[3] == 1;
    assert votes.Values == {1, 2, 3};
  }

  lemma CycleIsPossible(ch: Choice)
    requires ch == Choice([1, 2, 3], [1, 2, 3], [1, 2, 3], [1, 2, 3], 1, [70], [71])
    ensures Fits(ch, CYCLE.players.Keys) && IsWalk(ch.ballots, Tally(CYCLE.votes).Keys)
  {
    CycleTargets();
    assert CYCLE.players.Keys == {1, 2, 3};
  }

  lemma CycleIsCoherent()
    ensures Inv(CYCLE) && CYCLE.votes != map[]
  {
    assert 1 in CYCLE.votes;
  }

  /** So the promise fails for three players who each vote for the next: nobody has a majority, yet the result names
      a winner. */
  lemma WinnerIdZeroPromiseFails(ch: Choice)
    requires ch == Choice([1, 2, 3], [1, 2, 3], [1, 2, 3], [1, 2, 3], 1, [70], [71])
    ensures Fits(ch, CYCLE.players.Keys) && IsWalk(ch.ballots, Tally(CYCLE.votes).Keys)
    ensures !exists target :: VotedOut(CYCLE, target)
    ensures FinishRound(CYCLE, ch).effects[0].msg.result.winnerId != 0
  {
    CycleIsCoherent();
    CycleIsPossible(ch);
    WinnerIdZeroPromise(CYCLE, ch);
    forall target
      ensures !VotedOut(CYCLE, target)
    {
      CycleHasNoMajority(target);
    }
  }
}
