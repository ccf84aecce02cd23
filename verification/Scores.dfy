/** Bounds on the scores over whole runs. */
module Scores {
  import opened Bytes
  import opened Packets
  import opened Messages
  import opened Votes
  import opened Rules
  import opened GameStates
  import opened Codec
  import opened Handlers
  import opened Scoring
  import opened Worlds
  import opened Tracking

  /** The sum of all scores. */
  ghost function Total(players: Players): int
    decreases |players|
  {
    if players == map[] then 0
    else
      var id :| id in players;
      players[id].score + Total(players - {id})
  }

  /** The sum does not depend on which player is counted first. */
  lemma {:induction false} TotalWithout(players: Players, id: u32)
    requires id in players
    ensures Total(players) == players[id].score + Total(players - {id})
    decreases |players|
  {
    var first :| first in players && Total(players) == players[first].score + Total(players - {first});
    if first != id {
      TotalWithout(players - {first}, id);
      TotalWithout(players - {id}, first);
      assert players - {first} - {id} == players - {id} - {first};
    }
  }

  /** Players in `who` gained at most `points`, which is 1 or 2, and the others nothing. */
  lemma {:induction false} TotalGain(before: Players, after: Players, who: set<u32>, points: int)
    requires before.Keys == after.Keys && (points == 1 || points == 2)
    requires forall id :: id in before ==>
      after[id].score <= before[id].score + if id in who then points else 0
    ensures Total(after) <= Total(before) + if points == 1 then |who| else 2 * |who|
    decreases |before|
  {
    if before == map[] {
      assert after == map[];
    } else {
      var id :| id in before;
      TotalWithout(before, id);
      TotalWithout(after, id);
      TotalGain(before - {id}, after - {id}, who - {id}, points);
    }
  }

  /** Nobody's score rises: the sum does not rise. */
  lemma TotalNoGain(before: Players, after: Players)
    requires before.Keys == after.Keys
    requires forall id :: id in before ==> after[id].score <= before[id].score
    ensures Total(after) <= Total(before)
  {
    TotalGain(before, after, {}, 1);
  }

  // ------------------------------------------------------------ one callback ----

  /** How a callback changes scores: nobody's falls, nobody gains without a scored round, and then at most 2 each and
      5 together; newcomers begin with 0. */
  ghost predicate Pays(before: Players, after: Players, scored: bool) {
    && (forall id :: id in after && id in before ==>
          before[id].score <= after[id].score <= before[id].score + if scored then 2 else 0)
    && (forall id :: id in after && id !in before ==> after[id].score == 0)
    && ((forall id :: id in before ==> before[id].score >= 0) ==>
          Total(after) <= Total(before) + if scored then 5 else 0)
  }

  lemma SameScoresPay(before: Players, after: Players)
    requires before.Keys == after.Keys
    requires forall id :: id in before ==> after[id].score == before[id].score
    ensures Pays(before, after, false)
  {
    TotalNoGain(before, after);
  }

  lemma StartPays(before: Players, g: Game, ch: Choice)
    requires Fits(ch, g.players.Keys) && Pays(before, g.players, false)
    ensures Pays(before, StartIfPossible(g, ch).game.players, false)
  {
    StartKeepsScores(g, ch);
    TotalNoGain(g.players, StartIfPossible(g, ch).game.players);
  }

  lemma JoinPays(g: Game, id: u32, data: bytes, ch: Choice)
    requires Inv(g) && id != 0 && Fits(ch, g.players.Keys + {id})
    ensures Pays(g.players, JoinStep(g, id, data, ch).game.players, false)
  {
    if id in g.players {
      SameScoresPay(g.players, g.players);
    } else {
      var joined := Added(g, id, if |data| > 0 then data else DefaultName(id));
      AddedIsCoherent(g, id, if |data| > 0 then data else DefaultName(id));
      TotalWithout(joined.players, id);
      assert joined.players - {id} == g.players;
      StartPays(g.players, joined, ch);
    }
  }

  lemma OneFewerPays(before: Players, after: Players, id: u32)
    requires id in before && after.Keys == before.Keys - {id}
    requires forall x :: x in after ==> after[x].score == before[x].score
    ensures Pays(before, after, false)
  {
    TotalWithout(before, id);
    TotalNoGain(before - {id}, after);
  }

  lemma DepartedKeepsScores(g: Game, id: u32)
    ensures Departed(g, id).players.Keys == g.players.Keys - {id}
    ensures forall x :: x in Departed(g, id).players ==> Departed(g, id).players[x].score == g.players[x].score
  {
  }

  lemma LeavePays(g: Game, id: u32, ch: Choice)
    requires Fits(ch, g.players.Keys - {id})
    ensures Pays(g.players, LeaveStep(g, id, ch).game.players, false)
  {
    if id in g.players {
      LeaveThenStarts(g, id, ch);
      DepartedKeepsScores(g, id);
      OneFewerPays(g.players, Departed(g, id).players, id);
      StartPays(g.players, Departed(g, id), ch);
    } else {
      SameScoresPay(g.players, g.players);
    }
  }

  /** A finished round pays one point to each of a few guessers, or two to the liar, or nothing. */
  lemma PointsAreFew(g: Game) returns (who: set<u32>, points: int)
    requires Inv(g) && |Guessers(g)| <= 5
    ensures (points == 1 && |who| <= 5) || (points == 2 && |who| == 1)
    ensures forall id :: id in g.players ==> 0 <= Points(g, id) <= 2
    ensures forall id :: id in g.players ==> Points(g, id) <= if id in who then points else 0
  {
    if VotedOut(g, g.liarId) {
      SubsetCount(Detectives(g), Guessers(g));
      who, points := Detectives(g), 1;
    } else {
      who, points := {g.liarId}, 2;
    }
  }

  lemma GainPays(before: Players, after: Players, who: set<u32>, points: int)
    requires before.Keys == after.Keys
    requires (points == 1 && |who| <= 5) || (points == 2 && |who| == 1)
    requires forall id :: id in before ==> before[id].score <= after[id].score <= before[id].score + 2
    requires forall id :: id in before ==> after[id].score <= before[id].score + if id in who then points else 0
    ensures Pays(before, after, true)
  {
    TotalGain(before, after, who, points);
  }

  lemma FinishPays(g: Game, ch: Choice)
    requires Inv(g) && g.active && g.liarId != 0 && |Guessers(g)| <= 5
    requires Fits(ch, g.players.Keys) && IsWalk(ch.ballots, Tally(g.votes).Keys)
    ensures Pays(g.players, FinishRound(g, ch).game.players, true)
  {
    RoundPaysByCounting(g, ch);
    PointsPay(g, FinishRound(g, ch).game.players);
  }

  lemma PointsPay(g: Game, after: Players)
    requires Inv(g) && |Guessers(g)| <= 5 && after.Keys == g.players.Keys
    requires forall id :: id in after ==> after[id].score == g.players[id].score + Points(g, id)
    ensures Pays(g.players, after, true)
  {
    var who, points := PointsAreFew(g);
    GainPays(g.players, after, who, points);
  }

  lemma CountPays(g: Game, ch: Choice)
    requires Inv(g) && g.active && g.liarId != 0 && |Guessers(g)| <= 5
    requires Fits(ch, g.players.Keys) && IsWalk(ch.ballots, Tally(g.votes).Keys)
    ensures Pays(g.players, CountStep(g, ch).game.players, CountStep(g, ch).scored)
  {
    if |HaveVoted(g)| >= |g.players| {
      FinishPays(g, ch);
    } else {
      SameScoresPay(g.players, g.players);
    }
  }

  lemma VotePays(g: Game, voter: u32, name: bytes, ch: Choice)
    requires Inv(g) && g.active && g.liarId != 0 && |Guessers(g)| <= 5
    requires Fits(ch, g.players.Keys)
    requires IsWalk(ch.ballots, Tally(Voted(g, voter, TargetOf(g, name, ch)).votes).Keys)
    ensures var o := VoteStep(g, voter, name, ch);
      Pays(g.players, o.game.players, o.scored)
  {
    SameScoresPay(g.players, g.players);
    var target := TargetOf(g, name, ch);
    if target != 0 && AcceptsVote(g, voter, target) {
      var voted := Voted(g, voter, target);
      ApplyKeepsInv(g, SubmitVote(voter, target));
      assert Guessers(voted) == Guessers(g);
      CountPays(voted, ch);
    }
  }

  lemma ChatPays(g: Game, id: u32, data: bytes, ch: Choice)
    requires Settled(g) && Fits(ch, g.players.Keys) && BallotsFit(g, id, data, ch)
    ensures var o := ChatStep(g, id, data, ch);
      Pays(g.players, o.game.players, o.scored)
  {
    SameScoresPay(g.players, g.players);
    match CommandIn(data)
    case Some(name) =>
      if g.active {
        VotePays(g, id, name, ch);
      }
    case None =>
  }

  lemma HandlePays(g: Game, connected: bool, id: u32, p: Packet, ch: Choice)
    requires Settled(g) && id != 0 && Possible(g, id, p, ch)
    ensures var o := Handle(g, connected, id, p, ch);
      Pays(g.players, o.game.players, o.scored)
  {
    if p.kind == PLAYER_JOIN {
      JoinPays(g, id, p.data, ch);
    } else if p.kind == CHAT_MESSAGE && connected {
      ChatPays(g, id, p.data, ch);
    } else if p.kind == PLAYER_LEAVE {
      LeavePays(g, id, ch);
    } else {
      SameScoresPay(g.players, g.players);
    }
  }

  // --------------------------------------------------------------- every run ----

  ghost predicate Bounded(w: World) {
    && (forall id :: id in w.game.players ==> 0 <= w.game.players[id].score <= 2 * w.rounds)
    && Total(w.game.players) <= 5 * w.rounds
  }

  lemma StepPays(w: World, e: Event)
    requires Sound(w) && Enabled(w, e)
    ensures w.rounds <= Step(w, e).rounds <= w.rounds + 1
    ensures Pays(w.game.players, Step(w, e).game.players, Step(w, e).rounds == w.rounds + 1)
  {
    match e
    case Receive(id, p, ch) => HandlePays(w.game, true, id, p, ch);
    case FinalLeave(id, ch) => HandlePays(w.game, false, id, LEAVE_PACKET, ch);
    case _ => SameScoresPay(w.game.players, w.game.players);
  }

  lemma {:induction false} RunKeepsBounds(w: World, es: seq<Event>)
    requires Sound(w) && IsRun(w, es) && Bounded(w)
    ensures Bounded(Run(w, es))
    decreases |es|
  {
    if es != [] {
      StepKeepsSound(w, es[0]);
      StepPays(w, es[0]);
      RunKeepsBounds(Step(w, es[0]), es[1..]);
    }
  }

  /** In every run each score is between 0 and twice the number of rounds scored, and all scores together are at most
      five times that number. */
  lemma ScoresAreBounded(es: seq<Event>)
    requires IsRun(INITIAL, es)
    ensures var w := Run(INITIAL, es);
      && (forall id :: id in w.game.players ==> 0 <= w.game.players[id].score <= 2 * w.rounds)
      && Total(w.game.players) <= 5 * w.rounds
  {
    RunKeepsBounds(INITIAL, es);
  }

  /** The player is there throughout the run. */
  ghost predicate Stays(w: World, es: seq<Event>, id: u32)
    requires IsRun(w, es)
    decreases |es|
  {
    id in w.game.players && (es != [] ==> Stays(Step(w, es[0]), es[1..], id))
  }

  /** While a player stays, the score never falls and rises by at most two for each round scored. */
  lemma {:induction false} ScoreNeverFalls(w: World, es: seq<Event>, id: u32)
    requires Sound(w) && IsRun(w, es) && Stays(w, es, id)
    ensures var after := Run(w, es);
      && id in after.game.players
      && w.game.players[id].score <= after.game.players[id].score
           <= w.game.players[id].score + 2 * (after.rounds - w.rounds)
    decreases |es|
  {
    if es != [] {
      StepKeepsSound(w, es[0]);
      StepPays(w, es[0]);
      ScoreNeverFalls(Step(w, es[0]), es[1..], id);
    }
  }
}
