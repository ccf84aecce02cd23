/** Players who join while a round is on: what the round means for them until it ends. */
module Newcomers {
  import opened Bytes
  import opened Packets
  import opened Messages
  import opened Votes
  import opened Rules
  import opened Codec
  import opened Handlers
  import opened Commands
  import opened Scoring
  import opened Replicas
  import opened Worlds
  import opened Secrecy
  import opened Conduct

  /** The round of `g` is still on in `after`, for the same players and perhaps newcomers, who have no part in it. */
  ghost predicate SameRound(g: Game, after: Game) {
    && after.active && after.liarId == g.liarId && after.topic == g.topic && after.word == g.word
    && (forall id :: id in g.players ==> id in after.players && after.players[id] == g.players[id])
    && (forall id :: id in after.players && id !in g.players ==>
          after.players[id].role == NoRole && after.players[id].score == 0)
    && (forall v :: v in g.votes ==> v in after.votes && after.votes[v] == g.votes[v])
  }

  lemma VoteKeepsRound(g: Game, voter: u32, target: u32)
    requires g.active && voter !in g.votes
    ensures SameRound(g, WithVote(g, voter, target))
  {
  }

  lemma JoinKeepsRound(g: Game, id: u32, newcomer: PlayerState)
    requires g.active && id !in g.players && newcomer.role == NoRole && newcomer.score == 0
    ensures SameRound(g, Game(g.players[id := newcomer], g.votes, g.liarId, g.topic, g.word, true))
  {
  }

  lemma CallbackKeepsRound(g: Game, connected: bool, id: u32, p: Packet, ch: Choice)
    requires Settled(g) && id != 0 && Possible(g, id, p, ch) && g.active
    requires p.kind == PLAYER_LEAVE ==> id !in g.players
    requires !(Casts(g, connected, id, p) && IsLastVoter(g, id))
    ensures SameRound(g, Handle(g, connected, id, p, ch).game)
  {
    if Casts(g, connected, id, p) {
      var _, target := VoteBeforeLast(g, id, p, ch);
      VoteKeepsRound(g, id, target);
    } else if p.kind == PLAYER_JOIN && id !in g.players {
      JoinInRound(g, connected, id, p, ch, id);
      JoinKeepsRound(g, id, Newcomer(id, p.data));
    } else {
      GameChangesOnlyBy(g, connected, id, p, ch);
    }
  }

  /** No player leaves and no round is scored during the run. */
  ghost predicate Undisturbed(w: World, es: seq<Event>)
    requires IsRun(w, es)
    decreases |es|
  {
    es != [] ==>
      var next := Step(w, es[0]);
      w.game.players.Keys <= next.game.players.Keys && next.rounds == w.rounds && Undisturbed(next, es[1..])
  }

  lemma StepKeepsRound(w: World, e: Event, next: World)
    requires Sound(w) && Enabled(w, e) && next == Step(w, e) && w.game.active
    requires w.game.players.Keys <= next.game.players.Keys && next.rounds == w.rounds
    ensures SameRound(w.game, next.game)
  {
    match e
    case Receive(id, p, ch) =>
      HandleKeys(w.game, true, id, p, ch);
      ScoredByLastVoteOnly(w.game, true, id, p, ch);
      CallbackKeepsRound(w.game, true, id, p, ch);
    case FinalLeave(id, ch) =>
      HandleKeys(w.game, false, id, LEAVE_PACKET, ch);
      CallbackKeepsRound(w.game, false, id, LEAVE_PACKET, ch);
    case _ =>
  }

  lemma SameRoundTwice(a: Game, b: Game, c: Game)
    requires SameRound(a, b) && SameRound(b, c)
    ensures SameRound(a, c)
  {
  }

  /** Until a player leaves or the round is scored, the round stays as it is: liar, topic, word, the roles and scores of
      its players, and their votes. Whoever joins has no role in it. */
  lemma {:induction false} RoundStands(w: World, es: seq<Event>)
    requires Sound(w) && IsRun(w, es) && Undisturbed(w, es) && w.game.active
    ensures Sound(Run(w, es)) && SameRound(w.game, Run(w, es).game)
    decreases |es|
  {
    if es != [] {
      var next := Step(w, es[0]);
      StepKeepsRound(w, es[0], next);
      StepKeepsSound(w, es[0]);
      RoundStands(next, es[1..]);
      SameRoundTwice(w.game, next.game, Run(w, es).game);
    }
  }

  /** Somebody who joined after the round began is no guesser of it and not the liar, and is paid nothing when it is
      scored, even for a vote for the liar. */
  lemma LateJoinersEarnNothing(w: World, es: seq<Event>, e: Event, c: u32)
    requires Sound(w) && IsRun(w, es) && Undisturbed(w, es) && w.game.active
    requires c in Run(w, es).game.players && c !in w.game.players
    requires Enabled(Run(w, es), e) && Step(Run(w, es), e).rounds > w.rounds == Run(w, es).rounds
    ensures !IsGuesser(Run(w, es).game, c) && c != Run(w, es).game.liarId
    ensures var after := Step(Run(w, es), e).game;
      c in after.players && after.players[c].score == 0
  {
    var last := Run(w, es);
    RoundStands(w, es);
    match e
    case Receive(id, p, ch) =>
      ScoredByLastVoteOnly(last.game, true, id, p, ch);
      PaidByPoints(last.game, id, p, ch, c);
    case FinalLeave(id, ch) =>
      ScoredByLastVoteOnly(last.game, false, id, LEAVE_PACKET, ch);
    case _ =>
  }

  /** A player without a role gains nothing from the last vote. */
  lemma PaidByPoints(g: Game, id: u32, p: Packet, ch: Choice, c: u32)
    requires Settled(g) && Possible(g, id, p, ch) && Casts(g, true, id, p) && IsLastVoter(g, id)
    requires c in g.players && g.players[c].role == NoRole
    ensures var after := Handle(g, true, id, p, ch).game.players;
      c in after && after[c].score == g.players[c].score
  {
    var _, target, _ := LastVoteEndsRound(g, id, p, ch, c);
    var voted, after := WithVote(g, id, target), Handle(g, true, id, p, ch).game.players;
    assert Points(voted, c) == 0;
    assert View(PaidTable(voted))[c].score == g.players[c].score;
    assert c in View(after);
  }
}
