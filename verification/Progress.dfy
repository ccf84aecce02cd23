/** Rounds come to an end: each accepted vote brings the round closer to being scored. */
module Progress {
  import opened Bytes
  import opened Packets
  import opened Messages
  import opened Votes
  import opened Rules
  import opened GameStates
  import opened Codec
  import opened Handlers
  import opened Commands
  import opened Worlds
  import opened Conduct

  /** How many players have still to vote. */
  function Pending(g: Game): nat {
    |g.players.Keys - g.votes.Keys|
  }

  /** The packet is a vote command whose vote is recorded. */
  ghost predicate Accepts(g: Game, id: u32, p: Packet, ch: Choice)
    requires Possible(g, id, p, ch)
  {
    && p.kind == CHAT_MESSAGE && g.active && CommandIn(p.data).Some?
    && var target := TargetOf(g, CommandIn(p.data).value, ch);
       target != 0 && AcceptsVote(g, id, target)
  }

  ghost predicate IsAcceptedVote(w: World, e: Event)
    requires Enabled(w, e)
  {
    e.Receive? && Accepts(w.game, e.id, e.packet, e.ch)
  }

  ghost function AcceptedVotes(w: World, es: seq<Event>): nat
    requires IsRun(w, es)
    decreases |es|
  {
    if es == [] then 0
    else (if IsAcceptedVote(w, es[0]) then 1 else 0) + AcceptedVotes(Step(w, es[0]), es[1..])
  }

  /** Nobody joins or leaves the players during the run. */
  ghost predicate Steady(w: World, es: seq<Event>)
    requires IsRun(w, es)
    decreases |es|
  {
    es != [] ==>
      Step(w, es[0]).game.players.Keys == w.game.players.Keys && Steady(Step(w, es[0]), es[1..])
  }

  lemma PendingAfterVote(g: Game, voter: u32, target: u32)
    requires AcceptsVote(g, voter, target)
    ensures Pending(Voted(g, voter, target)) == Pending(g) - 1
  {
    var voted := Voted(g, voter, target);
    assert voted.players.Keys - voted.votes.Keys == g.players.Keys - g.votes.Keys - {voter};
  }

  /** Unless the round was scored, it goes on, one vote closer to its end if a vote was accepted. */
  ghost predicate Closer(g: Game, after: Game, scored: bool, accepted: bool) {
    !scored ==> after.active && Pending(after) == Pending(g) - if accepted then 1 else 0
  }

  lemma VoteCloser(g: Game, voter: u32, name: bytes, ch: Choice)
    requires g.active && Fits(ch, g.players.Keys)
    requires IsWalk(ch.ballots, Tally(Voted(g, voter, TargetOf(g, name, ch)).votes).Keys)
    ensures var o, target := VoteStep(g, voter, name, ch), TargetOf(g, name, ch);
      Closer(g, o.game, o.scored, target != 0 && AcceptsVote(g, voter, target))
  {
    if AcceptsVote(g, voter, TargetOf(g, name, ch)) {
      PendingAfterVote(g, voter, TargetOf(g, name, ch));
    }
  }

  lemma HandleCloser(g: Game, connected: bool, id: u32, p: Packet, ch: Choice)
    requires g.active && Possible(g, id, p, ch)
    requires Handle(g, connected, id, p, ch).game.players.Keys == g.players.Keys
    ensures var o := Handle(g, connected, id, p, ch);
      Closer(g, o.game, o.scored, connected && Accepts(g, id, p, ch))
  {
    HandleKeys(g, connected, id, p, ch);
    if p.kind == PLAYER_JOIN {
      JoinKeys(g, id, p.data, ch);
      assert id in g.players.Keys + {id};
    } else if p.kind == CHAT_MESSAGE && connected {
      match CommandIn(p.data)
      case Some(name) => VoteCloser(g, id, name, ch);
      case None =>
    }
  }

  lemma StepCloser(w: World, e: Event, after: World)
    requires Enabled(w, e) && after == Step(w, e) && w.game.active
    requires after.game.players.Keys == w.game.players.Keys
    ensures Closer(w.game, after.game, after.rounds != w.rounds, IsAcceptedVote(w, e))
  {
    match e
    case Receive(id, p, ch) => HandleCloser(w.game, true, id, p, ch);
    case FinalLeave(id, ch) => HandleCloser(w.game, false, id, LEAVE_PACKET, ch);
    case _ =>
  }

  lemma StepRounds(w: World, e: Event)
    requires Enabled(w, e)
    ensures w.rounds <= Step(w, e).rounds
  {
  }

  lemma {:induction false} RoundsNeverFall(w: World, es: seq<Event>)
    requires IsRun(w, es)
    ensures w.rounds <= Run(w, es).rounds
    decreases |es|
  {
    if es != [] {
      StepRounds(w, es[0]);
      RoundsNeverFall(Step(w, es[0]), es[1..]);
    }
  }

  /** Until the round is scored, the players still to vote are exactly those at the start less the votes accepted. */
  lemma {:induction false} PendingCountsDown(w: World, es: seq<Event>)
    requires IsRun(w, es) && Steady(w, es) && w.game.active
    requires Run(w, es).rounds == w.rounds
    ensures Run(w, es).game.active
    ensures Pending(Run(w, es).game) == Pending(w.game) - AcceptedVotes(w, es)
    decreases |es|
  {
    if es != [] {
      var next := Step(w, es[0]);
      StepRounds(w, es[0]);
      RoundsNeverFall(next, es[1..]);
      StepCloser(w, es[0], next);
      PendingCountsDown(next, es[1..]);
    }
  }

  lemma OpenRoundHasPending(g: Game)
    requires RoundIsOpen(g)
    ensures 0 < Pending(g) <= |g.players|
  {
    var id :| id in g.players && id !in g.votes;
    assert id in g.players.Keys - g.votes.Keys;
    SubsetCount(g.players.Keys - g.votes.Keys, g.players.Keys);
    assert |g.players.Keys| == |g.players|;
  }

  /** With no joins or leaves, an active round with n players is scored by the n-th accepted vote at the latest. */
  lemma RoundIsScored(w: World, es: seq<Event>)
    requires Sound(w) && IsRun(w, es) && Steady(w, es) && w.game.active
    requires AcceptedVotes(w, es) >= |w.game.players|
    ensures Run(w, es).rounds > w.rounds
  {
    RoundsNeverFall(w, es);
    if Run(w, es).rounds == w.rounds {
      PendingCountsDown(w, es);
      RunKeepsSound(w, es);
      OpenRoundHasPending(w.game);
      OpenRoundHasPending(Run(w, es).game);
    }
  }

  /** The votes counted above are the votes that a reader of the packets would count. */
  lemma AcceptedIsCast(g: Game, id: u32, p: Packet, ch: Choice)
    requires Inv(g) && Possible(g, id, p, ch)
    ensures Accepts(g, id, p, ch) <==> Casts(g, true, id, p)
  {
    if p.kind == CHAT_MESSAGE && CommandIn(p.data).Some? {
      var name := CommandIn(p.data).value;
      CommandIsWhatIsSaid(p.data, name);
      FirstNamedFinds(g.players, ch.lookup, name);
      assert forall target :: Named(g.players, target, name) ==> target in ch.lookup;
    }
    forall name | IsVoteFor(p.data, name)
      ensures CommandIn(p.data) == Some(name)
    {
      CommandIsWhatIsSaid(p.data, name);
    }
  }

  lemma ScoredStep(w: World, e: Event, after: World)
    requires Sound(w) && Enabled(w, e) && after == Step(w, e) && after.rounds > w.rounds
    ensures IsAcceptedVote(w, e) && Pending(w.game) == 1
  {
    match e
    case Receive(id, p, ch) =>
      ScoredByLastVoteOnly(w.game, true, id, p, ch);
      AcceptedIsCast(w.game, id, p, ch);
    case FinalLeave(id, ch) =>
      ScoredByLastVoteOnly(w.game, false, id, LEAVE_PACKET, ch);
    case _ =>
  }

  /** With no joins or leaves, an active round is scored exactly when as many votes have been accepted as there were
      players who had not voted: neither sooner nor later. */
  lemma {:induction false} RoundEndsWithLastVote(w: World, es: seq<Event>)
    requires Sound(w) && IsRun(w, es) && Steady(w, es) && w.game.active
    ensures Run(w, es).rounds > w.rounds <==> AcceptedVotes(w, es) >= Pending(w.game)
    decreases |es|
  {
    OpenRoundHasPending(w.game);
    if es != [] {
      var next := Step(w, es[0]);
      StepRounds(w, es[0]);
      RoundsNeverFall(next, es[1..]);
      if next.rounds > w.rounds {
        ScoredStep(w, es[0], next);
      } else {
        StepCloser(w, es[0], next);
        StepKeepsSound(w, es[0]);
        RoundEndsWithLastVote(next, es[1..]);
      }
    }
  }

  lemma CountKeepsVotes(g: Game, voted: Game, ch: Choice)
    requires Fits(ch, voted.players.Keys) && IsWalk(ch.ballots, Tally(voted.votes).Keys)
    requires forall v :: v in g.votes ==> v in voted.votes && voted.votes[v] == g.votes[v]
    ensures var o := CountStep(voted, ch);
      !o.scored ==> forall v :: v in g.votes ==> v in o.game.votes && o.game.votes[v] == g.votes[v]
  {
  }

  /** A recorded vote is never changed: it stands until the round is scored or somebody leaves. */
  lemma VotesStand(g: Game, connected: bool, id: u32, p: Packet, ch: Choice)
    requires Inv(g) && Possible(g, id, p, ch)
    ensures var o := Handle(g, connected, id, p, ch);
      !o.scored && (p.kind != PLAYER_LEAVE || id !in g.players) ==>
        forall v :: v in g.votes ==> v in o.game.votes && o.game.votes[v] == g.votes[v]
  {
    if p.kind == CHAT_MESSAGE && connected && CommandIn(p.data).Some? && g.active {
      var target := TargetOf(g, CommandIn(p.data).value, ch);
      if target != 0 && AcceptsVote(g, id, target) {
        CountKeepsVotes(g, Voted(g, id, target), ch);
      }
    }
  }

  /** The documentation promises that the next round starts immediately after scoring. It does, with no votes and all
      roles drawn anew, exactly when no more than six players are there; late joiners can make them more. */
  lemma NextRoundStartsAtOnce(g: Game, ch: Choice)
    requires Inv(g) && |g.players| >= 3
    requires Fits(ch, g.players.Keys) && IsWalk(ch.ballots, Tally(g.votes).Keys)
    ensures var next := FinishRound(g, ch).game;
      && next.votes == map[]
      && (next.active <==> |g.players| <= 6)
      && (next.active ==> RoundIsOpen(next) && next.liarId == ch.liarId)
  {
    FinishSettles(g, ch);
  }

  /** Seven players, three of them from the start of the round, who have all voted for the liar. */
  ghost const CROWD := Game(map id: u32 | 1 <= id <= 7 :: PlayerState(id, [64 + id], RoleInCrowd(id), 0),
                            map id: u32 | 1 <= id <= 7 :: 1, 1, [70], [71], true)

  function RoleInCrowd(id: u32): Role {
    if id == 1 then Liar else if id <= 3 then Guesser else NoRole
  }

  lemma CrowdCount()
    ensures |CROWD.players| == 7
  {
    assert CROWD.players.Keys == {1, 2, 3, 4, 5, 6, 7};
    assert |CROWD.players.Keys| == |CROWD.players|;
  }

  lemma CrowdIsCoherent()
    ensures Inv(CROWD)
  {
    assert 1 in CROWD.players;
  }

  /** Such a crowd is left without a round. */
  lemma CrowdStalls(ch: Choice)
    requires Fits(ch, CROWD.players.Keys) && IsWalk(ch.ballots, Tally(CROWD.votes).Keys)
    ensures CROWD.votes.Keys == CROWD.players.Keys
    ensures !FinishRound(CROWD, ch).game.active
  {
    CrowdCount();
    CrowdIsCoherent();
    FinishSettles(CROWD, ch);
  }
}
