/** What the server's packet callback does, as a function of the game, the packet and the choices left open. */
module Handlers {
  import opened Bytes
  import opened Packets
  import opened Messages
  import opened Votes
  import opened Rules
  import opened GameStates
  import opened Codec

  /** What one run of the callback leaves open: the order in which each unordered container is walked, and the draws
      of a new round. */
  datatype Choice = Choice(lookup: seq<u32>, ballots: seq<u32>, states: seq<u32>, roles: seq<u32>,
                           liarId: u32, topic: bytes, word: bytes)

  datatype Effect =
    | SendTo(id: u32, msg: Msg)
    | Broadcast(msg: Msg)
    | BroadcastExcept(id: u32, msg: Msg)

  /** The game afterwards, the sends in order, and whether a round was scored. */
  datatype Outcome = Outcome(game: Game, effects: seq<Effect>, scored: bool)

  /** The walks and draws are possible ones when `ids` are the players. */
  ghost predicate Fits(ch: Choice, ids: set<u32>) {
    && IsWalk(ch.lookup, ids)
    && IsWalk(ch.states, ids)
    && IsWalk(ch.roles, ids)
    && (ids != {} ==> ch.liarId in ids)
    && IsTopic(ch.topic)
  }

  // ---------------------------------------------------------- new round ----

  /** The role of each player along a walk: the liar learns the topic only, a guesser also the word. */
  function RoleSends(players: Players, walk: seq<u32>, topic: bytes, word: bytes): seq<Effect>
    requires forall id :: id in walk ==> id in players
  {
    if walk == [] then []
    else
      var p := players[walk[0]];
      (match p.role
       case Liar => [SendTo(p.id, Assign(RoleAssignment(p.id, Liar, topic, [])))]
       case Guesser => [SendTo(p.id, Assign(RoleAssignment(p.id, Guesser, topic, word)))]
       case _ => [])
      + RoleSends(players, walk[1..], topic, word)
  }

  function StartIfPossible(g: Game, ch: Choice): Outcome
    requires Fits(ch, g.players.Keys)
  {
    if !CanStart(g) || g.active then Outcome(g, [], false)
    else
      var started := Started(g, ch.liarId, ch.topic, ch.word);
      if started.liarId == 0 || started.topic == [] then Outcome(started, [], false)
      else Outcome(started, RoleSends(started.players, ch.roles, started.topic, started.word), false)
  }

  /** Some sends, and then the start of a round if that is possible. */
  function ThenStart(sends: seq<Effect>, g: Game, ch: Choice, scored: bool): Outcome
    requires Fits(ch, g.players.Keys)
  {
    var round := StartIfPossible(g, ch);
    Outcome(round.game, sends + round.effects, scored)
  }

  // --------------------------------------------------------------- join ----

  /** "Player " */
  const PLAYER_PREFIX: bytes := [80, 108, 97, 121, 101, 114, 32]

  function Decimal(n: nat): bytes {
    (if n < 10 then [] else Decimal(n / 10)) + [48 + n % 10]
  }

  function DefaultName(id: u32): bytes {
    PLAYER_PREFIX + Decimal(id)
  }

  function JoinStep(g: Game, id: u32, data: bytes, ch: Choice): Outcome
    requires Fits(ch, g.players.Keys + {id})
  {
    if id in g.players then Outcome(g, [], false)
    else
      var joined := Added(g, id, if |data| > 0 then data else DefaultName(id));
      ThenStart([SendTo(id, StateUpdate(States(joined.players, ch.states))),
                 BroadcastExcept(id, Joined(joined.players[id]))], joined, ch, false)
  }

  // --------------------------------------------------------------- chat ----

  predicate IsBlank(b: byte) {
    b == 32 || b == 10 || b == 13
  }

  function TrimRight(s: bytes): bytes {
    if s != [] && IsBlank(s[|s| - 1]) then TrimRight(s[..|s| - 1]) else s
  }

  function TrimLeft(s: bytes): bytes {
    if s != [] && s[0] == 32 then TrimLeft(s[1..]) else s
  }

  /** "/vote " */
  const VOTE_PREFIX: bytes := [47, 118, 111, 116, 101, 32]

  predicate IsVoteCommand(message: bytes) {
    |message| > 6 && message[..6] == VOTE_PREFIX
  }

  function VotedName(message: bytes): bytes
    requires IsVoteCommand(message)
  {
    TrimRight(TrimLeft(message[6..]))
  }

  /** The first player along the walk with that name, 0 if there is none. */
  function FirstNamed(players: Players, walk: seq<u32>, name: bytes): u32
    requires forall id :: id in walk ==> id in players
  {
    if walk == [] then 0
    else if players[walk[0]].username == name then players[walk[0]].id
    else FirstNamed(players, walk[1..], name)
  }

  /** The players who have voted. */
  function HaveVoted(g: Game): set<u32> {
    set id | id in g.players && id in g.votes
  }

  /** What the result loop and the majority test make of the votes. */
  datatype Verdict = Verdict(winnerId: u32, hasMajority: bool, liarCaught: bool)

  function VerdictOf(g: Game, ballots: seq<u32>): Verdict
    requires forall t :: t in ballots ==> t in Tally(g.votes)
  {
    var (winnerId, maxVotes) := Plurality(Tally(g.votes), ballots);
    var hasMajority := maxVotes > |g.players| / 2;
    Verdict(winnerId, hasMajority, hasMajority && winnerId == g.liarId)
  }

  /** The scores of the round are given and the round is cleared. */
  function Paid(g: Game, v: Verdict): Game {
    Cleared(Scored(g, v.liarCaught, v.winnerId, v.hasMajority))
  }

  /** The round ends: results to all, scores, a cleared state to all, and the next round if it can start. */
  function FinishRound(g: Game, ch: Choice): Outcome
    requires Fits(ch, g.players.Keys) && IsWalk(ch.ballots, Tally(g.votes).Keys)
  {
    var v := VerdictOf(g, ch.ballots);
    PaidKeepsKeys(g, v);
    ThenStart([Broadcast(Result(VoteResult(Tally(g.votes), v.winnerId, v.liarCaught))),
               Broadcast(StateUpdate(States(Paid(g, v).players, ch.states)))], Paid(g, v), ch, true)
  }

  function TargetOf(g: Game, name: bytes, ch: Choice): u32
    requires Fits(ch, g.players.Keys)
  {
    FirstNamed(g.players, ch.lookup, name)
  }

  /** The check after each accepted vote. */
  function CountStep(voted: Game, ch: Choice): Outcome
    requires Fits(ch, voted.players.Keys) && IsWalk(ch.ballots, Tally(voted.votes).Keys)
  {
    if |HaveVoted(voted)| >= |voted.players| then FinishRound(voted, ch) else Outcome(voted, [], false)
  }

  function VoteStep(g: Game, voter: u32, name: bytes, ch: Choice): Outcome
    requires Fits(ch, g.players.Keys)
    requires IsWalk(ch.ballots, Tally(Voted(g, voter, TargetOf(g, name, ch)).votes).Keys)
  {
    var target := TargetOf(g, name, ch);
    if target == 0 || !AcceptsVote(g, voter, target) then Outcome(g, [], false)
    else CountStep(Voted(g, voter, target), ch)
  }

  /** The vote command in a chat packet, if it is one. */
  function CommandIn(data: bytes): Option<bytes> {
    var message := TrimRight(data);
    if IsVoteCommand(message) then Some(VotedName(message)) else None
  }

  function SenderName(g: Game, id: u32): bytes {
    if id in g.players && g.players[id].id != 0 then g.players[id].username else DefaultName(id)
  }

  function ChatStep(g: Game, id: u32, data: bytes, ch: Choice): Outcome
    requires Fits(ch, g.players.Keys) && BallotsFit(g, id, data, ch)
  {
    match CommandIn(data)
    case Some(name) => if g.active then VoteStep(g, id, name, ch) else Outcome(g, [], false)
    case None => Outcome(g, [Broadcast(Chat(ChatMessage(id, SenderName(g, id), TrimRight(data))))], false)
  }

  /** The tally that a vote in this packet would lead to is the one `ch.ballots` walks. */
  ghost predicate BallotsFit(g: Game, id: u32, data: bytes, ch: Choice)
    requires Fits(ch, g.players.Keys)
  {
    match CommandIn(data)
    case Some(name) => IsWalk(ch.ballots, Tally(Voted(g, id, TargetOf(g, name, ch)).votes).Keys)
    case None => true
  }

  // -------------------------------------------------------------- leave ----

  /** The game without the player, and without the round if one was active. */
  function Departed(g: Game, id: u32): Game {
    if g.active then Cleared(Removed(g, id)) else Removed(g, id)
  }

  lemma DepartedKeys(g: Game, id: u32)
    ensures Departed(g, id).players.Keys == g.players.Keys - {id}
  {
  }

  function LeaveStep(g: Game, id: u32, ch: Choice): Outcome
    requires Fits(ch, g.players.Keys - {id})
  {
    if id !in g.players then Outcome(g, [], false)
    else
      DepartedKeys(g, id);
      var left := Departed(g, id);
      var sends := [BroadcastExcept(id, Left(g.players[id])), Broadcast(StateUpdate(States(left.players, ch.states)))];
      if |left.players| < 3 then Outcome(left, sends, false) else ThenStart(sends, left, ch, false)
  }

  /** The test for three players changes nothing: no round starts with fewer anyway. */
  lemma LeaveThenStarts(g: Game, id: u32, ch: Choice)
    requires id in g.players && Fits(ch, g.players.Keys - {id})
    ensures Departed(g, id).players.Keys == g.players.Keys - {id}
    ensures LeaveStep(g, id, ch)
         == ThenStart([BroadcastExcept(id, Left(g.players[id])),
                       Broadcast(StateUpdate(States(Departed(g, id).players, ch.states)))], Departed(g, id), ch, false)
  {
    DepartedKeys(g, id);
    var sends := [BroadcastExcept(id, Left(g.players[id])),
                  Broadcast(StateUpdate(States(Departed(g, id).players, ch.states)))];
    assert sends + [] == sends;
  }

  // ----------------------------------------------------------- dispatch ----

  /** The players once the packet has been handled. */
  function IdsAfter(g: Game, id: u32, kind: u16): set<u32> {
    if kind == PLAYER_JOIN then g.players.Keys + {id}
    else if kind == PLAYER_LEAVE then g.players.Keys - {id}
    else g.players.Keys
  }

  ghost predicate Possible(g: Game, id: u32, p: Packet, ch: Choice) {
    && Fits(ch, IdsAfter(g, id, p.kind))
    && (p.kind == CHAT_MESSAGE ==> BallotsFit(g, id, p.data, ch))
  }

  /** The callback; `connected` says whether the connection manager still lists the sender. */
  function Handle(g: Game, connected: bool, id: u32, p: Packet, ch: Choice): Outcome
    requires Possible(g, id, p, ch)
  {
    if p.kind == PLAYER_JOIN then JoinStep(g, id, p.data, ch)
    else if p.kind == CHAT_MESSAGE && connected then ChatStep(g, id, p.data, ch)
    else if p.kind == PLAYER_LEAVE then LeaveStep(g, id, ch)
    else Outcome(g, [], false)
  }

  lemma {:induction false} SomeWalk(s: set<u32>) returns (walk: seq<u32>)
    ensures IsWalk(walk, s)
    decreases |s|
  {
    if s == {} {
      walk := [];
    } else {
      var x :| x in s;
      var others := SomeWalk(s - {x});
      walk := [x] + others;
    }
  }

  // ----------------------------------------------- what the server keeps ----

  function Guessers(g: Game): set<u32> {
    set id | id in g.players && g.players[id].role == Guesser
  }

  /** What holds between any two runs of the callback. */
  ghost predicate Settled(g: Game) {
    && Inv(g)
    && (CanStart(g) ==> g.active)
    && (g.active ==> RoundIsOpen(g))
  }

  /** An active round has a liar, two to five guessers, and a player who has not voted. */
  ghost predicate RoundIsOpen(g: Game) {
    && |g.players| >= 3 && g.liarId in g.players
    && 2 <= |Guessers(g)| <= 5
    && exists id :: id in g.players && id !in g.votes
  }

  /** A fresh round, drawn for three to six players, is open. */
  lemma StartedIsOpen(g: Game, liarId: u32, topic: bytes, word: bytes)
    requires Inv(g) && CanStart(g) && liarId in g.players
    ensures RoundIsOpen(Started(g, liarId, topic, word))
  {
    var started := Started(g, liarId, topic, word);
    assert started.players.Keys == g.players.Keys;
    assert |g.players.Keys| == |g.players|;
    assert Guessers(started) == g.players.Keys - {liarId};
    assert liarId in started.players && liarId !in started.votes;
  }

  lemma StartSettles(g: Game, ch: Choice)
    requires Inv(g) && !g.active && Fits(ch, g.players.Keys)
    ensures Settled(StartIfPossible(g, ch).game)
    ensures StartIfPossible(g, ch).game.active == CanStart(g)
    ensures StartIfPossible(g, ch).game.players.Keys == g.players.Keys
  {
    if CanStart(g) {
      StartedKeepsInv(g, ch.liarId, ch.topic, ch.word);
      assert |g.players.Keys| == |g.players| > 0;
      StartedIsOpen(g, ch.liarId, ch.topic, ch.word);
      assert Started(g, ch.liarId, ch.topic, ch.word).players.Keys == g.players.Keys;
      assert |Started(g, ch.liarId, ch.topic, ch.word).players.Keys| == |g.players.Keys|;
    }
  }

  lemma SameCount(a: Players, b: Players)
    requires a.Keys == b.Keys
    ensures |a| == |b|
  {
    assert |a.Keys| == |a| && |b.Keys| == |b|;
  }

  /** Clearing a round and starting the next, which needs three to six players. */
  lemma ClearedSettles(g: Game, ch: Choice)
    requires Inv(g) && Fits(ch, g.players.Keys)
    ensures Cleared(g).players.Keys == g.players.Keys
    ensures Settled(StartIfPossible(Cleared(g), ch).game)
    ensures StartIfPossible(Cleared(g), ch).game.active == CanStart(g)
  {
    ApplyKeepsInv(g, ClearRound);
    SameCount(Cleared(g).players, g.players);
    StartSettles(Cleared(g), ch);
  }

  /** A newcomer has not voted and is no guesser, so an open round stays open. */
  lemma OpenForNewcomer(g: Game, id: u32, username: bytes)
    requires RoundIsOpen(g) && id !in g.players && id !in g.votes
    ensures RoundIsOpen(Added(g, id, username))
  {
    var joined := Added(g, id, username);
    assert Guessers(joined) == Guessers(g);
    assert id in joined.players && id !in joined.votes;
  }

  lemma AddedIsCoherent(g: Game, id: u32, name: bytes)
    requires Inv(g) && id != 0 && id !in g.players
    ensures Inv(Added(g, id, name)) && Added(g, id, name).players.Keys == g.players.Keys + {id}
  {
    ApplyKeepsInv(g, AddPlayer(id, name));
  }

  lemma NewcomerSettles(g: Game, id: u32, name: bytes, ch: Choice)
    requires Settled(g) && id !in g.players && Inv(Added(g, id, name)) && Fits(ch, Added(g, id, name).players.Keys)
    ensures Settled(StartIfPossible(Added(g, id, name), ch).game)
  {
    if g.active {
      OpenForNewcomer(g, id, name);
    } else {
      StartSettles(Added(g, id, name), ch);
    }
  }

  lemma JoinSettles(g: Game, id: u32, data: bytes, ch: Choice)
    requires Settled(g) && id != 0 && Fits(ch, g.players.Keys + {id})
    ensures Settled(JoinStep(g, id, data, ch).game)
  {
    if id !in g.players {
      var name := if |data| > 0 then data else DefaultName(id);
      AddedIsCoherent(g, id, name);
      NewcomerSettles(g, id, name, ch);
    }
  }

  /** All players' votes are in exactly when the votes are as many as the players. */
  lemma AllVotedMeansCovered(g: Game)
    requires Inv(g)
    ensures |HaveVoted(g)| == |g.votes|
    ensures |HaveVoted(g)| >= |g.players| <==> g.votes.Keys == g.players.Keys
  {
    assert HaveVoted(g) == g.votes.Keys;
    assert |g.players.Keys| == |g.players| && |g.votes.Keys| == |g.votes|;
    SubsetIsWhole(g.votes.Keys, g.players.Keys);
  }

  lemma ScoredKeepsKeys(g: Game, liarCaught: bool, votedOut: u32, hasMajority: bool)
    ensures Scored(g, liarCaught, votedOut, hasMajority).players.Keys == g.players.Keys
  {
  }

  lemma PaidKeepsKeys(g: Game, v: Verdict)
    ensures Paid(g, v).players.Keys == g.players.Keys
  {
    ScoredKeepsKeys(g, v.liarCaught, v.winnerId, v.hasMajority);
  }

  lemma FinishSettles(g: Game, ch: Choice)
    requires Inv(g) && Fits(ch, g.players.Keys) && IsWalk(ch.ballots, Tally(g.votes).Keys)
    ensures Settled(FinishRound(g, ch).game)
    ensures FinishRound(g, ch).game.active == CanStart(g)
  {
    var v := VerdictOf(g, ch.ballots);
    var scored := Scored(g, v.liarCaught, v.winnerId, v.hasMajority);
    ScoredKeepsInv(g, v.liarCaught, v.winnerId, v.hasMajority);
    ScoredKeepsKeys(g, v.liarCaught, v.winnerId, v.hasMajority);
    SameCount(scored.players, g.players);
    ClearedSettles(scored, ch);
  }

  /** A vote that is not the last one leaves somebody to vote. */
  lemma OpenAfterVote(g: Game, voted: Game)
    requires RoundIsOpen(g) && voted == g.(votes := voted.votes)
    requires Inv(voted) && |HaveVoted(voted)| < |voted.players|
    ensures RoundIsOpen(voted)
  {
    AllVotedMeansCovered(voted);
    assert Guessers(voted) == Guessers(g);
    SubsetIsWhole(voted.votes.Keys, voted.players.Keys);
  }

  lemma CountSettles(g: Game, voted: Game, ch: Choice)
    requires Settled(g) && g.active && voted == g.(votes := voted.votes) && Inv(voted)
    requires Fits(ch, voted.players.Keys) && IsWalk(ch.ballots, Tally(voted.votes).Keys)
    ensures Settled(CountStep(voted, ch).game)
  {
    if |HaveVoted(voted)| >= |voted.players| {
      FinishSettles(voted, ch);
    } else {
      OpenAfterVote(g, voted);
    }
  }

  lemma VoteSettles(g: Game, voter: u32, name: bytes, ch: Choice)
    requires Settled(g) && Fits(ch, g.players.Keys)
    requires IsWalk(ch.ballots, Tally(Voted(g, voter, TargetOf(g, name, ch)).votes).Keys)
    ensures Settled(VoteStep(g, voter, name, ch).game)
  {
    var target := TargetOf(g, name, ch);
    if target != 0 && AcceptsVote(g, voter, target) {
      ApplyKeepsInv(g, SubmitVote(voter, target));
      CountSettles(g, Voted(g, voter, target), ch);
    }
  }

  lemma LeaveSettles(g: Game, id: u32, ch: Choice)
    requires Settled(g) && Fits(ch, g.players.Keys - {id})
    ensures Settled(LeaveStep(g, id, ch).game)
  {
    if id in g.players {
      LeaveThenStarts(g, id, ch);
      RemovedKeepsInv(g, id);
      DepartedKeys(g, id);
      if g.active {
        assert Removed(g, id).players.Keys == g.players.Keys - {id};
        ClearedSettles(Removed(g, id), ch);
      } else {
        StartSettles(Removed(g, id), ch);
      }
    }
  }

  /** Every run of the callback, whatever the packet and the choices, leaves the game settled. */
  lemma HandleSettles(g: Game, connected: bool, id: u32, p: Packet, ch: Choice)
    requires Settled(g) && id != 0 && Possible(g, id, p, ch)
    ensures Settled(Handle(g, connected, id, p, ch).game)
  {
    if p.kind == PLAYER_JOIN {
      JoinSettles(g, id, p.data, ch);
    } else if p.kind == CHAT_MESSAGE && connected {
      match CommandIn(p.data)
      case Some(name) =>
        if g.active {
          VoteSettles(g, id, name, ch);
        }
      case None =>
    } else if p.kind == PLAYER_LEAVE {
      LeaveSettles(g, id, ch);
    }
  }
}
