/** What one run of the packet callback does as seen from outside: the game before and after, and what each client is
    sent. Nothing here refers to how the callback goes about it. */
module Conduct {
  import opened Bytes
  import opened Packets
  import opened Messages
  import opened Votes
  import opened Rules
  import opened GameStates
  import opened Codec
  import opened Handlers
  import opened Commands
  import opened Scoring
  import opened Replicas
  import opened Worlds
  import opened Tracking
  import opened Secrecy
  import Seqs

  // ------------------------------------------------------- before and after a round ----

  /** The round drawn by `ch` has just begun. */
  ghost predicate FreshRound(g: Game, ch: Choice) {
    && g.active && g.votes == map[]
    && g.liarId == ch.liarId && g.topic == ch.topic && g.word == ch.word
    && ch.liarId in g.players
    && forall id :: id in g.players ==> g.players[id].role == if id == ch.liarId then Liar else Guesser
  }

  ghost predicate NoRound(g: Game) {
    && !g.active && g.votes == map[] && g.liarId == 0 && g.topic == [] && g.word == []
    && forall id :: id in g.players ==> g.players[id].role == NoRole
  }

  /** Three to six players are in a fresh round, others in none. */
  ghost predicate NextRound(g: Game, ch: Choice) {
    if 3 <= |g.players| <= 6 then FreshRound(g, ch) else NoRound(g)
  }

  /** What client `c` is told about the round that has just begun, if one has. */
  function News(g: Game, ch: Choice, c: u32): seq<Msg> {
    if !g.active || c !in g.players then []
    else if c == ch.liarId then [Assign(RoleAssignment(c, Liar, ch.topic, []))]
    else [Assign(RoleAssignment(c, Guesser, ch.topic, ch.word))]
  }

  /** The same ids, names and scores, in a round drawn by `ch` if they are three to six. */
  ghost predicate Redealt(table: Players, after: Game, ch: Choice) {
    && View(after.players) == View(table)
    && NextRound(after, ch)
  }

  ghost predicate AllIdle(players: Players) {
    forall id :: id in players ==> players[id].role == NoRole
  }

  lemma SizeByKeys(a: Players, b: Players)
    requires View(a) == View(b)
    ensures a.Keys == b.Keys && |a| == |b|
  {
    assert forall id :: id in a <==> id in View(a);
    assert forall id :: id in b <==> id in View(b);
    SameCount(a, b);
  }

  lemma StartDeals(g: Game, ch: Choice)
    requires Inv(g) && !g.active && Fits(ch, g.players.Keys)
    ensures Redealt(g.players, StartIfPossible(g, ch).game, ch)
    ensures StartIfPossible(g, ch).game.active <==> CanStart(g)
  {
    StartIsInert(g, ch, 0);
    SizeByKeys(g.players, StartIfPossible(g, ch).game.players);
    if CanStart(g) {
      StartSends(g, ch);
    }
  }

  lemma StartTells(g: Game, ch: Choice, c: u32)
    requires Inv(g) && !g.active && Fits(ch, g.players.Keys)
    ensures Received(c, StartIfPossible(g, ch).effects) == News(StartIfPossible(g, ch).game, ch, c)
  {
    StartDeals(g, ch);
    SizeByKeys(g.players, StartIfPossible(g, ch).game.players);
    if CanStart(g) {
      RolesAreAnnounced(g, ch, c);
    }
  }

  /** Two sends and then the next round, if there can be one. */
  lemma SendsThenDeal(first: Effect, second: Effect, g: Game, ch: Choice, scored: bool, c: u32)
    requires Inv(g) && !g.active && Fits(ch, g.players.Keys)
    ensures var o := ThenStart([first, second], g, ch, scored);
      && o.scored == scored && Redealt(g.players, o.game, ch)
      && Received(c, o.effects) == Received(c, [first]) + Received(c, [second]) + News(o.game, ch, c)
  {
    StartDeals(g, ch);
    StartTells(g, ch, c);
    ReceivedTwo(c, first, second, StartIfPossible(g, ch).effects);
  }

  // ------------------------------------------------------------------ listings ----

  /** A table listed along a walk: every player once, as the table has it. */
  lemma ListingIsTheTable(players: Players, walk: seq<u32>)
    requires IsWalk(walk, players.Keys)
    ensures var ss := States(players, walk);
      && |ss| == |players|
      && (forall i :: 0 <= i < |ss| ==> walk[i] in players && ss[i] == players[walk[i]])
      && (forall id :: id in players ==> exists i :: 0 <= i < |ss| && walk[i] == id)
  {
    WalkLength(walk, players.Keys);
    forall id | id in players
      ensures exists i :: 0 <= i < |walk| && walk[i] == id
    {
      assert id in walk;
    }
  }

  // ---------------------------------------------------------------------- join ----

  function Newcomer(id: u32, data: bytes): PlayerState {
    PlayerState(id, if data != [] then data else DefaultName(id), NoRole, 0)
  }

  /** A client that is a player already changes nothing by joining again. */
  lemma JoiningTwice(g: Game, connected: bool, id: u32, p: Packet, ch: Choice)
    requires p.kind == PLAYER_JOIN && id in g.players && Possible(g, id, p, ch)
    ensures Handle(g, connected, id, p, ch) == Outcome(g, [], false)
  {
  }

  /** Joining during a round: the newcomer has no role and no points, and nothing else changes. The newcomer is sent the
      whole table, every other client the newcomer. */
  lemma JoinInRound(g: Game, connected: bool, id: u32, p: Packet, ch: Choice, c: u32)
    requires Settled(g) && id != 0 && p.kind == PLAYER_JOIN && id !in g.players && Possible(g, id, p, ch)
    requires g.active
    ensures var o, table := Handle(g, connected, id, p, ch), g.players[id := Newcomer(id, p.data)];
      && IsWalk(ch.states, table.Keys)
      && o.game == Game(table, g.votes, g.liarId, g.topic, g.word, true) && !o.scored
      && Received(c, o.effects) == [if c == id then StateUpdate(States(table, ch.states)) else Joined(Newcomer(id, p.data))]
  {
    var joined := Added(g, id, Newcomer(id, p.data).username);
    JoinedTable(g, id, p.data, ch);
    JoinTells(SendTo(id, StateUpdate(States(joined.players, ch.states))),
              BroadcastExcept(id, Joined(joined.players[id])), joined, ch, c);
  }

  lemma JoinTells(first: Effect, second: Effect, joined: Game, ch: Choice, c: u32)
    requires joined.active && Fits(ch, joined.players.Keys)
    requires first.SendTo? && second.BroadcastExcept? && first.id == second.id
    ensures var o := ThenStart([first, second], joined, ch, false);
      && o.game == joined && !o.scored
      && Received(c, o.effects) == [if c == first.id then first.msg else second.msg]
  {
    ReceivedTwo(c, first, second, []);
    ReceivedOne(c, first);
    ReceivedOne(c, second);
  }

  lemma JoinedTable(g: Game, id: u32, data: bytes, ch: Choice)
    requires id !in g.players && Fits(ch, g.players.Keys + {id})
    ensures var joined := Added(g, id, Newcomer(id, data).username);
      && joined.players == g.players[id := Newcomer(id, data)]
      && joined.players.Keys == g.players.Keys + {id}
      && JoinStep(g, id, data, ch)
         == ThenStart([SendTo(id, StateUpdate(States(joined.players, ch.states))),
                       BroadcastExcept(id, Joined(joined.players[id]))], joined, ch, false)
  {
  }

  /** Joining between rounds: the same sends, and with the newcomer a round begins if they are three to six. */
  lemma JoinBetweenRounds(g: Game, connected: bool, id: u32, p: Packet, ch: Choice, c: u32)
    requires Settled(g) && id != 0 && p.kind == PLAYER_JOIN && id !in g.players && Possible(g, id, p, ch)
    requires !g.active
    ensures var o, table := Handle(g, connected, id, p, ch), g.players[id := Newcomer(id, p.data)];
      && IsWalk(ch.states, table.Keys)
      && Redealt(table, o.game, ch) && !o.scored
      && Received(c, o.effects)
         == [if c == id then StateUpdate(States(table, ch.states)) else Joined(Newcomer(id, p.data))]
            + News(o.game, ch, c)
  {
    var joined := Added(g, id, Newcomer(id, p.data).username);
    JoinedTable(g, id, p.data, ch);
    AddedIsCoherent(g, id, Newcomer(id, p.data).username);
    JoinDeals(SendTo(id, StateUpdate(States(joined.players, ch.states))),
              BroadcastExcept(id, Joined(joined.players[id])), joined, ch, c);
  }

  lemma JoinDeals(first: Effect, second: Effect, joined: Game, ch: Choice, c: u32)
    requires Inv(joined) && !joined.active && Fits(ch, joined.players.Keys)
    requires first.SendTo? && second.BroadcastExcept? && first.id == second.id
    ensures var o := ThenStart([first, second], joined, ch, false);
      && !o.scored && Redealt(joined.players, o.game, ch)
      && Received(c, o.effects) == [if c == first.id then first.msg else second.msg] + News(o.game, ch, c)
  {
    SendsThenDeal(first, second, joined, ch, false, c);
    ReceivedOne(c, first);
    ReceivedOne(c, second);
  }

  // --------------------------------------------------------------------- leave ----

  /** Everybody but `id`, without a role. */
  function Remaining(players: Players, id: u32): Players {
    map x | x in players && x != id :: players[x].(role := NoRole)
  }

  lemma DepartedTable(g: Game, id: u32)
    requires Inv(g)
    ensures Departed(g, id).players == Remaining(g.players, id) && !Departed(g, id).active
    ensures Remaining(g.players, id).Keys == g.players.Keys - {id}
  {
  }

  /** A leave ends the round, whoever leaves and however far it was. The remaining players are in a fresh round if they
      are three to six, and in none otherwise. Everybody is sent who left, the table, and the new role if there is
      one. */
  lemma LeaveRedeals(g: Game, connected: bool, id: u32, p: Packet, ch: Choice, c: u32)
    requires Settled(g) && p.kind == PLAYER_LEAVE && id in g.players && Possible(g, id, p, ch)
    ensures var o, table := Handle(g, connected, id, p, ch), Remaining(g.players, id);
      && IsWalk(ch.states, table.Keys)
      && Redealt(table, o.game, ch) && !o.scored
      && Received(c, o.effects)
         == (if c == id then [] else [Left(g.players[id])]) + [StateUpdate(States(table, ch.states))]
            + News(o.game, ch, c)
  {
    var left := Departed(g, id);
    LeaveThenStarts(g, id, ch);
    DepartedIsCoherent(g, id);
    DepartedTable(g, id);
    SendsThenDeal(BroadcastExcept(id, Left(g.players[id])), Broadcast(StateUpdate(States(left.players, ch.states))),
                  left, ch, false, c);
    ReceivedOne(c, BroadcastExcept(id, Left(g.players[id])));
    ReceivedOne(c, Broadcast(StateUpdate(States(left.players, ch.states))));
  }

  // ---------------------------------------------------------------------- chat ----

  /** Text that is no vote command goes to everybody, without the blanks at its end, under the sender's name. */
  lemma ChatGoesToAll(g: Game, id: u32, p: Packet, ch: Choice, text: bytes, c: u32)
    requires Inv(g) && p.kind == CHAT_MESSAGE && Possible(g, id, p, ch)
    requires IsTextOf(text, p.data) && !(VOTE_PREFIX <= text)
    ensures var o := Handle(g, true, id, p, ch);
      && o.game == g && !o.scored
      && Received(c, o.effects)
         == [Chat(ChatMessage(id, if id in g.players then g.players[id].username else DefaultName(id), text))]
  {
    WhatIsNoCommand(p.data, text);
    TextIsTrimmed(text, p.data);
    ReceivedOne(c, Broadcast(Chat(ChatMessage(id, SenderName(g, id), text))));
  }

  /** Packets of other types, joins and leaves that are none, and chat from a client that is no longer listed: nothing
      changes and nobody is sent anything. */
  lemma OtherwiseNothing(g: Game, connected: bool, id: u32, p: Packet, ch: Choice)
    requires Possible(g, id, p, ch)
    requires match p.kind
      case 10 => id in g.players
      case 13 => id !in g.players
      case 16 => !connected
      case _ => true
    ensures Handle(g, connected, id, p, ch) == Outcome(g, [], false)
  {
  }

  // --------------------------------------------------------------------- votes ----

  /** The packet is a vote that counts: a player who has not voted names a player in an active round. */
  ghost predicate Casts(g: Game, connected: bool, id: u32, p: Packet) {
    && connected && p.kind == CHAT_MESSAGE
    && g.active && id in g.players && id !in g.votes
    && exists name, target :: IsVoteFor(p.data, name) && Named(g.players, target, name)
  }

  /** The game with the vote added. */
  function WithVote(g: Game, voter: u32, target: u32): Game {
    Game(g.players, g.votes[voter := target], g.liarId, g.topic, g.word, g.active)
  }

  /** The sender is the only player who has not voted yet. */
  predicate IsLastVoter(g: Game, id: u32) {
    g.players.Keys - g.votes.Keys == {id}
  }

  /** A vote packet that does not count does nothing. */
  lemma UncountedVote(g: Game, connected: bool, id: u32, p: Packet, name: bytes, ch: Choice)
    requires Inv(g) && p.kind == CHAT_MESSAGE && Possible(g, id, p, ch) && IsVoteFor(p.data, name)
    requires !Casts(g, connected, id, p)
    ensures Handle(g, connected, id, p, ch) == Outcome(g, [], false)
  {
    CommandIsWhatIsSaid(p.data, name);
    if connected && g.active {
      WhenVotesCount(g, id, name, ch);
    }
  }

  lemma CountedVote(g: Game, id: u32, p: Packet, ch: Choice) returns (name: bytes, target: u32)
    requires Inv(g) && Possible(g, id, p, ch) && Casts(g, true, id, p)
    ensures IsVoteFor(p.data, name) && Named(g.players, target, name)
    ensures target == TargetOf(g, name, ch) && CommandIn(p.data) == Some(name)
    ensures IsWalk(ch.ballots, Tally(WithVote(g, id, target).votes).Keys)
    ensures Handle(g, true, id, p, ch) == CountStep(WithVote(g, id, target), ch)
  {
    var t: u32;
    name, t :| IsVoteFor(p.data, name) && Named(g.players, t, name);
    CommandIsWhatIsSaid(p.data, name);
    WhenVotesCount(g, id, name, ch);
    target := TargetOf(g, name, ch);
  }

  lemma LastIsMissing(all: set<u32>, some: set<u32>, id: u32)
    requires some <= all && id in all && id !in some
    ensures some + {id} == all <==> all - some == {id}
  {
  }

  lemma VoteKeepsInv(g: Game, id: u32, target: u32)
    requires Inv(g) && AcceptsVote(g, id, target)
    ensures Inv(WithVote(g, id, target))
  {
    ApplyKeepsInv(g, SubmitVote(id, target));
    assert WithVote(g, id, target) == Voted(g, id, target);
  }

  lemma LastVoteCovers(g: Game, id: u32, target: u32)
    requires Inv(g) && id in g.players && id !in g.votes && target in g.players && g.active
    ensures Inv(WithVote(g, id, target))
    ensures |HaveVoted(WithVote(g, id, target))| >= |g.players| <==> IsLastVoter(g, id)
  {
    var voted := WithVote(g, id, target);
    VoteKeepsInv(g, id, target);
    AllVotedMeansCovered(voted);
    LastIsMissing(g.players.Keys, g.votes.Keys, id);
    assert voted.votes.Keys == g.votes.Keys + {id};
  }

  /** A vote that counts but is not the last: it is recorded, for a player of that name, nothing else changes, and nobody
      is sent anything. */
  lemma VoteBeforeLast(g: Game, id: u32, p: Packet, ch: Choice) returns (name: bytes, target: u32)
    requires Inv(g) && Possible(g, id, p, ch) && Casts(g, true, id, p) && !IsLastVoter(g, id)
    ensures IsVoteFor(p.data, name) && Named(g.players, target, name)
    ensures Handle(g, true, id, p, ch) == Outcome(WithVote(g, id, target), [], false)
  {
    name, target := CountedVote(g, id, p, ch);
    LastVoteCovers(g, id, target);
  }

  /** Everybody with the points the count gives, without a role. */
  ghost function PaidTable(g: Game): Players {
    map id | id in g.players :: PlayerState(id, g.players[id].username, NoRole, g.players[id].score + Points(g, id))
  }

  /** The result announces the exact tally, whether the liar was caught, and a target with the most votes, which is the
      one with a majority if there is one. */
  ghost predicate Announces(r: VoteResult, g: Game) {
    && r.tally == Tally(g.votes)
    && (r.liarCaught <==> VotedOut(g, g.liarId))
    && (forall t :: VotedOut(g, t) ==> r.winnerId == t)
    && r.winnerId in r.tally
    && forall t :: t in r.tally ==> r.tally[t] <= r.tally[r.winnerId]
  }

  lemma PaidIsCounted(g: Game, v: Verdict, ch: Choice)
    requires Inv(g) && g.active && g.liarId != 0
    requires IsWalk(ch.ballots, Tally(g.votes).Keys) && v == VerdictOf(g, ch.ballots)
    ensures Paid(g, v).players == PaidTable(g) && !Paid(g, v).active && Inv(Paid(g, v))
    ensures PaidTable(g).Keys == g.players.Keys
  {
    OutcomeByCounting(g, ch.ballots);
    ScoredPays(g, v);
    PaidIsCoherent(g, v);
    ScoredKeepsKeys(g, v.liarCaught, v.winnerId, v.hasMajority);
    SamePlayers(g, Scored(g, v.liarCaught, v.winnerId, v.hasMajority).players);
  }

  lemma SamePlayers(g: Game, scored: Players)
    requires scored.Keys == g.players.Keys
    requires forall id :: id in g.players ==>
      g.players[id].id == id && scored[id] == g.players[id].(score := g.players[id].score + Points(g, id))
    ensures WithoutRoles(scored) == PaidTable(g)
  {
  }

  lemma ResultAnnounces(g: Game, ch: Choice)
    requires Inv(g) && g.votes != map[] && IsWalk(ch.ballots, Tally(g.votes).Keys)
    ensures var v := VerdictOf(g, ch.ballots);
      Announces(VoteResult(Tally(g.votes), v.winnerId, v.liarCaught), g)
  {
    OutcomeByCounting(g, ch.ballots);
    PluralityIsMaximum(Tally(g.votes), ch.ballots);
    WinnerIsATarget(g.votes, ch.ballots);
  }

  /** The end of a round whose votes are all in. */
  lemma FinishDoes(g: Game, ch: Choice, c: u32) returns (r: VoteResult)
    requires Inv(g) && g.active && g.liarId != 0 && g.votes != map[]
    requires Fits(ch, g.players.Keys) && IsWalk(ch.ballots, Tally(g.votes).Keys)
    ensures var o, table := FinishRound(g, ch), PaidTable(g);
      && IsWalk(ch.states, table.Keys)
      && Announces(r, g) && Redealt(table, o.game, ch) && o.scored
      && Received(c, o.effects) == [Result(r)] + [StateUpdate(States(table, ch.states))] + News(o.game, ch, c)
  {
    var v := VerdictOf(g, ch.ballots);
    r := VoteResult(Tally(g.votes), v.winnerId, v.liarCaught);
    ResultAnnounces(g, ch);
    PaidIsCounted(g, v, ch);
    SendsThenDeal(Broadcast(Result(r)), Broadcast(StateUpdate(States(Paid(g, v).players, ch.states))),
                  Paid(g, v), ch, true, c);
    ReceivedOne(c, Broadcast(Result(r)));
    ReceivedOne(c, Broadcast(StateUpdate(States(Paid(g, v).players, ch.states))));
  }

  /** The last vote ends the round: every client is sent the result of the count and the new table, in which nobody has a
      role and everybody the points counted; then the next round begins if they are three to six. */
  lemma LastVoteEndsRound(g: Game, id: u32, p: Packet, ch: Choice, c: u32)
    returns (name: bytes, target: u32, r: VoteResult)
    requires Settled(g) && Possible(g, id, p, ch) && Casts(g, true, id, p) && IsLastVoter(g, id)
    ensures IsVoteFor(p.data, name) && Named(g.players, target, name)
    ensures var o, table := Handle(g, true, id, p, ch), PaidTable(WithVote(g, id, target));
      && IsWalk(ch.states, table.Keys)
      && Announces(r, WithVote(g, id, target)) && Redealt(table, o.game, ch) && o.scored
      && Received(c, o.effects) == [Result(r)] + [StateUpdate(States(table, ch.states))] + News(o.game, ch, c)
  {
    name, target := CountedVote(g, id, p, ch);
    LastVoteCovers(g, id, target);
    assert g.liarId != 0;
    var voted := WithVote(g, id, target);
    assert id in voted.votes;
    r := FinishDoes(voted, ch, c);
  }

  /** A round is scored exactly by the vote that counts of the only player who had not voted. */
  lemma ScoredByLastVoteOnly(g: Game, connected: bool, id: u32, p: Packet, ch: Choice)
    requires Settled(g) && id != 0 && Possible(g, id, p, ch)
    ensures Handle(g, connected, id, p, ch).scored <==> Casts(g, connected, id, p) && IsLastVoter(g, id)
  {
    if Casts(g, connected, id, p) {
      if IsLastVoter(g, id) {
        var _, _, _ := LastVoteEndsRound(g, id, p, ch, 0);
      } else {
        var _, _ := VoteBeforeLast(g, id, p, ch);
      }
    } else if p.kind == CHAT_MESSAGE && connected && CommandIn(p.data).Some? {
      CommandIsWhatIsSaid(p.data, CommandIn(p.data).value);
      UncountedVote(g, connected, id, p, CommandIn(p.data).value, ch);
    } else if p.kind == PLAYER_LEAVE && id in g.players {
      LeaveThenStarts(g, id, ch);
    }
  }

  /** Only a newcomer's join, a player's leave and a vote that counts change the game. */
  lemma GameChangesOnlyBy(g: Game, connected: bool, id: u32, p: Packet, ch: Choice)
    requires Inv(g) && Possible(g, id, p, ch)
    requires p.kind == PLAYER_JOIN ==> id in g.players
    requires p.kind == PLAYER_LEAVE ==> id !in g.players
    requires !Casts(g, connected, id, p)
    ensures Handle(g, connected, id, p, ch).game == g && !Handle(g, connected, id, p, ch).scored
  {
    if p.kind == CHAT_MESSAGE && CommandIn(p.data).Some? {
      CommandIsWhatIsSaid(p.data, CommandIn(p.data).value);
      UncountedVote(g, connected, id, p, CommandIn(p.data).value, ch);
    }
  }
}
