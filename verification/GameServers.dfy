/** The game server's packet callback as it runs on the game state object and the connections, proved to do what
    `Handlers` says. */
module GameServers {
  import opened Bytes
  import opened Packets
  import opened Messages
  import opened Votes
  import opened Rules
  import opened GameStates
  import opened Codec
  import opened Handlers
  import opened Scoring
  import opened Worlds
  import opened Tracking
  import Seqs

  lemma PostedTwice(out: map<u32, seq<Msg>>, a: seq<Effect>, b: seq<Effect>)
    ensures Posted(Posted(out, a), b) == Posted(out, a + b)
  {
    forall c | c in out
      ensures Posted(Posted(out, a), b)[c] == Posted(out, a + b)[c]
    {
      ReceivedAppend(c, a, b);
      Seqs.Assoc(out[c], Received(c, a), Received(c, b));
    }
  }

  /** One send, seen stream by stream. */
  lemma PostedOne(before: map<u32, seq<Msg>>, after: map<u32, seq<Msg>>, e: Effect)
    requires after.Keys == before.Keys
    requires forall c :: c in after ==> after[c] == before[c] + match e
      case SendTo(id, m) => if id == c then [m] else []
      case Broadcast(m) => [m]
      case BroadcastExcept(id, m) => if id != c then [m] else []
    ensures after == Posted(before, [e])
  {
    forall c | c in after
      ensures after[c] == before[c] + Received(c, [e])
    {
      ReceivedOne(c, e);
    }
  }

  lemma PostedNothing(out: map<u32, seq<Msg>>)
    ensures Posted(out, []) == out
  {
    forall c | c in out
      ensures Posted(out, [])[c] == out[c]
    {
      Seqs.Empty(out[c]);
    }
  }

  // ------------------------------------- which choices each handler depends on ----

  /** Starting a round depends on the draws and on the walk that announces the roles. */
  predicate SameDraw(a: Choice, b: Choice) {
    a.roles == b.roles && a.liarId == b.liarId && a.topic == b.topic && a.word == b.word
  }

  lemma StartIgnoresWalks(g: Game, ch: Choice, round: Choice)
    requires SameDraw(ch, round) && Fits(ch, g.players.Keys) && Fits(round, g.players.Keys)
    ensures StartIfPossible(g, ch) == StartIfPossible(g, round)
  {
  }

  lemma FinishIgnoresLookup(g: Game, ch: Choice, lookup: seq<u32>)
    requires Fits(ch, g.players.Keys) && IsWalk(ch.ballots, Tally(g.votes).Keys)
    requires IsWalk(lookup, g.players.Keys)
    ensures FinishRound(g, ch.(lookup := lookup)) == FinishRound(g, ch)
  {
    PaidKeepsKeys(g, VerdictOf(g, ch.ballots));
    StartIgnoresWalks(Paid(g, VerdictOf(g, ch.ballots)), ch, ch.(lookup := lookup));
  }

  // ----------------------------------------------------------------- loops ----

  /** The loops that take blanks off the end. */
  method StripRight(text: bytes) returns (s: bytes)
    ensures s == TrimRight(text)
  {
    s := text;
    while s != [] && IsBlank(s[|s| - 1])
      invariant TrimRight(s) == TrimRight(text)
    {
      s := s[..|s| - 1];
    }
  }

  /** The loop that takes spaces off the front. */
  method StripLeft(text: bytes) returns (s: bytes)
    ensures s == TrimLeft(text)
  {
    s := text;
    while s != [] && s[0] == 32
      invariant TrimLeft(s) == TrimLeft(text)
    {
      s := s[1..];
    }
  }

  /** The loop that picks the winner, over the tally in any order. */
  method FindWinner(tally: map<u32, nat>) returns (winnerId: u32, maxVotes: nat, ghost walk: seq<u32>)
    ensures IsWalk(walk, tally.Keys)
    ensures (winnerId, maxVotes) == Plurality(tally, walk)
    ensures forall t :: t in tally ==> tally[t] <= maxVotes
    ensures if maxVotes == 0 then winnerId == 0 else winnerId in tally && tally[winnerId] == maxVotes
  {
    winnerId, maxVotes, walk := 0, 0, [];
    var unvisited := tally.Keys;
    while unvisited != {}
      invariant unvisited <= tally.Keys
      invariant IsWalk(walk, tally.Keys - unvisited)
      invariant (winnerId, maxVotes) == Plurality(tally, walk)
      decreases |unvisited|
    {
      var targetId :| targetId in unvisited;
      unvisited := unvisited - {targetId};
      if tally[targetId] > maxVotes {
        maxVotes := tally[targetId];
        winnerId := targetId;
      }
      Seqs.Split(walk, [targetId]);
      walk := walk + [targetId];
    }
    PluralityIsMaximum(tally, walk);
  }

  /** The loop that looks a player up by name, stopping at the first match. */
  method FindByName(states: seq<PlayerState>, name: bytes, ghost players: Players, ghost walk: seq<u32>)
    returns (targetId: u32)
    requires (forall id :: id in walk ==> id in players) && states == States(players, walk)
    ensures targetId == FirstNamed(players, walk, name)
  {
    targetId := 0;
    var i := 0;
    ghost var rest := walk;
    while i < |states|
      invariant 0 <= i <= |states| && |rest| == |walk| - i
      invariant forall k :: 0 <= k < |rest| ==> rest[k] == walk[i + k]
      invariant FirstNamed(players, walk, name) == FirstNamed(players, rest, name)
    {
      if states[i].username == name {
        targetId := states[i].id;
        return;
      }
      i := i + 1;
      rest := rest[1..];
    }
  }

  class GameServer {
    const gameState: GameState
    /** The open connections, each with what has been sent on it. */
    var out: map<u32, seq<Msg>>
    /** The streams when the callback began, and the sends it has made since. */
    ghost var streams: map<u32, seq<Msg>>
    ghost var sent: seq<Effect>

    constructor ()
      ensures gameState.Valid() && gameState.Value() == EMPTY && out == map[] && Logged()
      ensures fresh(gameState)
    {
      gameState := new GameState();
      out, streams, sent := map[], map[], [];
    }

    /** The streams hold what the sends have put there. */
    ghost predicate Logged()
      reads this
    {
      out == Posted(streams, sent)
    }

    ghost method Log(e: Effect)
      requires out == Posted(Posted(streams, sent), [e])
      modifies this`sent
      ensures Logged() && sent == old(sent) + [e]
    {
      PostedTwice(streams, sent, [e]);
      sent := sent + [e];
    }

    /** Sending to a client whose connection is gone does nothing. */
    method SendPacket(id: u32, m: Msg)
      requires Logged()
      modifies this`out, this`sent
      ensures Logged() && sent == old(sent) + [SendTo(id, m)]
    {
      ghost var before := out;
      if id in out {
        out := out[id := out[id] + [m]];
      }
      assert forall c :: c in before && c != id ==> before[c] + [] == before[c];
      PostedOne(before, out, SendTo(id, m));
      Log(SendTo(id, m));
    }

    method SendBroadcast(m: Msg)
      requires Logged()
      modifies this`out, this`sent
      ensures Logged() && sent == old(sent) + [Broadcast(m)]
    {
      AppendToOthers(m, None);
      PostedOne(old(out), out, Broadcast(m));
      Log(Broadcast(m));
    }

    method SendBroadcastExcept(id: u32, m: Msg)
      requires Logged()
      modifies this`out, this`sent
      ensures Logged() && sent == old(sent) + [BroadcastExcept(id, m)]
    {
      AppendToOthers(m, Some(id));
      PostedOne(old(out), out, BroadcastExcept(id, m));
      Log(BroadcastExcept(id, m));
    }

    /** The loop of both broadcasts over the open connections, in any order. */
    method AppendToOthers(m: Msg, except: Option<u32>)
      modifies this`out
      ensures out.Keys == old(out.Keys)
      ensures forall c :: c in out ==> out[c] == old(out)[c] + if except == Some(c) then [] else [m]
    {
      ghost var before := out;
      var active := out.Keys;
      while active != {}
        invariant active <= out.Keys == before.Keys
        invariant forall c :: c in active ==> out[c] == before[c]
        invariant forall c :: c in out && c !in active ==> out[c] == before[c] + if except == Some(c) then [] else [m]
        decreases |active|
      {
        var connId :| connId in active;
        active := active - {connId};
        if except != Some(connId) {
          out := out[connId := out[connId] + [m]];
        } else {
          Seqs.Empty(out[connId]);
        }
      }
    }

    /** The loop that announces the roles. */
    method SendRoles(states: seq<PlayerState>, topic: bytes, word: bytes, ghost players: Players, ghost walk: seq<u32>)
      requires Logged()
      requires (forall id :: id in walk ==> id in players) && states == States(players, walk)
      modifies this`out, this`sent
      ensures Logged() && sent == old(sent) + RoleSends(players, walk, topic, word)
    {
      ghost var more := RoleSends(players, walk, topic, word);
      Seqs.Empty(walk);
      var i := 0;
      while i < |states|
        invariant 0 <= i <= |states| && Logged()
        invariant more == RoleSends(players, walk[i..], topic, word)
        invariant sent + more == old(sent) + RoleSends(players, walk, topic, word)
      {
        var player := states[i];
        ghost var before := sent;
        Seqs.DropTwice(walk, i, 1);
        more := RoleSends(players, walk[i + 1..], topic, word);
        if player.role == Liar {
          SendPacket(player.id, Assign(RoleAssignment(player.id, Liar, topic, [])));
          Seqs.ConsSnoc(before, SendTo(player.id, Assign(RoleAssignment(player.id, Liar, topic, []))), more);
        } else if player.role == Guesser {
          SendPacket(player.id, Assign(RoleAssignment(player.id, Guesser, topic, word)));
          Seqs.ConsSnoc(before, SendTo(player.id, Assign(RoleAssignment(player.id, Guesser, topic, word))), more);
        } else {
          Seqs.Empty(more);
        }
        i := i + 1;
      }
      Seqs.Empty(sent);
    }

    // ----------------------------------------------------------- new round ----

    method StartNewRoundIfPossible() returns (ghost ch: Choice)
      requires gameState.Valid() && Logged()
      modifies this`out, this`sent, gameState
      ensures gameState.Valid() && Logged()
      ensures Fits(ch, old(gameState.players.Keys))
      ensures var o := StartIfPossible(old(gameState.Value()), ch);
        gameState.Value() == o.game && sent == old(sent) + o.effects
    {
      ghost var g := gameState.Value();
      ch := AnyChoice(g.players.Keys);
      Seqs.Empty(sent);
      var count := |gameState.players|;
      if count < 3 || count > 6 || gameState.roundActive {
        return;
      }
      gameState.StartNewRound();
      var topic, word, liarId := gameState.currentTopic, gameState.currentWord, gameState.currentLiarId;
      ghost var started := gameState.Value();
      assert started.players.Keys == g.players.Keys;
      ch := ch.(liarId := liarId, topic := topic, word := word);
      if liarId == 0 || topic == [] {
        return;
      }
      var allPlayerStates, walk := gameState.GetAllPlayerStates();
      ch := ch.(roles := walk);
      SendRoles(allPlayerStates, topic, word, gameState.players, walk);
    }

    // ---------------------------------------------------------------- join ----

    method OnPlayerJoin(clientId: u32, data: bytes) returns (ghost ch: Choice)
      requires gameState.Valid() && Logged() && clientId != 0
      modifies this`out, this`sent, gameState
      ensures gameState.Valid() && Logged()
      ensures Fits(ch, old(gameState.players.Keys) + {clientId})
      ensures var o := JoinStep(old(gameState.Value()), clientId, data, ch);
        gameState.Value() == o.game && sent == old(sent) + o.effects
    {
      ghost var g := gameState.Value();
      var username := DefaultName(clientId);
      if |data| > 0 {
        username := data;
      }
      var added := gameState.AddPlayer(clientId, username);
      if !added {
        assert g.players.Keys + {clientId} == g.players.Keys;
        ch := AnyChoice(g.players.Keys);
        Seqs.Empty(sent);
        return;
      }
      ghost var joined := gameState.Value();
      AddedIsCoherent(g, clientId, username);
      var allPlayers, states := gameState.GetAllPlayerStates();
      SendPacket(clientId, StateUpdate(allPlayers));
      var newPlayer := gameState.players[clientId];
      SendBroadcastExcept(clientId, Joined(newPlayer));
      ghost var round := StartNewRoundIfPossible();
      ch := round.(states := states);
      StartIgnoresWalks(joined, ch, round);
      TwoSends(old(sent), SendTo(clientId, StateUpdate(allPlayers)), BroadcastExcept(clientId, Joined(newPlayer)),
               StartIfPossible(joined, round).effects);
    }

    static lemma TwoSends(before: seq<Effect>, first: Effect, second: Effect, more: seq<Effect>)
      ensures before + [first] + [second] + more == before + ([first, second] + more)
    {
    }

    // --------------------------------------------------------------- leave ----

    method OnPlayerLeave(clientId: u32) returns (ghost ch: Choice)
      requires gameState.Valid() && Logged()
      modifies this`out, this`sent, gameState
      ensures gameState.Valid() && Logged()
      ensures Fits(ch, old(gameState.players.Keys) - {clientId})
      ensures var o := LeaveStep(old(gameState.Value()), clientId, ch);
        gameState.Value() == o.game && sent == old(sent) + o.effects
    {
      ghost var g := gameState.Value();
      if clientId !in gameState.players {
        assert g.players.Keys - {clientId} == g.players.Keys;
        ch := AnyChoice(g.players.Keys);
        Seqs.Empty(sent);
        return;
      }
      var leavingPlayer := gameState.players[clientId];
      RemoveAndClear(clientId);
      SendBroadcastExcept(clientId, Left(leavingPlayer));
      var allPlayers, states := gameState.GetAllPlayerStates();
      SendBroadcast(StateUpdate(allPlayers));
      ghost var round;
      if |gameState.players| < 3 {
        round := AnyChoice(gameState.players.Keys);
        Seqs.Empty(sent);
      } else {
        round := StartNewRoundIfPossible();
      }
      ch := round.(states := states);
      LeaveThenStarts(g, clientId, ch);
      StartIgnoresWalks(Departed(g, clientId), ch, round);
      TwoSends(old(sent), BroadcastExcept(clientId, Left(leavingPlayer)), Broadcast(StateUpdate(allPlayers)),
               StartIfPossible(Departed(g, clientId), round).effects);
    }

    /** Takes the player out, and the round with it if one is active. */
    method RemoveAndClear(clientId: u32)
      requires gameState.Valid() && clientId in gameState.players
      modifies gameState
      ensures gameState.Valid()
      ensures gameState.Value() == Departed(old(gameState.Value()), clientId)
      ensures gameState.players.Keys == old(gameState.players.Keys) - {clientId}
    {
      DepartedIsCoherent(gameState.Value(), clientId);
      var roundWasActive := gameState.roundActive;
      var removed := gameState.RemovePlayer(clientId);
      if roundWasActive {
        gameState.ClearRound();
      }
    }

    // ---------------------------------------------------------------- vote ----

    /** The loop that counts the players who have voted. */
    method CountVotes() returns (votesCount: nat)
      ensures votesCount == |HaveVoted(gameState.Value())|
    {
      votesCount := 0;
      ghost var counted: set<u32> := {};
      var unvisited := gameState.players.Keys;
      while unvisited != {}
        invariant unvisited <= gameState.players.Keys
        invariant counted == set id | id in gameState.players && id !in unvisited && id in gameState.votes
        invariant votesCount == |counted|
        decreases |unvisited|
      {
        var id :| id in unvisited;
        unvisited := unvisited - {id};
        if gameState.HasPlayerVoted(id) {
          votesCount := votesCount + 1;
          counted := counted + {id};
        }
      }
      assert counted == HaveVoted(gameState.Value());
    }

    /** The tally, the winner, and the majority test. */
    method Judge() returns (tally: map<u32, nat>, v: Verdict, ghost ballots: seq<u32>)
      requires gameState.Valid()
      ensures tally == Tally(gameState.votes) && IsWalk(ballots, tally.Keys)
      ensures v == VerdictOf(gameState.Value(), ballots)
      ensures v.hasMajority <==> exists target :: VotedOut(gameState.Value(), target)
      ensures v.liarCaught <==> VotedOut(gameState.Value(), gameState.currentLiarId)
    {
      var totalPlayers := |gameState.players|;
      tally := gameState.GetVoteTally();
      var liarId := gameState.currentLiarId;
      var winnerId, maxVotes, walk := FindWinner(tally);
      ballots := walk;
      var hasMajority := maxVotes > totalPlayers / 2;
      var liarCaught := hasMajority && winnerId == liarId;
      v := Verdict(winnerId, hasMajority, liarCaught);
      OutcomeByCounting(gameState.Value(), ballots);
    }

    /** What follows the last vote. */
    method EndRound() returns (ghost ch: Choice)
      requires gameState.Valid() && Logged()
      modifies this`out, this`sent, gameState
      ensures gameState.Valid() && Logged()
      ensures Fits(ch, old(gameState.players.Keys))
      ensures IsWalk(ch.ballots, Tally(old(gameState.votes)).Keys)
      ensures var o := FinishRound(old(gameState.Value()), ch);
        gameState.Value() == o.game && sent == old(sent) + o.effects
    {
      ghost var g := gameState.Value();
      var tally, v, ballots := Judge();
      var result := VoteResult(tally, v.winnerId, v.liarCaught);
      SendBroadcast(Result(result));
      PayAndClear(v.liarCaught, v.winnerId, v.hasMajority);
      var allPlayersUpdate, states := gameState.GetAllPlayerStates();
      SendBroadcast(StateUpdate(allPlayersUpdate));
      ghost var round := StartNewRoundIfPossible();
      ch := round.(states := states, ballots := ballots);
      StartIgnoresWalks(Paid(g, v), ch, round);
      TwoSends(old(sent), Broadcast(Result(result)), Broadcast(StateUpdate(allPlayersUpdate)),
               StartIfPossible(Paid(g, v), round).effects);
    }

    method PayAndClear(liarCaught: bool, winnerId: u32, hasMajority: bool)
      requires gameState.Valid()
      modifies gameState
      ensures gameState.Valid()
      ensures gameState.Value() == Paid(old(gameState.Value()), Verdict(winnerId, hasMajority, liarCaught))
      ensures gameState.players.Keys == old(gameState.players.Keys)
    {
      PaidIsCoherent(gameState.Value(), Verdict(winnerId, hasMajority, liarCaught));
      gameState.CalculateAndApplyScores(liarCaught, winnerId, hasMajority);
      gameState.ClearRound();
    }

    /** A vote for the player of that name; the last vote ends the round. */
    method OnVote(clientId: u32, targetName: bytes) returns (ghost ch: Choice)
      requires gameState.Valid() && Logged()
      modifies this`out, this`sent, gameState
      ensures gameState.Valid() && Logged()
      ensures var g := old(gameState.Value());
        && Fits(ch, g.players.Keys)
        && IsWalk(ch.ballots, Tally(Voted(g, clientId, TargetOf(g, targetName, ch)).votes).Keys)
        && gameState.Value() == VoteStep(g, clientId, targetName, ch).game
        && sent == old(sent) + VoteStep(g, clientId, targetName, ch).effects
    {
      ghost var g := gameState.Value();
      Seqs.Empty(sent);
      var allPlayers, lookup := gameState.GetAllPlayerStates();
      var targetId := FindByName(allPlayers, targetName, gameState.players, lookup);
      ch := AnyChoice(g.players.Keys);
      ghost var ballots := SomeWalk(Tally(Voted(g, clientId, targetId).votes).Keys);
      ch := ch.(lookup := lookup, ballots := ballots);
      if targetId == 0 {
        return;
      }
      var accepted := gameState.SubmitVote(clientId, targetId);
      if !accepted {
        return;
      }
      ghost var counted := CountAndEnd();
      ch := counted.(lookup := lookup);
      CountIgnoresLookup(Voted(g, clientId, targetId), counted, lookup);
    }

    /** The check after an accepted vote. */
    method CountAndEnd() returns (ghost ch: Choice)
      requires gameState.Valid() && Logged()
      modifies this`out, this`sent, gameState
      ensures gameState.Valid() && Logged()
      ensures Fits(ch, old(gameState.players.Keys))
      ensures IsWalk(ch.ballots, Tally(old(gameState.votes)).Keys)
      ensures var o := CountStep(old(gameState.Value()), ch);
        gameState.Value() == o.game && sent == old(sent) + o.effects
    {
      var totalPlayers := |gameState.players|;
      var votesCount := CountVotes();
      if votesCount >= totalPlayers {
        ch := EndRound();
      } else {
        ch := AnyChoice(gameState.players.Keys);
        ghost var ballots := SomeWalk(Tally(gameState.votes).Keys);
        ch := ch.(ballots := ballots);
        Seqs.Empty(sent);
      }
    }

    // ---------------------------------------------------------------- chat ----

    method OnChatMessage(clientId: u32, data: bytes) returns (ghost ch: Choice)
      requires gameState.Valid() && Logged()
      modifies this`out, this`sent, gameState
      ensures gameState.Valid() && Logged()
      ensures var g := old(gameState.Value());
        && Fits(ch, g.players.Keys) && BallotsFit(g, clientId, data, ch)
        && gameState.Value() == ChatStep(g, clientId, data, ch).game
        && sent == old(sent) + ChatStep(g, clientId, data, ch).effects
    {
      ghost var g := gameState.Value();
      Seqs.Empty(sent);
      var message := StripRight(data);
      if |message| > 6 && message[..6] == VOTE_PREFIX {
        if !gameState.roundActive {
          ch := AnyChoice(g.players.Keys);
          ghost var target := TargetOf(g, VotedName(message), ch);
          ghost var ballots := SomeWalk(Tally(Voted(g, clientId, target).votes).Keys);
          ch := ch.(ballots := ballots);
          return;
        }
        var targetName := StripLeft(message[6..]);
        targetName := StripRight(targetName);
        ch := OnVote(clientId, targetName);
        return;
      }
      ch := AnyChoice(g.players.Keys);
      var username := DefaultName(clientId);
      if clientId in gameState.players && gameState.players[clientId].id != 0 {
        username := gameState.players[clientId].username;
      }
      SendBroadcast(Chat(ChatMessage(clientId, username, message)));
    }

    // ------------------------------------------------------------ dispatch ----

    /** The packet callback: for the choices `ch` it made, the game and the streams are what `Handle` says. */
    method PacketCallback(packet: Packet, clientId: u32) returns (ghost ch: Choice)
      requires gameState.Valid() && clientId != 0
      modifies this, gameState
      ensures gameState.Valid()
      ensures var g, connected := old(gameState.Value()), clientId in old(out);
        && Possible(g, clientId, packet, ch)
        && gameState.Value() == Handle(g, connected, clientId, packet, ch).game
        && out == Posted(old(out), Handle(g, connected, clientId, packet, ch).effects)
    {
      ghost var g := gameState.Value();
      streams, sent := out, [];
      PostedNothing(out);
      if packet.kind == PLAYER_JOIN {
        ch := OnPlayerJoin(clientId, packet.data);
      } else if packet.kind == CHAT_MESSAGE && clientId in out {
        ch := OnChatMessage(clientId, packet.data);
      } else if packet.kind == PLAYER_LEAVE {
        ch := OnPlayerLeave(clientId);
      } else {
        ch := SomeChoice(g, clientId, packet);
      }
      Seqs.Empty(sent);
    }
  }

  lemma CountIgnoresLookup(g: Game, ch: Choice, lookup: seq<u32>)
    requires Fits(ch, g.players.Keys) && IsWalk(ch.ballots, Tally(g.votes).Keys)
    requires IsWalk(lookup, g.players.Keys)
    ensures CountStep(g, ch.(lookup := lookup)) == CountStep(g, ch)
  {
    FinishIgnoresLookup(g, ch, lookup);
  }

  lemma AnyChoice(ids: set<u32>) returns (ch: Choice)
    ensures Fits(ch, ids)
  {
    var walk := SomeWalk(ids);
    var liarId: u32 := if walk == [] then 0 else walk[0];
    ch := Choice(walk, [], walk, walk, liarId, [70], []);
    if ids != {} {
      var id :| id in ids;
      assert id in walk && walk[0] in walk;
    }
  }

  lemma SomeChoice(g: Game, id: u32, p: Packet) returns (ch: Choice)
    requires p.kind != PLAYER_JOIN && p.kind != PLAYER_LEAVE
    ensures Possible(g, id, p, ch)
  {
    ch := AnyChoice(g.players.Keys);
    if p.kind == CHAT_MESSAGE && CommandIn(p.data).Some? {
      var target := TargetOf(g, CommandIn(p.data).value, ch);
      var ballots := SomeWalk(Tally(Voted(g, id, target).votes).Keys);
      ch := ch.(ballots := ballots);
    }
  }
}
