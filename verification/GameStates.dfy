/** The game state object of the server: the methods that change it in place, each tied to its rule. */
module GameStates {
  import opened Bytes
  import opened Messages
  import opened Votes
  import opened Rules

  /** The player states along one walk of the player table. */
  function States(players: Players, walk: seq<u32>): seq<PlayerState>
    requires forall id :: id in walk ==> id in players
  {
    seq(|walk|, i requires 0 <= i < |walk| => players[walk[i]])
  }

  predicate IsTopic(topic: bytes) {
    topic != []
  }

  class GameState {
    var players: Players
    var roundActive: bool
    var currentTopic: bytes
    var currentWord: bytes
    var currentLiarId: u32
    /** Voter to target. */
    var votes: map<u32, u32>

    constructor ()
      ensures Value() == EMPTY && Valid()
    {
      players, votes := map[], map[];
      roundActive, currentTopic, currentWord, currentLiarId := false, [], [], 0;
    }

    function Value(): Game
      reads this
    {
      Game(players, votes, currentLiarId, currentTopic, currentWord, roundActive)
    }

    ghost predicate Valid()
      reads this
    {
      Inv(Value())
    }

    method AddPlayer(id: u32, username: bytes) returns (added: bool)
      requires Valid() && id != 0
      modifies this
      ensures Valid()
      ensures added == (id !in old(players))
      ensures Value() == Added(old(Value()), id, username)
    {
      ApplyKeepsInv(Value(), Op.AddPlayer(id, username));
      if id in players {
        return false;
      }
      players := players[id := PlayerState(id, username, NoRole, 0)];
      return true;
    }

    method RemovePlayer(id: u32) returns (removed: bool)
      requires Valid()
      modifies this
      ensures Valid()
      ensures removed == (id in old(players))
      ensures Value() == Removed(old(Value()), id)
    {
      RemovedKeepsInv(Value(), id);
      if id !in players {
        return false;
      }
      EraseVotesOf(id);
      players := players - {id};
      if currentLiarId == id {
        currentLiarId := 0;
      }
      return true;
    }

    /** The loop that erases the player's own vote and every vote for the player. */
    method EraseVotesOf(id: u32)
      modifies this`votes
      ensures votes == VotesWithout(old(votes), id)
    {
      ghost var before := votes;
      votes := votes - {id};
      var unvisited := votes.Keys;
      while unvisited != {}
        invariant unvisited <= votes.Keys <= before.Keys - {id}
        invariant forall v :: v in votes ==> votes[v] == before[v]
        invariant forall v :: v in votes && v !in unvisited ==> votes[v] != id
        invariant forall v :: v in before && v != id && before[v] != id ==> v in votes
        decreases |unvisited|
      {
        var voter :| voter in unvisited;
        unvisited := unvisited - {voter};
        if votes[voter] == id {
          votes := votes - {voter};
        }
      }
      assert votes == VotesWithout(before, id);
    }

    /** A copy of every player, in whatever order the table yields them; `walk` records that order. */
    method GetAllPlayerStates() returns (states: seq<PlayerState>, ghost walk: seq<u32>)
      ensures IsWalk(walk, players.Keys)
      ensures states == States(players, walk)
      ensures |states| == |players|
    {
      states, walk := [], [];
      var unvisited := players.Keys;
      while unvisited != {}
        invariant unvisited <= players.Keys
        invariant IsWalk(walk, players.Keys - unvisited)
        invariant states == States(players, walk)
        decreases |unvisited|
      {
        var id :| id in unvisited;
        unvisited := unvisited - {id};
        states := states + [players[id]];
        walk := walk + [id];
      }
      WalkLength(walk, players.Keys);
    }

    method ClearAllPlayers()
      requires Valid()
      modifies this
      ensures Valid()
      ensures Value() == EMPTY
    {
      players := map[];
      ClearRound();
    }

    method ClearRound()
      modifies this
      ensures Value() == Cleared(old(Value()))
    {
      roundActive := false;
      currentTopic := [];
      currentWord := [];
      currentLiarId := 0;
      votes := map[];
      ClearRoles();
    }

    /** The loop over the player table that takes the roles away. */
    method ClearRoles()
      modifies this`players
      ensures players == WithoutRoles(old(players))
    {
      ghost var before := players;
      var unvisited := players.Keys;
      while unvisited != {}
        invariant unvisited <= players.Keys == before.Keys
        invariant forall id :: id in unvisited ==> players[id] == before[id]
        invariant forall id :: id in players && id !in unvisited ==> players[id] == before[id].(role := NoRole)
        decreases |unvisited|
      {
        var id :| id in unvisited;
        unvisited := unvisited - {id};
        players := players[id := players[id].(role := NoRole)];
      }
      assert players == WithoutRoles(before);
    }

    /** Some topic and some word of it: any pair from a table whose topics have names. */
    method PickRandomTopicAndWord() returns (topic: bytes, word: bytes)
      ensures IsTopic(topic)
    {
      assert IsTopic([70, 111, 111, 100]);
      topic :| IsTopic(topic);
      word := *;
    }

    /** Draws a topic, a word and a liar; they are read back from the fields, as the caller does. */
    method StartNewRound()
      requires Valid()
      modifies this
      ensures Valid()
      ensures Value() == Started(old(Value()), currentLiarId, currentTopic, currentWord)
      ensures CanStart(old(Value())) ==> currentLiarId in players && currentTopic != []
    {
      if |players| < 3 || |players| > 6 {
        return;
      }
      ClearRound();
      assert players.Keys == old(players.Keys) != {};
      DrawRound();
      SameRoles(old(players), currentLiarId);
      StartedKeepsInv(old(Value()), currentLiarId, currentTopic, currentWord);
    }

    /** The random draws, the loop over the table, and the flag. */
    method DrawRound()
      requires players.Keys != {}
      modifies this`players, this`currentTopic, this`currentWord, this`currentLiarId, this`roundActive
      ensures players == WithRoles(old(players), currentLiarId)
      ensures currentLiarId in players && IsTopic(currentTopic) && roundActive
    {
      currentTopic, currentWord := PickRandomTopicAndWord();
      var liarId :| liarId in players.Keys;
      currentLiarId := liarId;
      AssignRoles();
      roundActive := true;
    }

    /** Handing out roles does not depend on the roles held before. */
    static lemma SameRoles(before: Players, liarId: u32)
      ensures WithRoles(WithoutRoles(before), liarId) == WithRoles(before, liarId)
    {
    }

    /** The loop over the player table that hands out the roles. */
    method AssignRoles()
      modifies this`players
      ensures players == WithRoles(old(players), currentLiarId)
    {
      ghost var before := players;
      var unvisited := players.Keys;
      while unvisited != {}
        invariant unvisited <= players.Keys == before.Keys
        invariant forall id :: id in unvisited ==> players[id] == before[id]
        invariant forall id :: id in players && id !in unvisited ==>
                    players[id] == before[id].(role := if id == currentLiarId then Liar else Guesser)
        decreases |unvisited|
      {
        var id :| id in unvisited;
        unvisited := unvisited - {id};
        if id == currentLiarId {
          players := players[id := players[id].(role := Liar)];
        } else {
          players := players[id := players[id].(role := Guesser)];
        }
      }
      assert players == WithRoles(before, currentLiarId);
    }

    method SubmitVote(voterId: u32, targetId: u32) returns (accepted: bool)
      requires Valid()
      modifies this`votes
      ensures Valid()
      ensures accepted == AcceptsVote(old(Value()), voterId, targetId)
      ensures Value() == Voted(old(Value()), voterId, targetId)
    {
      if !roundActive || voterId in votes || voterId !in players || targetId !in players {
        return false;
      }
      votes := votes[voterId := targetId];
      return true;
    }

    function HasPlayerVoted(id: u32): bool
      reads this
    {
      id in votes
    }

    /** Counts the votes one by one, in whatever order the container yields them. */
    method GetVoteTally() returns (tally: map<u32, nat>)
      ensures tally == Tally(votes)
      ensures forall target :: target in tally ==> tally[target] == |Voters(votes, target)|
    {
      tally := map[];
      ghost var counted: map<u32, u32> := map[];
      var unvisited := votes.Keys;
      while unvisited != {}
        invariant unvisited <= votes.Keys
        invariant counted.Keys == votes.Keys - unvisited
        invariant forall v :: v in counted ==> counted[v] == votes[v]
        invariant tally == Tally(counted)
        decreases |unvisited|
      {
        var voterId :| voterId in unvisited;
        unvisited := unvisited - {voterId};
        var targetId := votes[voterId];
        TallyAfterVote(counted, voterId, targetId);
        tally := tally[targetId := 1 + if targetId in tally then tally[targetId] else 0];
        counted := counted[voterId := targetId];
      }
      assert counted == votes;
    }

    method ClearVotes()
      requires Valid()
      modifies this`votes
      ensures Valid()
      ensures Value() == old(Value()).(votes := map[])
    {
      votes := map[];
    }

    method CalculateAndApplyScores(liarCaught: bool, votedOutId: u32, hasMajority: bool)
      requires Valid()
      modifies this`players
      ensures Valid()
      ensures Value() == Scored(old(Value()), liarCaught, votedOutId, hasMajority)
    {
      ScoredKeepsInv(Value(), liarCaught, votedOutId, hasMajority);
      if !roundActive || currentLiarId == 0 {
        return;
      }
      if liarCaught && votedOutId == currentLiarId && hasMajority {
        RewardDetectives();
      } else if !liarCaught && hasMajority && votedOutId != currentLiarId {
        ghost var before := players;
        if currentLiarId in players {
          players := players[currentLiarId := players[currentLiarId].(score := players[currentLiarId].score + 2)];
        }
        assert players == Awarded(before, {currentLiarId}, 2);
      }
    }

    /** The loop that gives a point to each guesser who voted for the liar. */
    method RewardDetectives()
      modifies this`players
      ensures players == Awarded(old(players), Detectives(old(Value())), 1)
    {
      ghost var before, detectives := players, Detectives(Value());
      var unvisited := players.Keys;
      while unvisited != {}
        invariant unvisited <= players.Keys == before.Keys
        invariant forall id :: id in unvisited ==> players[id] == before[id]
        invariant forall id :: id in players && id !in unvisited ==> players[id] == Rewarded(before[id], id in detectives)
        decreases |unvisited|
      {
        var id :| id in unvisited;
        unvisited := unvisited - {id};
        if players[id].role == Guesser && id in votes && votes[id] == currentLiarId {
          players := players[id := players[id].(score := players[id].score + 1)];
        }
      }
      assert players == Awarded(before, detectives, 1);
    }

    static function Rewarded(p: PlayerState, detective: bool): PlayerState {
      if detective then p.(score := p.score + 1) else p
    }
  }
}
