/** The secret word reaches guessers only: runs that differ in the words drawn look the same to everybody else. */
module Secrecy {
  import opened Bytes
  import opened Packets
  import opened Messages
  import opened Votes
  import opened Rules
  import opened GameStates
  import opened Codec
  import opened Handlers
  import opened Replicas
  import opened Worlds
  import opened Tracking
  import Seqs

  /** A message without the word that a guesser's role carries. */
  function Redacted(m: Msg): Msg {
    if m.Assign? && m.assignment.role == Guesser then Assign(m.assignment.(secretWord := [])) else m
  }

  function RedactedAll(ms: seq<Msg>): seq<Msg> {
    if ms == [] then [] else [Redacted(ms[0])] + RedactedAll(ms[1..])
  }

  predicate TellsWord(m: Msg) {
    m.Assign? && m.assignment.role == Guesser
  }

  lemma {:induction false} RedactedAppend(a: seq<Msg>, b: seq<Msg>)
    ensures RedactedAll(a + b) == RedactedAll(a) + RedactedAll(b)
  {
    if a == [] {
      Seqs.Empty(b);
      Seqs.Empty(RedactedAll(b));
    } else {
      Seqs.TailOfAppend(a, b);
      RedactedAppend(a[1..], b);
      Seqs.Assoc([Redacted(a[0])], RedactedAll(a[1..]), RedactedAll(b));
    }
  }

  /** Messages that carry no word and are equal when redacted are equal. */
  lemma {:induction false} NothingToRedact(a: seq<Msg>, b: seq<Msg>)
    requires RedactedAll(a) == RedactedAll(b)
    requires forall i :: 0 <= i < |a| ==> !TellsWord(a[i])
    ensures a == b
    decreases |a|
  {
    if a == [] {
      assert |RedactedAll(b)| == 0;
    } else {
      assert RedactedAll(a)[0] == Redacted(a[0]) == a[0];
      assert b != [] && RedactedAll(b)[0] == Redacted(b[0]);
      assert RedactedAll(a)[1..] == RedactedAll(a[1..]);
      assert RedactedAll(b)[1..] == RedactedAll(b[1..]);
      NothingToRedact(a[1..], b[1..]);
    }
  }

  // ----------------------------------------------------- equal but for words ----

  ghost predicate SameGame(a: Game, b: Game) {
    a.(word := []) == b.(word := [])
  }

  ghost predicate SameChoice(a: Choice, b: Choice) {
    a.(word := []) == b.(word := [])
  }

  /** Both outcomes leave the same game and send client `c` the same, but for the word. */
  ghost predicate SameOutcome(a: Outcome, b: Outcome, c: u32) {
    && SameGame(a.game, b.game)
    && RedactedAll(Received(c, a.effects)) == RedactedAll(Received(c, b.effects))
    && a.scored == b.scored
  }

  lemma {:induction false} SameRoleSends(players: Players, walk: seq<u32>, topic: bytes, a: bytes, b: bytes, c: u32)
    requires forall id :: id in walk ==> id in players
    ensures RedactedAll(Received(c, RoleSends(players, walk, topic, a)))
         == RedactedAll(Received(c, RoleSends(players, walk, topic, b)))
    decreases |walk|
  {
    if walk != [] {
      SameRoleSends(players, walk[1..], topic, a, b, c);
      var p := players[walk[0]];
      var moreA, moreB := RoleSends(players, walk[1..], topic, a), RoleSends(players, walk[1..], topic, b);
      if p.role == Guesser {
        var toA := SendTo(p.id, Assign(RoleAssignment(p.id, Guesser, topic, a)));
        var toB := SendTo(p.id, Assign(RoleAssignment(p.id, Guesser, topic, b)));
        SameAppend(c, [toA], moreA, [toB], moreB);
      } else if p.role == Liar {
        var toLiar := SendTo(p.id, Assign(RoleAssignment(p.id, Liar, topic, [])));
        SameAppend(c, [toLiar], moreA, [toLiar], moreB);
      } else {
        Seqs.Empty(moreA);
        Seqs.Empty(moreB);
      }
    }
  }

  lemma SameAppend(c: u32, a: seq<Effect>, moreA: seq<Effect>, b: seq<Effect>, moreB: seq<Effect>)
    requires a == b || (|a| == |b| == 1 && a[0].SendTo? && b[0].SendTo? && a[0].id == b[0].id
                        && Redacted(a[0].msg) == Redacted(b[0].msg))
    requires RedactedAll(Received(c, moreA)) == RedactedAll(Received(c, moreB))
    ensures RedactedAll(Received(c, a + moreA)) == RedactedAll(Received(c, b + moreB))
  {
    ReceivedAppend(c, a, moreA);
    ReceivedAppend(c, b, moreB);
    RedactedAppend(Received(c, a), Received(c, moreA));
    RedactedAppend(Received(c, b), Received(c, moreB));
    if a != b {
      assert a == [a[0]] && b == [b[0]];
      ReceivedOne(c, a[0]);
      ReceivedOne(c, b[0]);
    }
  }

  lemma SameStart(a: Game, b: Game, chA: Choice, chB: Choice, c: u32)
    requires SameGame(a, b) && SameChoice(chA, chB) && Fits(chA, a.players.Keys)
    ensures SameOutcome(StartIfPossible(a, chA), StartIfPossible(b, chB), c)
  {
    if CanStart(a) && !a.active {
      var players := Started(a, chA.liarId, chA.topic, chA.word).players;
      assert players.Keys == a.players.Keys;
      SameRoleSends(players, chA.roles, chA.topic, chA.word, chB.word, c);
    }
  }

  lemma SameJoin(a: Game, b: Game, id: u32, data: bytes, chA: Choice, chB: Choice, c: u32)
    requires SameGame(a, b) && SameChoice(chA, chB) && Fits(chA, a.players.Keys + {id})
    ensures SameOutcome(JoinStep(a, id, data, chA), JoinStep(b, id, data, chB), c)
  {
    if id !in a.players {
      var name := if |data| > 0 then data else DefaultName(id);
      var joinedA, joinedB := Added(a, id, name), Added(b, id, name);
      assert joinedA.players.Keys == a.players.Keys + {id};
      SameStart(joinedA, joinedB, chA, chB, c);
      var sends := [SendTo(id, StateUpdate(States(joinedA.players, chA.states))),
                    BroadcastExcept(id, Joined(joinedA.players[id]))];
      SameAppend(c, sends, StartIfPossible(joinedA, chA).effects, sends, StartIfPossible(joinedB, chB).effects);
    }
  }

  lemma SamePaid(a: Game, b: Game, v: Verdict)
    requires SameGame(a, b)
    ensures Paid(a, v) == Paid(b, v)
  {
  }

  lemma SameFinish(a: Game, b: Game, chA: Choice, chB: Choice, c: u32)
    requires SameGame(a, b) && SameChoice(chA, chB)
    requires Fits(chA, a.players.Keys) && IsWalk(chA.ballots, Tally(a.votes).Keys)
    ensures SameOutcome(FinishRound(a, chA), FinishRound(b, chB), c)
  {
    var v := VerdictOf(a, chA.ballots);
    var paid := Paid(a, v);
    SamePaid(a, b, v);
    PaidKeepsKeys(a, v);
    SameStart(paid, paid, chA, chB, c);
    var sends := [Broadcast(Result(VoteResult(Tally(a.votes), v.winnerId, v.liarCaught))),
                  Broadcast(StateUpdate(States(paid.players, chA.states)))];
    SameAppend(c, sends, StartIfPossible(paid, chA).effects, sends, StartIfPossible(paid, chB).effects);
  }

  lemma SameCounted(a: Game, b: Game, chA: Choice, chB: Choice, c: u32)
    requires SameGame(a, b) && SameChoice(chA, chB)
    requires Fits(chA, a.players.Keys) && IsWalk(chA.ballots, Tally(a.votes).Keys)
    ensures SameOutcome(CountStep(a, chA), CountStep(b, chB), c)
  {
    assert HaveVoted(a) == HaveVoted(b);
    if |HaveVoted(a)| >= |a.players| {
      SameFinish(a, b, chA, chB, c);
    }
  }

  lemma SameVote(a: Game, b: Game, voter: u32, name: bytes, chA: Choice, chB: Choice, c: u32)
    requires SameGame(a, b) && SameChoice(chA, chB) && Fits(chA, a.players.Keys)
    requires IsWalk(chA.ballots, Tally(Voted(a, voter, TargetOf(a, name, chA)).votes).Keys)
    ensures SameOutcome(VoteStep(a, voter, name, chA), VoteStep(b, voter, name, chB), c)
  {
    var target := TargetOf(a, name, chA);
    if target != 0 && AcceptsVote(a, voter, target) {
      SameCounted(Voted(a, voter, target), Voted(b, voter, target), chA, chB, c);
    }
  }

  lemma SameChat(a: Game, b: Game, id: u32, data: bytes, chA: Choice, chB: Choice, c: u32)
    requires SameGame(a, b) && SameChoice(chA, chB)
    requires Fits(chA, a.players.Keys) && BallotsFit(a, id, data, chA) && BallotsFit(b, id, data, chB)
    ensures SameOutcome(ChatStep(a, id, data, chA), ChatStep(b, id, data, chB), c)
  {
    match CommandIn(data)
    case Some(name) =>
      if a.active {
        SameVote(a, b, id, name, chA, chB, c);
      }
    case None =>
  }

  lemma SameLeave(a: Game, b: Game, id: u32, chA: Choice, chB: Choice, c: u32)
    requires SameGame(a, b) && SameChoice(chA, chB) && Fits(chA, a.players.Keys - {id})
    ensures SameOutcome(LeaveStep(a, id, chA), LeaveStep(b, id, chB), c)
  {
    if id in a.players {
      LeaveThenStarts(a, id, chA);
      LeaveThenStarts(b, id, chB);
      var leftA, leftB := Departed(a, id), Departed(b, id);
      SameStart(leftA, leftB, chA, chB, c);
      var sends := [BroadcastExcept(id, Left(a.players[id])),
                    Broadcast(StateUpdate(States(leftA.players, chA.states)))];
      SameAppend(c, sends, StartIfPossible(leftA, chA).effects, sends, StartIfPossible(leftB, chB).effects);
    }
  }

  /** One run of the callback, with games and draws that differ in the word only. */
  lemma SameHandle(a: Game, b: Game, connected: bool, id: u32, p: Packet, chA: Choice, chB: Choice, c: u32)
    requires SameGame(a, b) && SameChoice(chA, chB) && Possible(a, id, p, chA) && Possible(b, id, p, chB)
    ensures SameOutcome(Handle(a, connected, id, p, chA), Handle(b, connected, id, p, chB), c)
  {
    if p.kind == PLAYER_JOIN {
      SameJoin(a, b, id, p.data, chA, chB, c);
    } else if p.kind == CHAT_MESSAGE && connected {
      SameChat(a, b, id, p.data, chA, chB, c);
    } else if p.kind == PLAYER_LEAVE {
      SameLeave(a, b, id, chA, chB, c);
    }
  }

  // --------------------------------------------- who is sent the word at all ----

  lemma {:induction false} WordGoesToGuessers(players: Players, walk: seq<u32>, topic: bytes, word: bytes, c: u32)
    requires forall id :: id in walk ==> id in players && players[id].id == id
    requires c !in players || players[c].role != Guesser
    ensures forall i :: 0 <= i < |Received(c, RoleSends(players, walk, topic, word))| ==>
      !TellsWord(Received(c, RoleSends(players, walk, topic, word))[i])
    decreases |walk|
  {
    if walk != [] {
      var more := RoleSends(players, walk[1..], topic, word);
      WordGoesToGuessers(players, walk[1..], topic, word, c);
      var p := players[walk[0]];
      if p.role == Liar || p.role == Guesser {
        var first := SendTo(p.id, Assign(RoleAssignment(p.id, p.role, topic, if p.role == Liar then [] else word)));
        ReceivedAppend(c, [first], more);
        ReceivedOne(c, first);
      } else {
        Seqs.Empty(more);
      }
    }
  }

  /** The one role message a player gets, if any. */
  function RoleMessage(p: PlayerState, topic: bytes, word: bytes): seq<Msg> {
    match p.role
    case Liar => [Assign(RoleAssignment(p.id, Liar, topic, []))]
    case Guesser => [Assign(RoleAssignment(p.id, Guesser, topic, word))]
    case _ => []
  }

  lemma {:induction false} EachIsToldOnce(players: Players, walk: seq<u32>, topic: bytes, word: bytes, c: u32)
    requires forall id :: id in walk ==> id in players && players[id].id == id
    requires forall i, j :: 0 <= i < j < |walk| ==> walk[i] != walk[j]
    ensures Received(c, RoleSends(players, walk, topic, word))
         == if c in walk then RoleMessage(players[c], topic, word) else []
    decreases |walk|
  {
    if walk != [] {
      var more := RoleSends(players, walk[1..], topic, word);
      EachIsToldOnce(players, walk[1..], topic, word, c);
      var p := players[walk[0]];
      if p.role == Liar || p.role == Guesser {
        var first := SendTo(p.id, RoleMessage(p, topic, word)[0]);
        ReceivedAppend(c, [first], more);
        ReceivedOne(c, first);
      } else {
        Seqs.Empty(more);
      }
      assert walk == [walk[0]] + walk[1..];
      Seqs.Empty(RoleMessage(p, topic, word));
    }
  }

  lemma StartSends(g: Game, ch: Choice)
    requires Inv(g) && CanStart(g) && !g.active && Fits(ch, g.players.Keys)
    ensures ch.liarId in g.players && WithRoles(g.players, ch.liarId).Keys == g.players.Keys
    ensures StartIfPossible(g, ch)
         == Outcome(Started(g, ch.liarId, ch.topic, ch.word),
                    RoleSends(WithRoles(g.players, ch.liarId), ch.roles, ch.topic, ch.word), false)
  {
    assert |g.players.Keys| == |g.players|;
  }

  /** When a round starts, every player is told exactly once: the liar the topic, each other player topic and word; and
      nobody else is told anything. */
  lemma RolesAreAnnounced(g: Game, ch: Choice, c: u32)
    requires Inv(g) && CanStart(g) && !g.active && Fits(ch, g.players.Keys)
    ensures var o := StartIfPossible(g, ch);
      && o.game.active && o.game.liarId == ch.liarId
      && Received(c, o.effects) ==
           if c !in g.players then []
           else if c == ch.liarId then [Assign(RoleAssignment(c, Liar, ch.topic, []))]
           else [Assign(RoleAssignment(c, Guesser, ch.topic, ch.word))]
  {
    StartSends(g, ch);
    EachIsToldOnce(WithRoles(g.players, ch.liarId), ch.roles, ch.topic, ch.word, c);
  }

  ghost predicate NoWord(ms: seq<Msg>) {
    forall i :: 0 <= i < |ms| ==> !TellsWord(ms[i])
  }

  ghost predicate IsGuesser(g: Game, c: u32) {
    c in g.players && g.players[c].role == Guesser
  }

  lemma StartTellsGuessers(g: Game, ch: Choice, c: u32)
    requires Inv(g) && Fits(ch, g.players.Keys) && !IsGuesser(StartIfPossible(g, ch).game, c)
    ensures NoWord(Received(c, StartIfPossible(g, ch).effects))
  {
    if CanStart(g) && !g.active {
      var players := Started(g, ch.liarId, ch.topic, ch.word).players;
      WordGoesToGuessers(players, ch.roles, ch.topic, ch.word, c);
    }
  }

  lemma NoWordAppend(a: seq<Msg>, b: seq<Msg>)
    requires NoWord(a) && NoWord(b)
    ensures NoWord(a + b)
  {
  }

  lemma OneTellsNothing(e: Effect, c: u32)
    requires !TellsWord(e.msg)
    ensures NoWord(Received(c, [e]))
  {
    ReceivedOne(c, e);
  }

  lemma TwoTellNothing(first: Effect, second: Effect, more: seq<Effect>, c: u32)
    requires !TellsWord(first.msg) && !TellsWord(second.msg) && NoWord(Received(c, more))
    ensures NoWord(Received(c, [first, second] + more))
  {
    ReceivedTwo(c, first, second, more);
    OneTellsNothing(first, c);
    OneTellsNothing(second, c);
    NoWordAppend(Received(c, [first]), Received(c, [second]));
    NoWordAppend(Received(c, [first]) + Received(c, [second]), Received(c, more));
  }

  /** Two effects that are no role assignments, then the start of a round. */
  lemma RoundTellsGuessers(first: Effect, second: Effect, g: Game, ch: Choice, c: u32)
    requires Inv(g) && Fits(ch, g.players.Keys) && !IsGuesser(StartIfPossible(g, ch).game, c)
    requires !TellsWord(first.msg) && !TellsWord(second.msg)
    ensures NoWord(Received(c, [first, second] + StartIfPossible(g, ch).effects))
  {
    StartTellsGuessers(g, ch, c);
    TwoTellNothing(first, second, StartIfPossible(g, ch).effects, c);
  }

  lemma FinishTellsGuessers(g: Game, ch: Choice, c: u32)
    requires Inv(g) && Fits(ch, g.players.Keys) && IsWalk(ch.ballots, Tally(g.votes).Keys)
    requires !IsGuesser(FinishRound(g, ch).game, c)
    ensures NoWord(Received(c, FinishRound(g, ch).effects))
  {
    var v := VerdictOf(g, ch.ballots);
    PaidIsCoherent(g, v);
    RoundTellsGuessers(Broadcast(Result(VoteResult(Tally(g.votes), v.winnerId, v.liarCaught))),
                       Broadcast(StateUpdate(States(Paid(g, v).players, ch.states))), Paid(g, v), ch, c);
  }

  lemma CountTellsGuessers(g: Game, ch: Choice, c: u32)
    requires Inv(g) && Fits(ch, g.players.Keys) && IsWalk(ch.ballots, Tally(g.votes).Keys)
    requires !IsGuesser(CountStep(g, ch).game, c)
    ensures NoWord(Received(c, CountStep(g, ch).effects))
  {
    if |HaveVoted(g)| >= |g.players| {
      FinishTellsGuessers(g, ch, c);
    } else {
      assert Received(c, []) == [];
    }
  }

  lemma ChatTellsGuessers(g: Game, id: u32, data: bytes, ch: Choice, c: u32)
    requires Inv(g) && Fits(ch, g.players.Keys) && BallotsFit(g, id, data, ch)
    requires !IsGuesser(ChatStep(g, id, data, ch).game, c)
    ensures NoWord(Received(c, ChatStep(g, id, data, ch).effects))
  {
    match CommandIn(data)
    case Some(name) =>
      var target := TargetOf(g, name, ch);
      assert Received(c, []) == [];
      if g.active && target != 0 && AcceptsVote(g, id, target) {
        ApplyKeepsInv(g, SubmitVote(id, target));
        CountTellsGuessers(Voted(g, id, target), ch, c);
      }
    case None =>
      ReceivedOne(c, Broadcast(Chat(ChatMessage(id, SenderName(g, id), TrimRight(data)))));
  }

  lemma JoinTellsGuessers(g: Game, id: u32, data: bytes, ch: Choice, c: u32)
    requires Inv(g) && id != 0 && Fits(ch, g.players.Keys + {id})
    requires !IsGuesser(JoinStep(g, id, data, ch).game, c)
    ensures NoWord(Received(c, JoinStep(g, id, data, ch).effects))
  {
    if id in g.players {
      assert Received(c, []) == [];
    } else {
      var joined := Added(g, id, if |data| > 0 then data else DefaultName(id));
      AddedIsCoherent(g, id, if |data| > 0 then data else DefaultName(id));
      RoundTellsGuessers(SendTo(id, StateUpdate(States(joined.players, ch.states))),
                         BroadcastExcept(id, Joined(joined.players[id])), joined, ch, c);
    }
  }

  lemma LeaveTellsGuessers(g: Game, id: u32, ch: Choice, c: u32)
    requires Inv(g) && Fits(ch, g.players.Keys - {id})
    requires !IsGuesser(LeaveStep(g, id, ch).game, c)
    ensures NoWord(Received(c, LeaveStep(g, id, ch).effects))
  {
    if id in g.players {
      LeaveThenStarts(g, id, ch);
      DepartedIsCoherent(g, id);
      RoundTellsGuessers(BroadcastExcept(id, Left(g.players[id])),
                         Broadcast(StateUpdate(States(Departed(g, id).players, ch.states))), Departed(g, id), ch, c);
    } else {
      assert Received(c, []) == [];
    }
  }

  /** A callback sends the word only to clients that are guessers of the round it leaves behind. */
  lemma HandleTellsGuessers(g: Game, connected: bool, id: u32, p: Packet, ch: Choice, c: u32)
    requires Inv(g) && id != 0 && Possible(g, id, p, ch)
    requires !IsGuesser(Handle(g, connected, id, p, ch).game, c)
    ensures NoWord(Received(c, Handle(g, connected, id, p, ch).effects))
  {
    if p.kind == PLAYER_JOIN {
      JoinTellsGuessers(g, id, p.data, ch, c);
    } else if p.kind == CHAT_MESSAGE && connected {
      ChatTellsGuessers(g, id, p.data, ch, c);
    } else if p.kind == PLAYER_LEAVE {
      LeaveTellsGuessers(g, id, ch, c);
    } else {
      assert Received(c, []) == [];
    }
  }
}
