/** The clients' copies follow the server's player table through their undelivered messages. */
module Tracking {
  import opened Bytes
  import opened Packets
  import opened Messages
  import opened Votes
  import opened Rules
  import opened GameStates
  import opened Codec
  import opened Handlers
  import opened Scoring
  import opened Replicas
  import opened Worlds
  import Seqs

  /** Everything the first view shows, the second shows just so. */
  ghost predicate SubView(v: map<u32, Entry>, full: map<u32, Entry>) {
    forall id :: id in v ==> id in full && v[id] == full[id]
  }

  /** A copy that has had a full update shows exactly the table; one that has not shows nothing the table does not. */
  ghost predicate Shows(copy: Players, players: Players, full: bool) {
    if full then View(copy) == View(players) else SubView(View(copy), View(players))
  }

  lemma {:induction false} ReceivedAppend(c: u32, a: seq<Effect>, b: seq<Effect>)
    ensures Received(c, a + b) == Received(c, a) + Received(c, b)
    decreases |a|
  {
    if a == [] {
      Seqs.Empty(b);
      Seqs.Empty(Received(c, b));
    } else {
      Seqs.TailOfAppend(a, b);
      ReceivedAppend(c, a[1..], b);
      Seqs.Assoc(Received(c, [a[0]]), Received(c, a[1..]), Received(c, b));
      ReceivedOne(c, a[0]);
      ReceivedOne(c, (a + b)[0]);
    }
  }

  lemma ReceivedOne(c: u32, e: Effect)
    ensures Received(c, [e]) == match e
      case SendTo(id, m) => if id == c then [m] else []
      case Broadcast(m) => [m]
      case BroadcastExcept(id, m) => if id != c then [m] else []
  {
    assert Received(c, [e][1..]) == [];
  }

  lemma {:induction false} RoleSendsAreInert(players: Players, walk: seq<u32>, topic: bytes, word: bytes, c: u32)
    requires forall id :: id in walk ==> id in players
    ensures AllInert(Received(c, RoleSends(players, walk, topic, word)))
    decreases |walk|
  {
    if walk != [] {
      var more := RoleSends(players, walk[1..], topic, word);
      RoleSendsAreInert(players, walk[1..], topic, word, c);
      var p := players[walk[0]];
      if p.role == Liar || p.role == Guesser {
        var first := SendTo(p.id, Assign(RoleAssignment(p.id, p.role, topic, if p.role == Liar then [] else word)));
        ReceivedAppend(c, [first], more);
        ReceivedOne(c, first);
      } else {
        Seqs.Empty(more);
      }
    }
  }

  /** Starting a round tells nobody anything about names or scores, and changes none. */
  lemma StartIsInert(g: Game, ch: Choice, c: u32)
    requires Fits(ch, g.players.Keys)
    ensures AllInert(Received(c, StartIfPossible(g, ch).effects))
    ensures View(StartIfPossible(g, ch).game.players) == View(g.players)
  {
    StartKeepsScores(g, ch);
    SameView(StartIfPossible(g, ch).game.players, g.players);
    if CanStart(g) && !g.active {
      var started := WithRoles(g.players, ch.liarId);
      assert started.Keys == g.players.Keys;
      RoleSendsAreInert(started, ch.roles, ch.topic, ch.word, c);
    }
  }

  lemma SameView(a: Players, b: Players)
    requires a.Keys == b.Keys
    requires forall id :: id in a ==> a[id].score == b[id].score && a[id].username == b[id].username
    ensures View(a) == View(b)
  {
  }

  /** One message that counts, then inert ones. */
  lemma ReplayFirst(copy: Players, m: Msg, more: seq<Msg>)
    requires AllInert(more)
    ensures Replay(copy, [m] + more) == Update(copy, m)
    ensures HasUpdate([m] + more) <==> m.StateUpdate?
  {
    Seqs.Split([m], more);
    ReplayInert(Update(copy, m), more);
    if m.StateUpdate? {
      assert ([m] + more)[0].StateUpdate?;
    }
  }

  /** Two effects that concern the copy, then inert ones. */
  lemma ReceivedTwo(c: u32, first: Effect, second: Effect, more: seq<Effect>)
    ensures Received(c, [first, second] + more) == Received(c, [first]) + Received(c, [second]) + Received(c, more)
  {
    ReceivedAppend(c, [first, second], more);
    ReceivedAppend(c, [first], [second]);
    assert [first] + [second] == [first, second];
  }

  // ----------------------------------------------------- the three handlers ----

  lemma JoinInforms(g: Game, id: u32, data: bytes, ch: Choice, c: u32, copy: Players, full: bool)
    requires Settled(g) && id != 0 && Fits(ch, g.players.Keys + {id})
    requires Shows(copy, g.players, full)
    ensures var o := JoinStep(g, id, data, ch);
      var ms := Received(c, o.effects);
      && Shows(Replay(copy, ms), o.game.players, full || HasUpdate(ms))
      && (c == id && id !in g.players ==> HasUpdate(ms))
  {
    if id !in g.players {
      var joined := Added(g, id, if |data| > 0 then data else DefaultName(id));
      AddedIsCoherent(g, id, if |data| > 0 then data else DefaultName(id));
      NewcomerInforms(g.players, joined, id, ch, c, copy, full);
      assert JoinStep(g, id, data, ch).game == StartIfPossible(joined, ch).game;
    } else {
      assert Received(c, []) == [];
    }
  }

  lemma NewcomerInforms(before: Players, joined: Game, id: u32, ch: Choice, c: u32, copy: Players, full: bool)
    requires Inv(joined) && Fits(ch, joined.players.Keys)
    requires id !in before && id in joined.players && joined.players == before[id := joined.players[id]]
    requires Shows(copy, before, full)
    ensures var round := StartIfPossible(joined, ch);
      var ms := Received(c, [SendTo(id, StateUpdate(States(joined.players, ch.states))),
                             BroadcastExcept(id, Joined(joined.players[id]))] + round.effects);
      && Shows(Replay(copy, ms), round.game.players, full || HasUpdate(ms))
      && (c == id ==> HasUpdate(ms))
  {
    var update, newcomer := StateUpdate(States(joined.players, ch.states)), joined.players[id];
    var more := Received(c, StartIfPossible(joined, ch).effects);
    ReceivedTwo(c, SendTo(id, update), BroadcastExcept(id, Joined(newcomer)), StartIfPossible(joined, ch).effects);
    ReceivedOne(c, SendTo(id, update));
    ReceivedOne(c, BroadcastExcept(id, Joined(newcomer)));
    StartIsInert(joined, ch, c);
    if c == id {
      Seqs.Empty([update]);
      UpdateInforms(copy, joined.players, ch.states, more);
    } else {
      Seqs.Empty([Joined(newcomer)]);
      JoinedInforms(copy, before, newcomer, more, full);
    }
  }

  lemma UpdateInforms(copy: Players, players: Players, walk: seq<u32>, more: seq<Msg>)
    requires IsWalk(walk, players.Keys) && forall id :: id in players ==> players[id].id == id
    requires AllInert(more)
    ensures Replay(copy, [StateUpdate(States(players, walk))] + more) == players
    ensures HasUpdate([StateUpdate(States(players, walk))] + more)
  {
    UpdateRestoresTable(players, walk);
    ReplayFirst(copy, StateUpdate(States(players, walk)), more);
  }

  lemma ViewOfUpdate(players: Players, p: PlayerState)
    ensures View(players[p.id := p]) == View(players)[p.id := Entry(p.username, p.score)]
  {
  }

  lemma JoinedInforms(copy: Players, players: Players, newcomer: PlayerState, more: seq<Msg>, full: bool)
    requires newcomer.id !in players && Shows(copy, players, full)
    requires AllInert(more)
    ensures Shows(Replay(copy, [Joined(newcomer)] + more), players[newcomer.id := newcomer], full)
    ensures !HasUpdate([Joined(newcomer)] + more)
  {
    ReplayFirst(copy, Joined(newcomer), more);
    ViewOfUpdate(copy, newcomer);
    ViewOfUpdate(players, newcomer);
  }

  /** Any effect, then a full update for everybody, then the start of a round: every copy shows the table, whatever it
      showed before. */
  lemma UpdateForAll(first: Effect, g: Game, ch: Choice, c: u32, copy: Players)
    requires Inv(g) && Fits(ch, g.players.Keys)
    ensures var round := StartIfPossible(g, ch);
      var ms := Received(c, [first, Broadcast(StateUpdate(States(g.players, ch.states)))] + round.effects);
      View(Replay(copy, ms)) == View(round.game.players) && HasUpdate(ms)
  {
    var update := StateUpdate(States(g.players, ch.states));
    var more := Received(c, StartIfPossible(g, ch).effects);
    ReceivedTwo(c, first, Broadcast(update), StartIfPossible(g, ch).effects);
    ReceivedOne(c, first);
    ReceivedOne(c, Broadcast(update));
    StartIsInert(g, ch, c);
    if Received(c, [first]) == [] {
      Seqs.Empty([update]);
      UpdateInforms(copy, g.players, ch.states, more);
    } else {
      OneThenUpdate(copy, Received(c, [first])[0], g.players, ch.states, more);
    }
  }

  /** One message and then a full update: only the update counts. */
  lemma OneThenUpdate(copy: Players, first: Msg, players: Players, walk: seq<u32>, more: seq<Msg>)
    requires IsWalk(walk, players.Keys) && forall id :: id in players ==> players[id].id == id
    requires AllInert(more)
    ensures var ms := [first] + [StateUpdate(States(players, walk))] + more;
      Replay(copy, ms) == players && HasUpdate(ms)
  {
    var update := StateUpdate(States(players, walk));
    Seqs.Assoc([first], [update], more);
    Seqs.Split([first], [update] + more);
    UpdateInforms(Update(copy, first), players, walk, more);
    assert ([first] + [update] + more)[1] == update;
  }

  lemma FinishInforms(g: Game, ch: Choice, c: u32, copy: Players)
    requires Inv(g) && Fits(ch, g.players.Keys) && IsWalk(ch.ballots, Tally(g.votes).Keys)
    ensures var o := FinishRound(g, ch);
      var ms := Received(c, o.effects);
      View(Replay(copy, ms)) == View(o.game.players) && HasUpdate(ms)
  {
    var v := VerdictOf(g, ch.ballots);
    PaidIsCoherent(g, v);
    UpdateForAll(Broadcast(Result(VoteResult(Tally(g.votes), v.winnerId, v.liarCaught))), Paid(g, v), ch, c, copy);
  }

  lemma PaidIsCoherent(g: Game, v: Verdict)
    requires Inv(g)
    ensures Inv(Paid(g, v)) && Paid(g, v).players.Keys == g.players.Keys
  {
    PaidKeepsKeys(g, v);
    ScoredKeepsInv(g, v.liarCaught, v.winnerId, v.hasMajority);
    ApplyKeepsInv(Scored(g, v.liarCaught, v.winnerId, v.hasMajority), ClearRound);
  }

  lemma CountInforms(g: Game, ch: Choice, c: u32, copy: Players, full: bool)
    requires Inv(g) && Fits(ch, g.players.Keys) && IsWalk(ch.ballots, Tally(g.votes).Keys)
    requires Shows(copy, g.players, full)
    ensures var o := CountStep(g, ch);
      var ms := Received(c, o.effects);
      Shows(Replay(copy, ms), o.game.players, full || HasUpdate(ms))
  {
    if |HaveVoted(g)| >= |g.players| {
      FinishInforms(g, ch, c, copy);
    } else {
      assert Received(c, []) == [];
    }
  }

  lemma ChatInforms(g: Game, id: u32, data: bytes, ch: Choice, c: u32, copy: Players, full: bool)
    requires Settled(g) && Fits(ch, g.players.Keys) && BallotsFit(g, id, data, ch)
    requires Shows(copy, g.players, full)
    ensures var o := ChatStep(g, id, data, ch);
      var ms := Received(c, o.effects);
      Shows(Replay(copy, ms), o.game.players, full || HasUpdate(ms))
  {
    match CommandIn(data)
    case Some(name) =>
      assert Received(c, []) == [];
      var target := TargetOf(g, name, ch);
      if g.active && target != 0 && AcceptsVote(g, id, target) {
        ApplyKeepsInv(g, SubmitVote(id, target));
        CountInforms(Voted(g, id, target), ch, c, copy, full);
      }
    case None =>
      var m := Chat(ChatMessage(id, SenderName(g, id), TrimRight(data)));
      ReceivedOne(c, Broadcast(m));
      Seqs.Empty([m]);
      ReplayFirst(copy, m, []);
  }

  lemma LeaveInforms(g: Game, id: u32, ch: Choice, c: u32, copy: Players, full: bool)
    requires Settled(g) && Fits(ch, g.players.Keys - {id})
    requires Shows(copy, g.players, full)
    ensures var o := LeaveStep(g, id, ch);
      var ms := Received(c, o.effects);
      Shows(Replay(copy, ms), o.game.players, full || HasUpdate(ms))
  {
    if id in g.players {
      LeaveThenStarts(g, id, ch);
      DepartedIsCoherent(g, id);
      UpdateForAll(BroadcastExcept(id, Left(g.players[id])), Departed(g, id), ch, c, copy);
    } else {
      assert Received(c, []) == [];
    }
  }

  lemma DepartedIsCoherent(g: Game, id: u32)
    requires Inv(g)
    ensures Inv(Departed(g, id)) && Departed(g, id).players.Keys == g.players.Keys - {id}
  {
    DepartedKeys(g, id);
    RemovedKeepsInv(g, id);
    ApplyKeepsInv(Removed(g, id), ClearRound);
  }

  /** A join adds exactly the newcomer to the table, under the name sent or the default one, with no points. */
  lemma TableAfterJoin(g: Game, id: u32, data: bytes, ch: Choice)
    requires id !in g.players && Fits(ch, g.players.Keys + {id})
    ensures View(JoinStep(g, id, data, ch).game.players)
         == View(g.players)[id := Entry(if |data| > 0 then data else DefaultName(id), 0)]
  {
    var name := if |data| > 0 then data else DefaultName(id);
    assert Added(g, id, name).players.Keys == g.players.Keys + {id};
    StartIsInert(Added(g, id, name), ch, id);
    ViewOfUpdate(g.players, PlayerState(id, name, NoRole, 0));
  }

  /** A leave takes exactly that client out of the table. */
  lemma TableAfterLeave(g: Game, id: u32, ch: Choice)
    requires Fits(ch, g.players.Keys - {id})
    ensures View(LeaveStep(g, id, ch).game.players) == View(g.players) - {id}
  {
    if id in g.players {
      LeaveThenStarts(g, id, ch);
      StartIsInert(Departed(g, id), ch, id);
      assert View(Departed(g, id).players) == View(g.players) - {id};
    }
  }

  /** Whatever the callback does, the messages it sends a client keep that client's copy showing the table. */
  lemma HandleInforms(g: Game, connected: bool, id: u32, p: Packet, ch: Choice, c: u32, copy: Players, full: bool)
    requires Settled(g) && id != 0 && Possible(g, id, p, ch)
    requires Shows(copy, g.players, full)
    ensures var o := Handle(g, connected, id, p, ch);
      var ms := Received(c, o.effects);
      && Shows(Replay(copy, ms), o.game.players, full || HasUpdate(ms))
      && (c in o.game.players && c !in g.players ==> HasUpdate(ms))
  {
    HandleKeys(g, connected, id, p, ch);
    if p.kind == PLAYER_JOIN {
      JoinInforms(g, id, p.data, ch, c, copy, full);
    } else if p.kind == CHAT_MESSAGE && connected {
      ChatInforms(g, id, p.data, ch, c, copy, full);
    } else if p.kind == PLAYER_LEAVE {
      LeaveInforms(g, id, ch, c, copy, full);
    } else {
      assert Received(c, []) == [];
    }
  }

  // -------------------------------------------------------------- every run ----

  /** Each open client's copy, once its undelivered messages are applied, shows the table; and it has been sent a full
      update if it is a player. */
  ghost predicate Tracked(w: World, c: u32)
    requires c in w.out && c in w.copies
  {
    && Shows(Replay(w.copies[c], w.out[c]), w.game.players, c in w.synced)
    && (c in w.game.players ==> c in w.synced)
  }

  ghost predicate AllTracked(w: World) {
    forall c :: c in w.out && c in w.copies ==> Tracked(w, c)
  }

  lemma CallbackTracks(w: World, connected: bool, id: u32, p: Packet, ch: Choice, c: u32)
    requires Sound(w) && id != 0 && Possible(w.game, id, p, ch)
    requires c in w.out && c in w.copies && Tracked(w, c)
    ensures Tracked(AfterCallback(w, Handle(w.game, connected, id, p, ch)), c)
  {
    var o := Handle(w.game, connected, id, p, ch);
    var copy := Replay(w.copies[c], w.out[c]);
    HandleInforms(w.game, connected, id, p, ch, c, copy, c in w.synced);
    ReplayAppend(w.copies[c], w.out[c], Received(c, o.effects));
  }

  lemma DeliveryTracks(w: World, id: u32, c: u32)
    requires Sound(w) && Enabled(w, Deliver(id))
    requires c in w.out && c in w.copies && Tracked(w, c)
    ensures Tracked(Step(w, Deliver(id)), c)
  {
  }

  lemma StepTracks(w: World, e: Event)
    requires Sound(w) && Enabled(w, e) && AllTracked(w)
    ensures AllTracked(Step(w, e))
  {
    var after := Step(w, e);
    forall c | c in after.out && c in after.copies
      ensures Tracked(after, c)
    {
      match e
      case Receive(id, p, ch) => CallbackTracks(w, true, id, p, ch, c);
      case FinalLeave(id, ch) =>
        CallbackTracks(w, false, id, LEAVE_PACKET, ch, c);
        assert Tracked(AfterCallback(w, Handle(w.game, false, id, LEAVE_PACKET, ch)), c);
      case Deliver(id) => DeliveryTracks(w, id, c);
      case _ =>
    }
  }

  lemma {:induction false} RunTracks(w: World, es: seq<Event>)
    requires Sound(w) && IsRun(w, es) && AllTracked(w)
    ensures Sound(Run(w, es)) && AllTracked(Run(w, es))
    decreases |es|
  {
    if es != [] {
      StepKeepsSound(w, es[0]);
      StepTracks(w, es[0]);
      RunTracks(Step(w, es[0]), es[1..]);
    }
  }

  /** In every run, applying the undelivered messages of a joined client to its copy gives exactly the server's ids,
      names and scores; a client that was never sent a full update holds nothing that is not on the server. */
  lemma CopiesFollowTheServer(es: seq<Event>, c: u32)
    requires IsRun(INITIAL, es) && c in Run(INITIAL, es).out
    ensures var w := Run(INITIAL, es);
      && c in w.copies
      && (c in w.game.players ==> c in w.synced)
      && (c in w.synced ==> View(Replay(w.copies[c], w.out[c])) == View(w.game.players))
      && SubView(View(Replay(w.copies[c], w.out[c])), View(w.game.players))
  {
    RunTracks(INITIAL, es);
    assert Tracked(Run(INITIAL, es), c);
  }
}
