/** What a client shows while messages are still under way: always a table the server has really had. */
module Consistency {
  import opened Bytes
  import opened Packets
  import opened Messages
  import opened Votes
  import opened Rules
  import opened GameStates
  import opened Codec
  import opened Handlers
  import opened Replicas
  import opened Worlds
  import opened Tracking
  import opened Conduct
  import Seqs

  type Table = map<u32, Entry>

  // ------------------------------------------------- prefixes of what is sent ----

  lemma OneThenInert(copy: Players, m: Msg, more: seq<Msg>, j: nat)
    requires AllInert(more) && 1 <= j <= 1 + |more|
    ensures Replay(copy, ([m] + more)[..j]) == Replay(copy, [m] + more) == Update(copy, m)
  {
    Seqs.TakeOfAppend([m], more, j);
    ReplayFirst(copy, m, more);
    ReplayFirst(copy, m, more[..j - 1]);
  }

  lemma TwoThenInert(copy: Players, a: Msg, b: Msg, more: seq<Msg>, j: nat)
    requires AllInert(more) && 1 <= j <= 2 + |more|
    ensures var ms := [a] + [b] + more;
      if j == 1 then Replay(copy, ms[..j]) == Update(copy, a) && (HasUpdate(ms[..j]) <==> a.StateUpdate?)
      else Replay(copy, ms[..j]) == Replay(copy, ms)
  {
    var ms := [a] + [b] + more;
    Seqs.Assoc([a], [b], more);
    Seqs.Split([a], [b] + more);
    if j == 1 {
      assert ms[..1] == [a] + [];
      ReplayFirst(copy, a, []);
    } else {
      Seqs.TakeOfAppend([a], [b] + more, j);
      Seqs.Split([a], ([b] + more)[..j - 1]);
      OneThenInert(Update(copy, a), b, more, j - 1);
    }
  }

  lemma NothingYet(copy: Players, ms: seq<Msg>)
    ensures Replay(copy, ms[..0]) == copy && !HasUpdate(ms[..0])
  {
  }

  /** After any part of what a callback sends it, the copy shows the table before the callback or the one after it. */
  ghost predicate BeforeOrAfter(copy: Players, ms: seq<Msg>, before: Players, after: Players, full: bool) {
    forall j :: 0 <= j <= |ms| && (full || HasUpdate(ms[..j])) ==>
      View(Replay(copy, ms[..j])) in {View(before), View(after)}
  }

  lemma NewcomerIsReal(before: Players, joined: Game, id: u32, ch: Choice, c: u32, copy: Players, full: bool)
    requires Inv(joined) && Fits(ch, joined.players.Keys)
    requires id !in before && id in joined.players && joined.players == before[id := joined.players[id]]
    requires Shows(copy, before, full)
    ensures var round := StartIfPossible(joined, ch);
      var ms := Received(c, [SendTo(id, StateUpdate(States(joined.players, ch.states))),
                             BroadcastExcept(id, Joined(joined.players[id]))] + round.effects);
      BeforeOrAfter(copy, ms, before, round.game.players, full)
  {
    var update, newcomer := StateUpdate(States(joined.players, ch.states)), joined.players[id];
    var round := StartIfPossible(joined, ch);
    var more := Received(c, round.effects);
    NewcomerInforms(before, joined, id, ch, c, copy, full);
    ReceivedTwo(c, SendTo(id, update), BroadcastExcept(id, Joined(newcomer)), round.effects);
    ReceivedOne(c, SendTo(id, update));
    ReceivedOne(c, BroadcastExcept(id, Joined(newcomer)));
    StartIsInert(joined, ch, c);
    var m := if c == id then update else Joined(newcomer);
    Seqs.Empty([m]);
    OneIsReal(copy, m, more, before, round.game.players, full);
  }

  /** One message that counts: before it the old table shows, after it the new one. */
  lemma OneIsReal(copy: Players, m: Msg, more: seq<Msg>, before: Players, after: Players, full: bool)
    requires AllInert(more) && (full ==> View(copy) == View(before))
    requires full || HasUpdate([m] + more) ==> View(Replay(copy, [m] + more)) == View(after)
    ensures BeforeOrAfter(copy, [m] + more, before, after, full)
  {
    var ms := [m] + more;
    forall j | 0 <= j <= |ms| && (full || HasUpdate(ms[..j]))
      ensures View(Replay(copy, ms[..j])) in {View(before), View(after)}
    {
      if j == 0 {
        NothingYet(copy, ms);
      } else {
        OneThenInert(copy, m, more, j);
        UpdateOfPrefix(ms, j);
      }
    }
  }

  lemma UpdateOfPrefix(ms: seq<Msg>, j: nat)
    requires j <= |ms|
    ensures HasUpdate(ms[..j]) ==> HasUpdate(ms)
  {
    if HasUpdate(ms[..j]) {
      var i :| 0 <= i < j && ms[..j][i].StateUpdate?;
      assert ms[i].StateUpdate?;
    }
  }

  /** A first message that is no update, then an update for everybody. */
  lemma TwoAreReal(copy: Players, a: Msg, update: Msg, more: seq<Msg>, before: Players, after: Players, full: bool)
    requires AllInert(more) && !a.StateUpdate? && (full ==> View(copy) == View(before))
    requires full ==> View(Update(copy, a)) in {View(before), View(after)}
    requires View(Replay(copy, [a] + [update] + more)) == View(after)
    ensures BeforeOrAfter(copy, [a] + [update] + more, before, after, full)
  {
    var ms := [a] + [update] + more;
    forall j | 0 <= j <= |ms| && (full || HasUpdate(ms[..j]))
      ensures View(Replay(copy, ms[..j])) in {View(before), View(after)}
    {
      if j == 0 {
        NothingYet(copy, ms);
      } else {
        TwoThenInert(copy, a, update, more, j);
      }
    }
  }

  /** An effect that is no update, a full update for everybody, and the start of a round. */
  lemma UpdateForAllIsReal(first: Effect, before: Players, g: Game, ch: Choice, c: u32, copy: Players, full: bool)
    requires Inv(g) && Fits(ch, g.players.Keys) && !first.msg.StateUpdate?
    requires full ==> View(copy) == View(before) && View(Update(copy, first.msg)) in {View(before), View(g.players)}
    ensures var round := StartIfPossible(g, ch);
      var ms := Received(c, [first, Broadcast(StateUpdate(States(g.players, ch.states)))] + round.effects);
      BeforeOrAfter(copy, ms, before, round.game.players, full)
  {
    var update := StateUpdate(States(g.players, ch.states));
    var round := StartIfPossible(g, ch);
    var more := Received(c, round.effects);
    UpdateForAll(first, g, ch, c, copy);
    ReceivedTwo(c, first, Broadcast(update), round.effects);
    ReceivedOne(c, first);
    ReceivedOne(c, Broadcast(update));
    StartIsInert(g, ch, c);
    if Received(c, [first]) == [] {
      Seqs.Empty([update]);
      OneIsReal(copy, update, more, before, round.game.players, full);
    } else {
      TwoAreReal(copy, first.msg, update, more, before, round.game.players, full);
    }
  }

  lemma ViewWithout(players: Players, id: u32)
    ensures View(players - {id}) == View(players) - {id}
  {
  }

  lemma DepartedView(g: Game, id: u32)
    ensures View(Departed(g, id).players) == View(g.players) - {id}
  {
  }

  lemma LeaveIsReal(g: Game, id: u32, ch: Choice, c: u32, copy: Players, full: bool)
    requires Settled(g) && Fits(ch, g.players.Keys - {id}) && Shows(copy, g.players, full)
    ensures var o := LeaveStep(g, id, ch);
      BeforeOrAfter(copy, Received(c, o.effects), g.players, o.game.players, full)
  {
    if id in g.players {
      LeaveThenStarts(g, id, ch);
      DepartedIsCoherent(g, id);
      ViewWithout(copy, id);
      DepartedView(g, id);
      UpdateForAllIsReal(BroadcastExcept(id, Left(g.players[id])), g.players, Departed(g, id), ch, c, copy, full);
    } else {
      Silent(copy, g.players, c, full);
    }
  }

  lemma Silent(copy: Players, players: Players, c: u32, full: bool)
    requires Shows(copy, players, full)
    ensures BeforeOrAfter(copy, Received(c, []), players, players, full)
  {
    assert Received(c, []) == [];
    NothingYet(copy, []);
  }

  lemma JoinIsReal(g: Game, id: u32, data: bytes, ch: Choice, c: u32, copy: Players, full: bool)
    requires Settled(g) && id != 0 && Fits(ch, g.players.Keys + {id}) && Shows(copy, g.players, full)
    ensures var o := JoinStep(g, id, data, ch);
      BeforeOrAfter(copy, Received(c, o.effects), g.players, o.game.players, full)
  {
    if id in g.players {
      Silent(copy, g.players, c, full);
    } else {
      var name := if |data| > 0 then data else DefaultName(id);
      AddedIsCoherent(g, id, name);
      NewcomerIsReal(g.players, Added(g, id, name), id, ch, c, copy, full);
    }
  }

  lemma FinishIsReal(g: Game, ch: Choice, c: u32, copy: Players, full: bool)
    requires Inv(g) && Fits(ch, g.players.Keys) && IsWalk(ch.ballots, Tally(g.votes).Keys)
    requires Shows(copy, g.players, full)
    ensures var o := FinishRound(g, ch);
      BeforeOrAfter(copy, Received(c, o.effects), g.players, o.game.players, full)
  {
    var v := VerdictOf(g, ch.ballots);
    PaidIsCoherent(g, v);
    UpdateForAllIsReal(Broadcast(Result(VoteResult(Tally(g.votes), v.winnerId, v.liarCaught))),
                       g.players, Paid(g, v), ch, c, copy, full);
  }

  lemma CountIsReal(g: Game, ch: Choice, c: u32, copy: Players, full: bool)
    requires Inv(g) && Fits(ch, g.players.Keys) && IsWalk(ch.ballots, Tally(g.votes).Keys)
    requires Shows(copy, g.players, full)
    ensures var o := CountStep(g, ch);
      BeforeOrAfter(copy, Received(c, o.effects), g.players, o.game.players, full)
  {
    if |HaveVoted(g)| >= |g.players| {
      FinishIsReal(g, ch, c, copy, full);
    } else {
      Silent(copy, g.players, c, full);
    }
  }

  lemma ChatIsReal(g: Game, id: u32, data: bytes, ch: Choice, c: u32, copy: Players, full: bool)
    requires Settled(g) && Fits(ch, g.players.Keys) && BallotsFit(g, id, data, ch)
    requires Shows(copy, g.players, full)
    ensures var o := ChatStep(g, id, data, ch);
      BeforeOrAfter(copy, Received(c, o.effects), g.players, o.game.players, full)
  {
    Silent(copy, g.players, c, full);
    match CommandIn(data)
    case Some(name) =>
      var target := TargetOf(g, name, ch);
      if g.active && target != 0 && AcceptsVote(g, id, target) {
        ApplyKeepsInv(g, SubmitVote(id, target));
        CountIsReal(Voted(g, id, target), ch, c, copy, full);
      }
    case None =>
      var m := Chat(ChatMessage(id, SenderName(g, id), TrimRight(data)));
      ReceivedOne(c, Broadcast(m));
      Seqs.Empty([m]);
      ReplayFirst(copy, m, []);
      OneIsReal(copy, m, [], g.players, g.players, full);
  }

  lemma HandleIsReal(g: Game, connected: bool, id: u32, p: Packet, ch: Choice, c: u32, copy: Players, full: bool)
    requires Settled(g) && id != 0 && Possible(g, id, p, ch) && Shows(copy, g.players, full)
    ensures var o := Handle(g, connected, id, p, ch);
      BeforeOrAfter(copy, Received(c, o.effects), g.players, o.game.players, full)
  {
    if p.kind == PLAYER_JOIN {
      JoinIsReal(g, id, p.data, ch, c, copy, full);
    } else if p.kind == CHAT_MESSAGE && connected {
      ChatIsReal(g, id, p.data, ch, c, copy, full);
    } else if p.kind == PLAYER_LEAVE {
      LeaveIsReal(g, id, ch, c, copy, full);
    } else {
      Silent(copy, g.players, c, full);
    }
  }

  // ------------------------------------------------- joins and leaves show at once ----

  /** The first message of a leave already takes the player out of every other client's copy; the update after it, and the
      new round, change nothing more of what is shown. */
  lemma LeaveShowsAtOnce(g: Game, connected: bool, id: u32, p: Packet, ch: Choice, c: u32, copy: Players)
    requires Settled(g) && p.kind == PLAYER_LEAVE && id in g.players && Possible(g, id, p, ch)
    requires c != id && View(copy) == View(g.players)
    ensures var o := Handle(g, connected, id, p, ch);
      var ms := Received(c, o.effects);
      && ms != [] && ms[0] == Left(g.players[id])
      && View(Update(copy, ms[0])) == View(o.game.players) == View(g.players) - {id}
  {
    LeaveRedeals(g, connected, id, p, ch, c);
    ViewWithout(copy, id);
    RemainingView(g.players, id);
  }

  lemma RemainingView(players: Players, id: u32)
    ensures View(Remaining(players, id)) == View(players) - {id}
  {
  }

  lemma JoinFirstMessage(g: Game, connected: bool, id: u32, p: Packet, ch: Choice, c: u32)
    requires Settled(g) && id != 0 && p.kind == PLAYER_JOIN && id !in g.players && Possible(g, id, p, ch)
    ensures var o, table := Handle(g, connected, id, p, ch), g.players[id := Newcomer(id, p.data)];
      var ms := Received(c, o.effects);
      && IsWalk(ch.states, table.Keys)
      && ms != []
      && ms[0] == (if c == id then StateUpdate(States(table, ch.states)) else Joined(Newcomer(id, p.data)))
      && View(o.game.players) == View(table)
  {
    if g.active {
      JoinInRound(g, connected, id, p, ch, c);
    } else {
      JoinBetweenRounds(g, connected, id, p, ch, c);
    }
  }

  lemma JoinMessageShows(copy: Players, players: Players, newcomer: PlayerState, walk: seq<u32>, m: Msg)
    requires forall id :: id in players ==> players[id].id == id
    requires IsWalk(walk, players[newcomer.id := newcomer].Keys)
    requires m == StateUpdate(States(players[newcomer.id := newcomer], walk))
          || (m == Joined(newcomer) && View(copy) == View(players))
    ensures View(Update(copy, m)) == View(players[newcomer.id := newcomer])
  {
    if m.StateUpdate? {
      UpdateRestoresTable(players[newcomer.id := newcomer], walk);
    } else {
      ViewOfUpdate(copy, newcomer);
      ViewOfUpdate(players, newcomer);
    }
  }

  /** The first message of a join already shows everybody the new table, whether it is the whole table, for the newcomer,
      or the newcomer, for the others. */
  lemma JoinShowsAtOnce(g: Game, connected: bool, id: u32, p: Packet, ch: Choice, c: u32, copy: Players)
    requires Settled(g) && id != 0 && p.kind == PLAYER_JOIN && id !in g.players && Possible(g, id, p, ch)
    requires c != id ==> View(copy) == View(g.players)
    ensures var o := Handle(g, connected, id, p, ch);
      var ms := Received(c, o.effects);
      && ms != [] && (c != id ==> ms[0] == Joined(Newcomer(id, p.data)))
      && View(Update(copy, ms[0])) == View(o.game.players) == View(g.players[id := Newcomer(id, p.data)])
  {
    var table := g.players[id := Newcomer(id, p.data)];
    JoinFirstMessage(g, connected, id, p, ch, c);
    var m := if c == id then StateUpdate(States(table, ch.states)) else Joined(Newcomer(id, p.data));
    JoinMessageShows(copy, g.players, Newcomer(id, p.data), ch.states, m);
  }

  // --------------------------------------------------------------- every run ----

  /** Once the copy has had a full update, it shows one of the tables, now and after each message under way. */
  ghost predicate StreamReal(copy: Players, ms: seq<Msg>, updated: bool, tables: set<Table>) {
    forall k :: 0 <= k <= |ms| && (updated || HasUpdate(ms[..k])) ==> View(Replay(copy, ms[..k])) in tables
  }

  lemma UpdateOfJoined(a: seq<Msg>, b: seq<Msg>)
    ensures HasUpdate(a + b) ==> HasUpdate(a) || HasUpdate(b)
  {
    if HasUpdate(a + b) {
      var i :| 0 <= i < |a + b| && (a + b)[i].StateUpdate?;
      if i < |a| {
        assert a[i].StateUpdate?;
      } else {
        assert b[i - |a|].StateUpdate?;
      }
    }
  }

  lemma LongerStreamIsReal(copy: Players, a: seq<Msg>, b: seq<Msg>, updated: bool, full: bool, tables: set<Table>,
                           before: Players, after: Players)
    requires StreamReal(copy, a, updated, tables) && View(before) in tables
    requires updated || HasUpdate(a) ==> full
    requires BeforeOrAfter(Replay(copy, a), b, before, after, full)
    ensures StreamReal(copy, a + b, updated, tables + {View(after)})
  {
    forall k | 0 <= k <= |a + b| && (updated || HasUpdate((a + b)[..k]))
      ensures View(Replay(copy, (a + b)[..k])) in tables + {View(after)}
    {
      Seqs.TakeOfAppend(a, b, k);
      if k > |a| {
        ReplayAppend(copy, a, b[..k - |a|]);
        UpdateOfJoined(a, b[..k - |a|]);
      }
    }
  }

  lemma ShorterStreamIsReal(copy: Players, ms: seq<Msg>, updated: bool, tables: set<Table>)
    requires ms != [] && StreamReal(copy, ms, updated, tables)
    ensures StreamReal(Update(copy, ms[0]), ms[1..], updated || ms[0].StateUpdate?, tables)
  {
    forall k | 0 <= k <= |ms[1..]| && (updated || ms[0].StateUpdate? || HasUpdate(ms[1..][..k]))
      ensures View(Replay(Update(copy, ms[0]), ms[1..][..k])) in tables
    {
      Seqs.DropOfTake(ms, k + 1);
      if HasUpdate(ms[1..][..k]) {
        var i :| 0 <= i < k && ms[1..][..k][i].StateUpdate?;
        assert ms[..k + 1][i + 1].StateUpdate?;
      } else if ms[0].StateUpdate? {
        assert ms[..k + 1][0].StateUpdate?;
      }
    }
  }

  ghost predicate Real(w: World, c: u32, updated: bool, tables: set<Table>) {
    && View(w.game.players) in tables
    && (updated ==> c < w.nextId)
    && (c in w.out && c in w.copies ==>
          && (updated || HasUpdate(w.out[c]) ==> c in w.synced)
          && StreamReal(w.copies[c], w.out[c], updated, tables))
  }

  /** The event hands client `c` a full update. */
  ghost predicate GivesUpdate(w: World, e: Event, c: u32)
    requires Enabled(w, e)
  {
    e == Deliver(c) && w.out[c][0].StateUpdate?
  }

  lemma CallbackIsReal(w: World, connected: bool, id: u32, p: Packet, ch: Choice, c: u32, updated: bool,
                       tables: set<Table>)
    requires Sound(w) && id != 0 && Possible(w.game, id, p, ch) && AllTracked(w)
    requires Real(w, c, updated, tables)
    ensures var after := AfterCallback(w, Handle(w.game, connected, id, p, ch));
      Real(after, c, updated, tables + {View(after.game.players)})
  {
    var o := Handle(w.game, connected, id, p, ch);
    if c in w.out && c in w.copies {
      var copy := Replay(w.copies[c], w.out[c]);
      assert Tracked(w, c);
      HandleIsReal(w.game, connected, id, p, ch, c, copy, c in w.synced);
      LongerStreamIsReal(w.copies[c], w.out[c], Received(c, o.effects), updated, c in w.synced, tables,
                         w.game.players, o.game.players);
      UpdateOfJoined(w.out[c], Received(c, o.effects));
    }
  }

  lemma StepIsReal(w: World, e: Event, c: u32, updated: bool, tables: set<Table>)
    requires Sound(w) && Enabled(w, e) && AllTracked(w) && Real(w, c, updated, tables)
    ensures Real(Step(w, e), c, updated || GivesUpdate(w, e, c), tables + {View(Step(w, e).game.players)})
  {
    match e
    case Receive(id, p, ch) => CallbackIsReal(w, true, id, p, ch, c, updated, tables);
    case FinalLeave(id, ch) => CallbackIsReal(w, false, id, LEAVE_PACKET, ch, c, updated, tables);
    case Deliver(id) => DeliveryIsReal(w, id, c, updated, tables);
    case Connect => ConnectIsReal(w, c, updated, tables);
    case Close(id) =>
  }

  lemma ConnectIsReal(w: World, c: u32, updated: bool, tables: set<Table>)
    requires Sound(w) && Enabled(w, Connect) && Real(w, c, updated, tables)
    ensures Real(Step(w, Connect), c, updated, tables + {View(w.game.players)})
  {
    if c == w.nextId {
      assert StreamReal(map[], [], false, tables);
    }
  }

  lemma DeliveryIsReal(w: World, id: u32, c: u32, updated: bool, tables: set<Table>)
    requires Sound(w) && Enabled(w, Deliver(id)) && Real(w, c, updated, tables)
    ensures Real(Step(w, Deliver(id)), c, updated || GivesUpdate(w, Deliver(id), c), tables + {View(w.game.players)})
  {
    if c == id {
      ShorterStreamIsReal(w.copies[c], w.out[c], updated, tables);
      if HasUpdate(w.out[c][1..]) {
        var i :| 0 <= i < |w.out[c][1..]| && w.out[c][1..][i].StateUpdate?;
        assert w.out[c][i + 1].StateUpdate?;
      }
    }
  }

  /** Whether client `c` is handed a full update during the run. */
  ghost predicate Updates(w: World, es: seq<Event>, c: u32)
    requires IsRun(w, es)
    decreases |es|
  {
    es != [] && (GivesUpdate(w, es[0], c) || Updates(Step(w, es[0]), es[1..], c))
  }

  /** The tables the server has had, from the start of the run to its end. */
  ghost function Tables(w: World, es: seq<Event>): set<Table>
    requires IsRun(w, es)
    decreases |es|
  {
    {View(w.game.players)} + if es == [] then {} else Tables(Step(w, es[0]), es[1..])
  }

  lemma NextIsTracked(w: World, e: Event, next: World)
    requires Sound(w) && Enabled(w, e) && AllTracked(w) && next == Step(w, e)
    ensures Sound(next) && AllTracked(next)
  {
    StepKeepsSound(w, e);
    StepTracks(w, e);
  }

  lemma NextIsReal(w: World, e: Event, next: World, c: u32, updated: bool, tables: set<Table>)
    requires Sound(w) && Enabled(w, e) && AllTracked(w) && Real(w, c, updated, tables)
    requires next == Step(w, e) && View(next.game.players) in tables
    ensures Real(next, c, updated || GivesUpdate(w, e, c), tables)
  {
    StepIsReal(w, e, c, updated, tables);
    assert tables + {View(next.game.players)} == tables;
  }

  lemma TablesOfRest(w: World, es: seq<Event>)
    requires IsRun(w, es) && es != []
    ensures var next := Step(w, es[0]);
      View(next.game.players) in Tables(next, es[1..]) && Tables(next, es[1..]) <= Tables(w, es)
  {
  }

  lemma {:induction false} RunIsReal(w: World, es: seq<Event>, c: u32, updated: bool, tables: set<Table>)
    requires Sound(w) && IsRun(w, es) && AllTracked(w) && Real(w, c, updated, tables)
    requires Tables(w, es) <= tables
    ensures Real(Run(w, es), c, updated || Updates(w, es, c), tables)
    decreases |es|
  {
    if es != [] {
      var next := Step(w, es[0]);
      TablesOfRest(w, es);
      NextIsTracked(w, es[0], next);
      NextIsReal(w, es[0], next, c, updated, tables);
      RunIsReal(next, es[1..], c, updated || GivesUpdate(w, es[0], c), tables);
    }
  }

  /** In every run, from the first full update on, what a client shows is at every moment a table that the server has
      had: messages still under way never make it show a mixture. */
  lemma ScreensShowRealTables(es: seq<Event>, c: u32)
    requires IsRun(INITIAL, es) && c in Run(INITIAL, es).out && Updates(INITIAL, es, c)
    ensures var w := Run(INITIAL, es);
      c in w.copies && View(w.copies[c]) in Tables(INITIAL, es)
  {
    var w := Run(INITIAL, es);
    RunTracks(INITIAL, es);
    RunIsReal(INITIAL, es, c, false, Tables(INITIAL, es));
    assert w.out[c][..0] == [];
    assert View(Replay(w.copies[c], w.out[c][..0])) in Tables(INITIAL, es);
  }
}
