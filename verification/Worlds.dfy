/** The whole system as a state machine: the server's game, its connections with their outgoing streams, and the
    clients' copies. A step is one run of the packet callback, a connection's beginning or end, or one delivery. */
module Worlds {
  import opened Bytes
  import opened Packets
  import opened Messages
  import opened Votes
  import opened Rules
  import opened Codec
  import opened Handlers
  import opened Replicas
  import Seqs

  datatype World = World(
    game: Game,
    nextId: nat,
    /** Handlers whose connection is gone but whose final PLAYER_LEAVE callback has not run yet. */
    closing: set<u32>,
    /** The undelivered messages of each open connection, oldest first. */
    out: map<u32, seq<Msg>>,
    copies: map<u32, Players>,
    /** The connections that have been sent a full game state. */
    synced: set<u32>,
    rounds: nat)

  const INITIAL := World(EMPTY, 1, {}, map[], map[], {}, 0)

  datatype Event =
    | Connect
    | Receive(id: u32, packet: Packet, ch: Choice)
    | Close(id: u32)
    | FinalLeave(id: u32, ch: Choice)
    | Deliver(id: u32)

  const LEAVE_PACKET := Make(PLAYER_LEAVE, [])

  ghost predicate Enabled(w: World, e: Event) {
    match e
    case Connect => w.nextId < 0x1_0000_0000
    case Receive(id, p, ch) => id in w.out && Possible(w.game, id, p, ch)
    case Close(id) => id in w.out
    case FinalLeave(id, ch) => id in w.closing && Possible(w.game, id, LEAVE_PACKET, ch)
    case Deliver(id) => id in w.out && id in w.copies && w.out[id] != []
  }

  /** What the effects put into the stream of client `c`. */
  function Received(c: u32, effects: seq<Effect>): seq<Msg> {
    if effects == [] then []
    else
      (match effects[0]
       case SendTo(id, m) => if id == c then [m] else []
       case Broadcast(m) => [m]
       case BroadcastExcept(id, m) => if id != c then [m] else [])
      + Received(c, effects[1..])
  }

  function Posted(out: map<u32, seq<Msg>>, effects: seq<Effect>): map<u32, seq<Msg>> {
    map c | c in out :: out[c] + Received(c, effects)
  }

  predicate HasUpdate(ms: seq<Msg>) {
    exists i :: 0 <= i < |ms| && ms[i].StateUpdate?
  }

  /** The streams into which the effects put a full update. */
  function Updated(out: map<u32, seq<Msg>>, effects: seq<Effect>): set<u32> {
    set c | c in out && HasUpdate(Received(c, effects))
  }

  function AfterCallback(w: World, o: Outcome): World {
    w.(game := o.game,
       out := Posted(w.out, o.effects),
       synced := w.synced + Updated(w.out, o.effects),
       rounds := w.rounds + if o.scored then 1 else 0)
  }

  function Step(w: World, e: Event): World
    requires Enabled(w, e)
  {
    match e
    case Connect =>
      w.(nextId := w.nextId + 1, out := w.out[w.nextId := []], copies := w.copies[w.nextId := map[]],
         synced := w.synced - {w.nextId})
    case Receive(id, p, ch) => AfterCallback(w, Handle(w.game, true, id, p, ch))
    case Close(id) => w.(out := w.out - {id}, copies := w.copies - {id}, closing := w.closing + {id})
    case FinalLeave(id, ch) =>
      AfterCallback(w, Handle(w.game, false, id, LEAVE_PACKET, ch)).(closing := w.closing - {id})
    case Deliver(id) =>
      w.(out := w.out[id := w.out[id][1..]], copies := w.copies[id := Update(w.copies[id], w.out[id][0])])
  }

  ghost predicate IsRun(w: World, es: seq<Event>)
    decreases |es|
  {
    es == [] || (Enabled(w, es[0]) && IsRun(Step(w, es[0]), es[1..]))
  }

  function Run(w: World, es: seq<Event>): World
    requires IsRun(w, es)
    decreases |es|
  {
    if es == [] then w else Run(Step(w, es[0]), es[1..])
  }

  // -------------------------------------------------------------- no ghosts ----

  /** Every player belongs to a handler that still owes its final callback; ids are never used twice. */
  ghost predicate NoGhosts(w: World) {
    && w.game.players.Keys <= w.out.Keys + w.closing
    && w.out.Keys !! w.closing
    && w.copies.Keys == w.out.Keys
    && 1 <= w.nextId <= 0x1_0000_0000
    && (forall id :: id in w.out || id in w.closing ==> 1 <= id < w.nextId)
  }

  lemma StartKeepsKeys(g: Game, ch: Choice)
    requires Fits(ch, g.players.Keys)
    ensures StartIfPossible(g, ch).game.players.Keys == g.players.Keys
  {
  }

  /** A callback adds at most its own client to the players, and its PLAYER_LEAVE takes the client out. */
  lemma HandleKeys(g: Game, connected: bool, id: u32, p: Packet, ch: Choice)
    requires Possible(g, id, p, ch)
    ensures var after := Handle(g, connected, id, p, ch).game.players.Keys;
      && after <= g.players.Keys + {id}
      && (p.kind == PLAYER_LEAVE ==> after == g.players.Keys - {id})
      && (p.kind != PLAYER_LEAVE ==> after >= g.players.Keys)
  {
    if p.kind == PLAYER_JOIN {
      JoinKeys(g, id, p.data, ch);
    } else if p.kind == PLAYER_LEAVE {
      LeaveKeys(g, id, ch);
    } else if p.kind == CHAT_MESSAGE && connected && CommandIn(p.data).Some? && g.active {
      VoteKeys(g, id, CommandIn(p.data).value, ch);
    }
  }

  lemma JoinKeys(g: Game, id: u32, data: bytes, ch: Choice)
    requires Fits(ch, g.players.Keys + {id})
    ensures JoinStep(g, id, data, ch).game.players.Keys == g.players.Keys + {id}
  {
    if id !in g.players {
      var joined := Added(g, id, if |data| > 0 then data else DefaultName(id));
      assert joined.players.Keys == g.players.Keys + {id};
      StartKeepsKeys(joined, ch);
    }
  }

  lemma LeaveKeys(g: Game, id: u32, ch: Choice)
    requires Fits(ch, g.players.Keys - {id})
    ensures LeaveStep(g, id, ch).game.players.Keys == g.players.Keys - {id}
  {
    if id in g.players {
      LeaveThenStarts(g, id, ch);
      StartKeepsKeys(Departed(g, id), ch);
    }
  }

  lemma VoteKeys(g: Game, voter: u32, name: bytes, ch: Choice)
    requires Fits(ch, g.players.Keys)
    requires IsWalk(ch.ballots, Tally(Voted(g, voter, TargetOf(g, name, ch)).votes).Keys)
    ensures VoteStep(g, voter, name, ch).game.players.Keys == g.players.Keys
  {
    var target := TargetOf(g, name, ch);
    var voted := Voted(g, voter, target);
    if target != 0 && AcceptsVote(g, voter, target) && |HaveVoted(voted)| >= |voted.players| {
      PaidKeepsKeys(voted, VerdictOf(voted, ch.ballots));
      StartKeepsKeys(Paid(voted, VerdictOf(voted, ch.ballots)), ch);
    }
  }

  /** What every step of the system keeps. */
  ghost predicate Sound(w: World) {
    Settled(w.game) && NoGhosts(w)
  }

  lemma AfterCallbackIsSound(w: World, o: Outcome)
    requires Sound(w) && Settled(o.game)
    requires o.game.players.Keys <= w.out.Keys + w.closing
    ensures Sound(AfterCallback(w, o))
  {
    assert Posted(w.out, o.effects).Keys == w.out.Keys;
  }

  lemma ReceiveKeepsSound(w: World, id: u32, p: Packet, ch: Choice)
    requires Sound(w) && Enabled(w, Receive(id, p, ch))
    ensures Sound(Step(w, Receive(id, p, ch)))
  {
    HandleSettles(w.game, true, id, p, ch);
    HandleKeys(w.game, true, id, p, ch);
    AfterCallbackIsSound(w, Handle(w.game, true, id, p, ch));
  }

  /** Connections that begin or end, and deliveries, leave the game alone. */
  lemma QuietStepKeepsSound(w: World, e: Event)
    requires Sound(w) && Enabled(w, e) && (e.Connect? || e.Close? || e.Deliver?)
    ensures Sound(Step(w, e)) && Step(w, e).game == w.game
  {
    QuietStepMakesNoGhosts(w, e);
  }

  lemma QuietStepMakesNoGhosts(w: World, e: Event)
    requires NoGhosts(w) && Enabled(w, e) && (e.Connect? || e.Close? || e.Deliver?)
    ensures NoGhosts(Step(w, e)) && Step(w, e).game == w.game
  {
  }

  lemma FinalLeaveKeepsSound(w: World, id: u32, ch: Choice)
    requires Sound(w) && Enabled(w, FinalLeave(id, ch))
    ensures Sound(Step(w, FinalLeave(id, ch)))
  {
    var o := Handle(w.game, false, id, LEAVE_PACKET, ch);
    HandleSettles(w.game, false, id, LEAVE_PACKET, ch);
    HandleKeys(w.game, false, id, LEAVE_PACKET, ch);
    AfterCallbackIsSound(w, o);
    var after := AfterCallback(w, o);
    assert Sound(after.(closing := w.closing - {id}));
  }

  lemma StepKeepsSound(w: World, e: Event)
    requires Sound(w) && Enabled(w, e)
    ensures Sound(Step(w, e))
  {
    match e
    case Receive(id, p, ch) => ReceiveKeepsSound(w, id, p, ch);
    case FinalLeave(id, ch) => FinalLeaveKeepsSound(w, id, ch);
    case _ => QuietStepKeepsSound(w, e);
  }

  lemma {:induction false} RunKeepsSound(w: World, es: seq<Event>)
    requires Sound(w) && IsRun(w, es)
    ensures Sound(Run(w, es))
    decreases |es|
  {
    if es != [] {
      StepKeepsSound(w, es[0]);
      RunKeepsSound(Step(w, es[0]), es[1..]);
    }
  }

  /** After every callback of every run: with three to six players a round is active; an active round has exactly one
      liar, two to five guessers and somebody left to vote; and every player has a handler that still owes its final
      callback. */
  lemma EveryRunIsSound(es: seq<Event>)
    requires IsRun(INITIAL, es)
    ensures var w := Run(INITIAL, es);
      && Inv(w.game)
      && (3 <= |w.game.players| <= 6 ==> w.game.active)
      && (w.game.active ==>
            && (exists id :: id in w.game.players && id !in w.game.votes)
            && w.game.liarId in w.game.players
            && (forall id :: id in w.game.players ==> (w.game.players[id].role == Liar <==> id == w.game.liarId))
            && 2 <= |Guessers(w.game)| <= 5)
      && w.game.players.Keys <= w.out.Keys + w.closing
  {
    RunKeepsSound(INITIAL, es);
  }

  /** A client whose final callback has run: no connection, nothing owed, no player. */
  ghost predicate Gone(w: World, id: u32) {
    id < w.nextId && id !in w.out && id !in w.closing
  }

  /** The event is a callback, a delivery or the end of the connection of client `id`. */
  predicate Concerns(e: Event, id: u32) {
    !e.Connect? && e.id == id
  }

  lemma GoneStep(w: World, e: Event, id: u32)
    requires Enabled(w, e) && Gone(w, id)
    ensures Gone(Step(w, e), id) && !Concerns(e, id)
  {
  }

  lemma {:induction false} GoneStays(w: World, es: seq<Event>, id: u32)
    requires IsRun(w, es) && Gone(w, id)
    ensures Gone(Run(w, es), id)
    ensures forall i :: 0 <= i < |es| ==> !Concerns(es[i], id)
    decreases |es|
  {
    if es != [] {
      GoneStep(w, es[0], id);
      GoneStays(Step(w, es[0]), es[1..], id);
      forall i | 0 <= i < |es|
        ensures !Concerns(es[i], id)
      {
        if i > 0 {
          assert es[i] == es[1..][i - 1];
        }
      }
    }
  }

  /** Nothing is ever done for that client again, and it never reappears among the players. */
  lemma GoneForGood(w: World, es: seq<Event>, id: u32)
    requires Sound(w) && IsRun(w, es) && Gone(w, id)
    ensures Gone(Run(w, es), id) && id !in Run(w, es).game.players
    ensures forall i :: 0 <= i < |es| ==> !Concerns(es[i], id)
  {
    GoneStays(w, es, id);
    RunKeepsSound(w, es);
  }

  /** The final callback makes its client gone. */
  lemma FinalLeaveMakesGone(w: World, id: u32, ch: Choice)
    requires Sound(w) && Enabled(w, FinalLeave(id, ch))
    ensures Gone(Step(w, FinalLeave(id, ch)), id)
  {
  }
}
