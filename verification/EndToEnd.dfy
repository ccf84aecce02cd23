/** From the game to the screen: the messages of a run, encoded, framed, cut into arbitrary chunks, received, decoded
    and applied. */
module EndToEnd {
  import opened Bytes
  import opened Packets
  import opened Framing
  import opened Messages
  import opened Votes
  import opened Rules
  import opened GameStates
  import opened Codec
  import opened Handlers
  import opened Scoring
  import opened Replicas
  import opened Worlds
  import opened Tracking
  import opened Scores
  import opened Progress
  import Seqs

  // ---------------------------------------------------- a list of messages ----

  /** `ps` are packets the sender may produce for `ms`, and everything fits its field. */
  ghost predicate EncodesAll(ms: seq<Msg>, ps: seq<Packet>) {
    && |ms| == |ps|
    && forall i :: 0 <= i < |ms| ==> Encodes(ms[i], ps[i]) && Representable(ms[i]) && Sendable(ps[i])
  }

  lemma {:induction false} NothingDropped(ps: seq<Packet>)
    requires forall i :: 0 <= i < |ps| ==> ps[i].kind != 0
    ensures NonZero(ps) == ps
  {
    if ps != [] {
      NothingDropped(ps[1..]);
      assert ps == [ps[0]] + ps[1..];
    }
  }

  /** Any list of messages, however their bytes are cut into chunks, arrives as exactly its packets, each decoded as
      the message it was made from, with no byte left over. */
  lemma MessagesArrive(ms: seq<Msg>, ps: seq<Packet>, chunks: seq<bytes>)
    requires EncodesAll(ms, ps) && Concat(chunks) == WireAll(ps)
    ensures NonZero(Parse(Concat(chunks)).frames) == ps
    ensures Parse(Concat(chunks)).rest == []
    ensures forall i :: 0 <= i < |ms| ==> Decode(ps[i]) == Some(ms[i])
  {
    forall i | 0 <= i < |ms|
      ensures Decode(ps[i]) == Some(ms[i]) && ps[i].kind != 0 && ps[i].Received()
    {
      MessageRoundTrip(ms[i], ps[i]);
    }
    Seqs.Empty(WireAll(ps));
    ParseOfFrames(ps, []);
    NothingDropped(ps);
  }

  /** If only some of the bytes have come, the packets handed over are a prefix of those sent. */
  lemma MessagesArriveInOrder(ms: seq<Msg>, ps: seq<Packet>, chunks: seq<bytes>, missing: bytes)
    requires EncodesAll(ms, ps) && Concat(chunks) + missing == WireAll(ps)
    ensures NonZero(Parse(Concat(chunks)).frames) <= ps
  {
    forall i | 0 <= i < |ms|
      ensures ps[i].kind != 0 && ps[i].Received()
    {
      MessageRoundTrip(ms[i], ps[i]);
    }
    Seqs.Split(Concat(chunks), missing);
    PartialStreamDeliversPrefix(ps, |Concat(chunks)|);
    NothingDropped(Parse(Concat(chunks)).frames);
  }

  lemma {:induction false} PacketsReplay(copy: Players, ms: seq<Msg>, ps: seq<Packet>)
    requires |ms| == |ps| && forall i :: 0 <= i < |ms| ==> Decode(ps[i]) == Some(ms[i])
    ensures OnPackets(copy, ps) == Replay(copy, ms)
    decreases |ms|
  {
    if ms != [] {
      assert Decode(ps[0]) == Some(ms[0]);
      forall i | 0 <= i < |ms[1..]|
        ensures Decode(ps[1..][i]) == Some(ms[1..][i])
      {
        assert ps[1..][i] == ps[i + 1] && ms[1..][i] == ms[i + 1];
      }
      PacketsReplay(Update(copy, ms[0]), ms[1..], ps[1..]);
    }
  }

  // ------------------------------------------- the messages of a run fit ----

  /** Scores below this bound fit their 32-bit field. */
  const MANY_ROUNDS: nat := 0x4000_0000

  lemma {:induction false} IdsAreFew(ids: set<u32>, n: nat)
    requires forall id :: id in ids ==> 1 <= id <= n
    ensures |ids| <= n
    decreases n
  {
    if n == 0 {
      assert ids == {};
    } else {
      var others := set id | id in ids && id < n;
      IdsAreFew(others, n - 1);
      if n < 0x1_0000_0000 {
        SubsetCount(ids, others + {n});
      } else {
        assert ids == others;
      }
    }
  }

  ghost predicate SmallScores(players: Players) {
    forall id :: id in players ==> 0 <= players[id].score < 0x8000_0000
  }

  ghost predicate AllRepresentable(effects: seq<Effect>) {
    forall i :: 0 <= i < |effects| ==> Representable(effects[i].msg)
  }

  lemma {:induction false} RoleSendsFit(players: Players, walk: seq<u32>, topic: bytes, word: bytes)
    requires forall id :: id in walk ==> id in players
    ensures AllRepresentable(RoleSends(players, walk, topic, word))
    decreases |walk|
  {
    if walk != [] {
      RoleSendsFit(players, walk[1..], topic, word);
    }
  }

  lemma StartFits(g: Game, ch: Choice)
    requires Fits(ch, g.players.Keys)
    ensures AllRepresentable(StartIfPossible(g, ch).effects)
  {
    if CanStart(g) && !g.active {
      var started := Started(g, ch.liarId, ch.topic, ch.word);
      assert started.players.Keys == g.players.Keys;
      RoleSendsFit(started.players, ch.roles, ch.topic, ch.word);
    }
  }

  /** Two effects that fit, then the start of a round. */
  lemma RoundFits(first: Effect, second: Effect, g: Game, ch: Choice)
    requires Fits(ch, g.players.Keys) && Representable(first.msg) && Representable(second.msg)
    ensures AllRepresentable([first, second] + StartIfPossible(g, ch).effects)
  {
    StartFits(g, ch);
  }

  lemma TableFits(g: Game, walk: seq<u32>)
    requires Inv(g) && SmallScores(g.players) && IsWalk(walk, g.players.Keys)
    ensures Representable(StateUpdate(States(g.players, walk)))
  {
    var states := States(g.players, walk);
    forall i | 0 <= i < |states|
      ensures IsInt32(states[i].score) && NamedRole(states[i].role)
    {
      assert walk[i] in walk;
    }
  }

  lemma TallyFits(g: Game, winner: u32, caught: bool)
    requires Inv(g)
    ensures Representable(Result(VoteResult(Tally(g.votes), winner, caught)))
  {
    forall t | t in Tally(g.votes)
      ensures Tally(g.votes)[t] < 0x1_0000_0000
    {
      SubsetCount(Voters(g.votes, t), g.players.Keys);
      IdsAreFew(g.players.Keys, 0xFFFF_FFFF);
    }
  }

  lemma JoinFits(g: Game, id: u32, data: bytes, ch: Choice)
    requires Inv(g) && SmallScores(g.players) && id != 0 && Fits(ch, g.players.Keys + {id})
    ensures AllRepresentable(JoinStep(g, id, data, ch).effects)
  {
    if id !in g.players {
      var joined := Added(g, id, if |data| > 0 then data else DefaultName(id));
      AddedIsCoherent(g, id, if |data| > 0 then data else DefaultName(id));
      TableFits(joined, ch.states);
      RoundFits(SendTo(id, StateUpdate(States(joined.players, ch.states))),
                BroadcastExcept(id, Joined(joined.players[id])), joined, ch);
    }
  }

  lemma LeaveFits(g: Game, id: u32, ch: Choice)
    requires Inv(g) && SmallScores(g.players) && Fits(ch, g.players.Keys - {id})
    ensures AllRepresentable(LeaveStep(g, id, ch).effects)
  {
    if id in g.players {
      LeaveThenStarts(g, id, ch);
      DepartedIsCoherent(g, id);
      DepartedKeepsScores(g, id);
      TableFits(Departed(g, id), ch.states);
      RoundFits(BroadcastExcept(id, Left(g.players[id])),
                Broadcast(StateUpdate(States(Departed(g, id).players, ch.states))), Departed(g, id), ch);
    }
  }

  lemma FinishFits(g: Game, ch: Choice)
    requires Inv(g) && Fits(ch, g.players.Keys) && IsWalk(ch.ballots, Tally(g.votes).Keys)
    requires SmallScores(FinishRound(g, ch).game.players)
    ensures AllRepresentable(FinishRound(g, ch).effects)
  {
    var v := VerdictOf(g, ch.ballots);
    PaidIsCoherent(g, v);
    StartKeepsScores(Paid(g, v), ch);
    TableFits(Paid(g, v), ch.states);
    TallyFits(g, v.winnerId, v.liarCaught);
    RoundFits(Broadcast(Result(VoteResult(Tally(g.votes), v.winnerId, v.liarCaught))),
              Broadcast(StateUpdate(States(Paid(g, v).players, ch.states))), Paid(g, v), ch);
  }

  lemma CountFits(g: Game, ch: Choice)
    requires Inv(g) && Fits(ch, g.players.Keys) && IsWalk(ch.ballots, Tally(g.votes).Keys)
    requires SmallScores(CountStep(g, ch).game.players)
    ensures AllRepresentable(CountStep(g, ch).effects)
  {
    if |HaveVoted(g)| >= |g.players| {
      FinishFits(g, ch);
    }
  }

  lemma ChatFits(g: Game, id: u32, data: bytes, ch: Choice)
    requires Inv(g) && Fits(ch, g.players.Keys) && BallotsFit(g, id, data, ch)
    requires SmallScores(ChatStep(g, id, data, ch).game.players)
    ensures AllRepresentable(ChatStep(g, id, data, ch).effects)
  {
    match CommandIn(data)
    case Some(name) =>
      var target := TargetOf(g, name, ch);
      if g.active && target != 0 && AcceptsVote(g, id, target) {
        ApplyKeepsInv(g, SubmitVote(id, target));
        CountFits(Voted(g, id, target), ch);
      }
    case None =>
  }

  lemma HandleFits(g: Game, connected: bool, id: u32, p: Packet, ch: Choice)
    requires Inv(g) && id != 0 && Possible(g, id, p, ch)
    requires SmallScores(g.players) && SmallScores(Handle(g, connected, id, p, ch).game.players)
    ensures AllRepresentable(Handle(g, connected, id, p, ch).effects)
  {
    if p.kind == PLAYER_JOIN {
      JoinFits(g, id, p.data, ch);
    } else if p.kind == CHAT_MESSAGE && connected {
      ChatFits(g, id, p.data, ch);
    } else if p.kind == PLAYER_LEAVE {
      LeaveFits(g, id, ch);
    }
  }

  lemma {:induction false} ReceivedFit(c: u32, effects: seq<Effect>)
    requires AllRepresentable(effects)
    ensures forall i :: 0 <= i < |Received(c, effects)| ==> Representable(Received(c, effects)[i])
    decreases |effects|
  {
    if effects != [] {
      ReceivedFit(c, effects[1..]);
      assert Representable(effects[0].msg);
    }
  }

  ghost predicate QueuesFit(w: World) {
    forall c :: c in w.out ==> StreamFits(w.out[c])
  }

  ghost predicate StreamFits(ms: seq<Msg>) {
    forall i :: 0 <= i < |ms| ==> Representable(ms[i])
  }

  lemma CallbackFits(w: World, o: Outcome)
    requires QueuesFit(w) && AllRepresentable(o.effects)
    ensures QueuesFit(AfterCallback(w, o))
  {
    forall c | c in w.out
      ensures StreamFits(w.out[c] + Received(c, o.effects))
    {
      assert StreamFits(w.out[c]);
      ReceivedFit(c, o.effects);
    }
  }

  lemma StepFits(w: World, e: Event)
    requires Sound(w) && Enabled(w, e) && QueuesFit(w)
    requires SmallScores(w.game.players) && SmallScores(Step(w, e).game.players)
    ensures QueuesFit(Step(w, e))
  {
    match e
    case Receive(id, p, ch) =>
      HandleFits(w.game, true, id, p, ch);
      CallbackFits(w, Handle(w.game, true, id, p, ch));
    case FinalLeave(id, ch) =>
      HandleFits(w.game, false, id, LEAVE_PACKET, ch);
      CallbackFits(w, Handle(w.game, false, id, LEAVE_PACKET, ch));
    case Deliver(id) =>
      assert StreamFits(w.out[id]);
    case _ =>
  }

  lemma {:induction false} RunFits(w: World, es: seq<Event>)
    requires Sound(w) && IsRun(w, es) && QueuesFit(w) && Bounded(w)
    requires Run(w, es).rounds < MANY_ROUNDS
    ensures QueuesFit(Run(w, es))
    decreases |es|
  {
    RoundsNeverFall(w, es);
    if es != [] {
      var next := Step(w, es[0]);
      RoundsNeverFall(next, es[1..]);
      StepKeepsSound(w, es[0]);
      RunKeepsBounds(w, [es[0]]);
      assert Run(w, [es[0]]) == next;
      StepFits(w, es[0]);
      RunFits(next, es[1..]);
    }
  }

  // ----------------------------------------------------------- all together ----

  /** In every run of fewer than 2^30 scored rounds: take the undelivered messages of a joined client, encode and frame
      them in any way the server may, cut the bytes anywhere. What the client's receiver then hands to its callback
      makes its copy show exactly the server's ids, names and scores. */
  lemma ScreenShowsTheServer(es: seq<Event>, c: u32, ps: seq<Packet>, chunks: seq<bytes>)
    requires IsRun(INITIAL, es) && c in Run(INITIAL, es).out && c in Run(INITIAL, es).game.players
    requires Run(INITIAL, es).rounds < MANY_ROUNDS
    requires var pending := Run(INITIAL, es).out[c];
      |ps| == |pending| && forall i :: 0 <= i < |ps| ==> Encodes(pending[i], ps[i]) && Sendable(ps[i])
    requires Concat(chunks) == WireAll(ps)
    ensures var w := Run(INITIAL, es);
      c in w.copies
      && View(OnPackets(w.copies[c], NonZero(Parse(Concat(chunks)).frames))) == View(w.game.players)
  {
    var w := Run(INITIAL, es);
    CopiesFollowTheServer(es, c);
    RunFits(INITIAL, es);
    assert StreamFits(w.out[c]);
    MessagesArrive(w.out[c], ps, chunks);
    PacketsReplay(w.copies[c], w.out[c], ps);
  }

  /** The same with the receiver and the screen as the objects they are. */
  method CatchUp(receiver: Client, screen: GameClient, ghost ms: seq<Msg>, ghost ps: seq<Packet>)
    requires receiver.Valid() && receiver.connected && receiver.packetBuffer == [] && receiver.callbacks == []
    requires EncodesAll(ms, ps) && Concat(receiver.network) == WireAll(ps)
    modifies receiver, screen
    ensures screen.players == Replay(old(screen.players), ms)
    ensures receiver.packetBuffer == [] && !receiver.connected
  {
    MessagesArrive(ms, ps, receiver.network);
    Seqs.Empty(Concat(receiver.network));
    Seqs.Empty(ps);
    receiver.ReceivingThread();
    PacketsReplay(screen.players, ms, ps);
    screen.HandleAll(receiver.callbacks);
  }
}
