/** The secrecy of the word over whole runs of the system. */
module SecretRuns {
  import opened Bytes
  import opened Packets
  import opened Messages
  import opened Rules
  import opened Codec
  import opened Handlers
  import opened Replicas
  import opened Worlds
  import opened Tracking
  import opened Secrecy
  import Seqs

  /** The same event, except perhaps for the word drawn in it. */
  function WithoutWord(e: Event): Event {
    match e
    case Receive(id, p, ch) => Receive(id, p, ch.(word := []))
    case FinalLeave(id, ch) => FinalLeave(id, ch.(word := []))
    case _ => e
  }

  ghost predicate SameEvents(a: seq<Event>, b: seq<Event>) {
    |a| == |b| && forall i :: 0 <= i < |a| ==> WithoutWord(a[i]) == WithoutWord(b[i])
  }

  /** The worlds differ in nothing but words: in the game, and in guessers' role assignments still under way. */
  ghost predicate SameWorld(a: World, b: World) {
    && SameGame(a.game, b.game)
    && a == b.(game := a.game, out := a.out)
    && a.out.Keys == b.out.Keys
    && forall c :: c in a.out ==> RedactedAll(a.out[c]) == RedactedAll(b.out[c])
  }

  function EffectsOf(w: World, e: Event): seq<Effect>
    requires Enabled(w, e)
  {
    match e
    case Receive(id, p, ch) => Handle(w.game, true, id, p, ch).effects
    case FinalLeave(id, ch) => Handle(w.game, false, id, LEAVE_PACKET, ch).effects
    case _ => []
  }

  /** Everything put into the stream of client `c` during the run. */
  function Sent(w: World, es: seq<Event>, c: u32): seq<Msg>
    requires IsRun(w, es)
    decreases |es|
  {
    if es == [] then []
    else (if c in w.out then Received(c, EffectsOf(w, es[0])) else []) + Sent(Step(w, es[0]), es[1..], c)
  }

  lemma {:induction false} RedactedUpdates(a: seq<Msg>, b: seq<Msg>)
    requires RedactedAll(a) == RedactedAll(b)
    ensures |a| == |b| && forall i :: 0 <= i < |a| ==> Redacted(a[i]) == Redacted(b[i])
    decreases |a|
  {
    if a == [] {
      assert |RedactedAll(b)| == 0;
    } else {
      assert b != [] && RedactedAll(a)[0] == RedactedAll(b)[0];
      assert RedactedAll(a)[1..] == RedactedAll(a[1..]);
      assert RedactedAll(b)[1..] == RedactedAll(b[1..]);
      RedactedUpdates(a[1..], b[1..]);
      forall i | 0 <= i < |a|
        ensures Redacted(a[i]) == Redacted(b[i])
      {
        if i > 0 {
          assert a[i] == a[1..][i - 1] && b[i] == b[1..][i - 1];
        }
      }
    }
  }

  lemma SameHasUpdate(a: seq<Msg>, b: seq<Msg>)
    requires RedactedAll(a) == RedactedAll(b)
    ensures HasUpdate(a) == HasUpdate(b)
  {
    RedactedUpdates(a, b);
  }

  /** The effects put the same into every stream, but for words. */
  ghost predicate SameEffects(a: seq<Effect>, b: seq<Effect>) {
    forall c :: RedactedAll(Received(c, a)) == RedactedAll(Received(c, b))
  }

  lemma SamePosted(a: map<u32, seq<Msg>>, b: map<u32, seq<Msg>>, ea: seq<Effect>, eb: seq<Effect>)
    requires a.Keys == b.Keys && forall c :: c in a ==> RedactedAll(a[c]) == RedactedAll(b[c])
    requires SameEffects(ea, eb)
    ensures Posted(a, ea).Keys == Posted(b, eb).Keys
    ensures forall c :: c in a ==> RedactedAll(Posted(a, ea)[c]) == RedactedAll(Posted(b, eb)[c])
  {
    forall c | c in a
      ensures RedactedAll(Posted(a, ea)[c]) == RedactedAll(Posted(b, eb)[c])
    {
      RedactedAppend(a[c], Received(c, ea));
      RedactedAppend(b[c], Received(c, eb));
    }
  }

  lemma SameUpdated(a: map<u32, seq<Msg>>, b: map<u32, seq<Msg>>, ea: seq<Effect>, eb: seq<Effect>)
    requires a.Keys == b.Keys && SameEffects(ea, eb)
    ensures Updated(a, ea) == Updated(b, eb)
  {
    forall c | c in a
      ensures HasUpdate(Received(c, ea)) == HasUpdate(Received(c, eb))
    {
      SameHasUpdate(Received(c, ea), Received(c, eb));
    }
    assert forall c :: c in a <==> c in b;
  }

  lemma SameCallback(a: World, b: World, oa: Outcome, ob: Outcome)
    requires SameWorld(a, b) && SameEffects(oa.effects, ob.effects)
    requires oa.scored == ob.scored && SameGame(oa.game, ob.game)
    ensures SameWorld(AfterCallback(a, oa), AfterCallback(b, ob))
  {
    SamePosted(a.out, b.out, oa.effects, ob.effects);
    SameUpdated(a.out, b.out, oa.effects, ob.effects);
  }

  lemma SameHandles(a: Game, b: Game, connected: bool, id: u32, p: Packet, chA: Choice, chB: Choice)
    requires SameGame(a, b) && SameChoice(chA, chB) && Possible(a, id, p, chA) && Possible(b, id, p, chB)
    ensures var oa, ob := Handle(a, connected, id, p, chA), Handle(b, connected, id, p, chB);
      SameEffects(oa.effects, ob.effects) && oa.scored == ob.scored && SameGame(oa.game, ob.game)
  {
    SameHandle(a, b, connected, id, p, chA, chB, 0);
    forall c
      ensures RedactedAll(Received(c, Handle(a, connected, id, p, chA).effects))
           == RedactedAll(Received(c, Handle(b, connected, id, p, chB).effects))
    {
      SameHandle(a, b, connected, id, p, chA, chB, c);
    }
  }

  lemma SameDelivery(a: World, b: World, id: u32)
    requires SameWorld(a, b) && Enabled(a, Deliver(id)) && Enabled(b, Deliver(id))
    ensures SameWorld(Step(a, Deliver(id)), Step(b, Deliver(id)))
  {
    assert RedactedAll(a.out[id]) == RedactedAll(b.out[id]);
    assert RedactedAll(a.out[id])[1..] == RedactedAll(a.out[id][1..]);
    assert RedactedAll(b.out[id])[1..] == RedactedAll(b.out[id][1..]);
    RedactedUpdates(a.out[id], b.out[id]);
    assert Redacted(a.out[id][0]) == Redacted(b.out[id][0]);
  }

  lemma SameFinalLeave(a: World, b: World, id: u32, chA: Choice, chB: Choice)
    requires SameWorld(a, b) && SameChoice(chA, chB)
    requires Enabled(a, FinalLeave(id, chA)) && Enabled(b, FinalLeave(id, chB))
    ensures SameWorld(Step(a, FinalLeave(id, chA)), Step(b, FinalLeave(id, chB)))
    ensures SameEffects(EffectsOf(a, FinalLeave(id, chA)), EffectsOf(b, FinalLeave(id, chB)))
  {
    SameHandles(a.game, b.game, false, id, LEAVE_PACKET, chA, chB);
    SameCallback(a, b, Handle(a.game, false, id, LEAVE_PACKET, chA), Handle(b.game, false, id, LEAVE_PACKET, chB));
  }

  lemma SameStep(a: World, b: World, ea: Event, eb: Event)
    requires SameWorld(a, b) && WithoutWord(ea) == WithoutWord(eb) && Enabled(a, ea) && Enabled(b, eb)
    ensures SameWorld(Step(a, ea), Step(b, eb))
    ensures SameEffects(EffectsOf(a, ea), EffectsOf(b, eb))
  {
    match ea
    case Receive(id, p, ch) =>
      SameHandles(a.game, b.game, true, id, p, ch, eb.ch);
      SameCallback(a, b, Handle(a.game, true, id, p, ch), Handle(b.game, true, id, p, eb.ch));
    case FinalLeave(id, ch) => SameFinalLeave(a, b, id, ch, eb.ch);
    case Deliver(id) => SameDelivery(a, b, id);
    case _ =>
  }

  lemma SamePossible(a: Game, b: Game, id: u32, p: Packet, chA: Choice, chB: Choice)
    requires SameGame(a, b) && SameChoice(chA, chB) && Possible(a, id, p, chA)
    ensures Possible(b, id, p, chB)
  {
  }

  /** Whatever can happen in one world can happen in the other, with any other word. */
  lemma SameEnabled(a: World, b: World, ea: Event, eb: Event)
    requires SameWorld(a, b) && WithoutWord(ea) == WithoutWord(eb) && Enabled(a, ea)
    ensures Enabled(b, eb)
  {
    match ea
    case Receive(id, p, ch) => SamePossible(a.game, b.game, id, p, ch, eb.ch);
    case FinalLeave(id, ch) => SamePossible(a.game, b.game, id, LEAVE_PACKET, ch, eb.ch);
    case Deliver(id) => RedactedUpdates(a.out[id], b.out[id]);
    case _ =>
  }

  /** A run with other words is a run too, and the two stay the same but for the words. */
  lemma {:induction false} RunsDifferInWordsOnly(a: World, b: World, ea: seq<Event>, eb: seq<Event>, c: u32)
    requires SameWorld(a, b) && SameEvents(ea, eb) && IsRun(a, ea)
    ensures IsRun(b, eb)
    ensures SameWorld(Run(a, ea), Run(b, eb))
    ensures RedactedAll(Sent(a, ea, c)) == RedactedAll(Sent(b, eb, c))
    decreases |ea|
  {
    if ea != [] {
      SameEnabled(a, b, ea[0], eb[0]);
      SameStep(a, b, ea[0], eb[0]);
      var nextA, nextB := Step(a, ea[0]), Step(b, eb[0]);
      assert SameEvents(ea[1..], eb[1..]);
      RunsDifferInWordsOnly(nextA, nextB, ea[1..], eb[1..], c);
      if c in a.out {
        RedactedAppend(Received(c, EffectsOf(a, ea[0])), Sent(nextA, ea[1..], c));
        RedactedAppend(Received(c, EffectsOf(b, eb[0])), Sent(nextB, eb[1..], c));
      } else {
        Seqs.Empty(Sent(nextA, ea[1..], c));
        Seqs.Empty(Sent(nextB, eb[1..], c));
      }
    }
  }

  /** After no step of the run is the client a guesser. */
  ghost predicate NeverGuesser(w: World, es: seq<Event>, c: u32)
    requires IsRun(w, es)
    decreases |es|
  {
    es != [] ==> !IsGuesser(Step(w, es[0]).game, c) && NeverGuesser(Step(w, es[0]), es[1..], c)
  }

  lemma StepTellsGuessers(w: World, e: Event, c: u32)
    requires Sound(w) && Enabled(w, e) && !IsGuesser(Step(w, e).game, c)
    ensures NoWord(Received(c, EffectsOf(w, e)))
  {
    match e
    case Receive(id, p, ch) => HandleTellsGuessers(w.game, true, id, p, ch, c);
    case FinalLeave(id, ch) => HandleTellsGuessers(w.game, false, id, LEAVE_PACKET, ch, c);
    case _ => assert Received(c, []) == [];
  }

  lemma {:induction false} NonGuesserIsNotTold(w: World, es: seq<Event>, c: u32)
    requires Sound(w) && IsRun(w, es) && NeverGuesser(w, es, c)
    ensures NoWord(Sent(w, es, c))
    decreases |es|
  {
    if es != [] {
      StepKeepsSound(w, es[0]);
      StepTellsGuessers(w, es[0], c);
      NonGuesserIsNotTold(Step(w, es[0]), es[1..], c);
    }
  }

  /** A client that is no guesser is sent exactly the same in both runs, so nothing it is sent depends on the word. */
  lemma NonGuesserLearnsNothing(a: World, b: World, ea: seq<Event>, eb: seq<Event>, c: u32)
    requires Sound(a) && SameWorld(a, b) && SameEvents(ea, eb) && IsRun(a, ea)
    requires NeverGuesser(a, ea, c)
    ensures IsRun(b, eb) && Sent(a, ea, c) == Sent(b, eb, c)
  {
    RunsDifferInWordsOnly(a, b, ea, eb, c);
    NonGuesserIsNotTold(a, ea, c);
    NothingToRedact(Sent(a, ea, c), Sent(b, eb, c));
  }

  /** The client is the liar after every step of the run: from the step that begins a round to the end of the round. */
  ghost predicate LiarThroughout(w: World, es: seq<Event>, c: u32)
    requires IsRun(w, es)
    decreases |es|
  {
    es != [] ==> Step(w, es[0]).game.liarId == c && LiarThroughout(Step(w, es[0]), es[1..], c)
  }

  lemma {:induction false} LiarIsNoGuesser(w: World, es: seq<Event>, c: u32)
    requires Sound(w) && IsRun(w, es) && LiarThroughout(w, es, c)
    ensures NeverGuesser(w, es, c)
    decreases |es|
  {
    if es != [] {
      StepKeepsSound(w, es[0]);
      LiarIsNoGuesser(Step(w, es[0]), es[1..], c);
    }
  }

  /** From the same point, drawing any other words gives another run, and that run sends the liar of the round the same
      packets throughout the round, the packet announcing the round included. */
  lemma LiarLearnsNothing(w: World, ea: seq<Event>, eb: seq<Event>, liar: u32)
    requires Sound(w) && SameEvents(ea, eb) && IsRun(w, ea)
    requires LiarThroughout(w, ea, liar)
    ensures IsRun(w, eb) && Sent(w, ea, liar) == Sent(w, eb, liar)
  {
    LiarIsNoGuesser(w, ea, liar);
    NonGuesserLearnsNothing(w, w, ea, eb, liar);
  }
}
