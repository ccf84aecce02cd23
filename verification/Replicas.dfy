/** The client's copy of the player table, kept up to date by the packets it receives. */
module Replicas {
  import opened Bytes
  import opened Packets
  import opened Messages
  import opened Rules
  import opened GameStates
  import opened Codec
  import Seqs

  /** The copy after a full update: the listed players, a later one replacing an earlier one with the same id. */
  function FromStates(states: seq<PlayerState>): Players {
    if states == [] then map[]
    else
      var n := |states| - 1;
      FromStates(states[..n])[states[n].id := states[n]]
  }

  function Update(copy: Players, m: Msg): Players {
    match m
    case StateUpdate(states) => FromStates(states)
    case Joined(joiner) => copy[joiner.id := joiner]
    case Left(leaver) => copy - {leaver.id}
    case _ => copy
  }

  function Replay(copy: Players, ms: seq<Msg>): Players
    decreases |ms|
  {
    if ms == [] then copy else Replay(Update(copy, ms[0]), ms[1..])
  }

  function OnPacket(copy: Players, p: Packet): Players {
    match Decode(p)
    case Some(m) => Update(copy, m)
    case None => copy
  }

  function OnPackets(copy: Players, ps: seq<Packet>): Players
    decreases |ps|
  {
    if ps == [] then copy else OnPackets(OnPacket(copy, ps[0]), ps[1..])
  }

  /** What the status bar shows of a player. */
  datatype Entry = Entry(username: bytes, score: int)

  function View(players: Players): map<u32, Entry> {
    map id | id in players :: Entry(players[id].username, players[id].score)
  }

  lemma {:induction false} ReplayAppend(copy: Players, a: seq<Msg>, b: seq<Msg>)
    ensures Replay(copy, a + b) == Replay(Replay(copy, a), b)
    decreases |a|
  {
    if a == [] {
      Seqs.Empty(b);
    } else {
      Seqs.TailOfAppend(a, b);
      ReplayAppend(Update(copy, a[0]), a[1..], b);
    }
  }

  /** A message that is neither an update nor a join nor a leave does not concern the copy. */
  predicate Inert(m: Msg) {
    !m.StateUpdate? && !m.Joined? && !m.Left?
  }

  predicate AllInert(ms: seq<Msg>) {
    forall i :: 0 <= i < |ms| ==> Inert(ms[i])
  }

  lemma {:induction false} ReplayInert(copy: Players, ms: seq<Msg>)
    requires AllInert(ms)
    ensures Replay(copy, ms) == copy
    decreases |ms|
  {
    if ms != [] {
      ReplayInert(copy, ms[1..]);
    }
  }

  lemma {:induction false} FromStatesAlong(players: Players, walk: seq<u32>)
    requires forall id :: id in players ==> players[id].id == id
    requires forall id :: id in walk ==> id in players
    ensures var copy := FromStates(States(players, walk));
      && (forall id :: id in copy <==> id in walk)
      && (forall id :: id in copy ==> copy[id] == players[id])
    decreases |walk|
  {
    if walk != [] {
      var n := |walk| - 1;
      FromStatesAlong(players, walk[..n]);
      assert States(players, walk)[..n] == States(players, walk[..n]);
      assert walk == walk[..n] + [walk[n]];
    }
  }

  /** A full update restores the whole table, whatever order it lists the players in. */
  lemma UpdateRestoresTable(players: Players, walk: seq<u32>)
    requires forall id :: id in players ==> players[id].id == id
    requires IsWalk(walk, players.Keys)
    ensures FromStates(States(players, walk)) == players
  {
    FromStatesAlong(players, walk);
  }

  ghost predicate Listed(ss: seq<PlayerState>, id: u32) {
    exists k :: 0 <= k < |ss| && ss[k].id == id
  }

  /** Of several listed players with one id the last counts, and nobody but those listed gets into the copy. */
  lemma {:induction false} LastListedCounts(ss: seq<PlayerState>, i: nat)
    requires i < |ss| && forall j :: i < j < |ss| ==> ss[j].id != ss[i].id
    ensures ss[i].id in FromStates(ss) && FromStates(ss)[ss[i].id] == ss[i]
    ensures forall id :: id in FromStates(ss) ==> Listed(ss, id)
    decreases |ss|
  {
    OnlyListed(ss);
    if i < |ss| - 1 {
      LastListedCounts(ss[..|ss| - 1], i);
    }
  }

  lemma {:induction false} OnlyListed(ss: seq<PlayerState>)
    ensures forall id :: id in FromStates(ss) ==> Listed(ss, id)
    decreases |ss|
  {
    if ss != [] {
      var n := |ss| - 1;
      OnlyListed(ss[..n]);
      forall id | id in FromStates(ss)
        ensures Listed(ss, id)
      {
        if id == ss[n].id {
          assert Listed(ss, id);
        } else {
          assert Listed(ss[..n], id);
          ListedInMore(ss, n, id);
        }
      }
    }
  }

  lemma ListedInMore(ss: seq<PlayerState>, n: nat, id: u32)
    requires n <= |ss| && Listed(ss[..n], id)
    ensures Listed(ss, id)
  {
    var k :| 0 <= k < n && ss[..n][k].id == id;
    assert ss[k].id == id;
  }

  /** The packet that tells of a leave takes exactly that player out of the copy. */
  lemma LeavePacketErases(copy: Players, s: PlayerState, p: Packet)
    requires Encodes(Left(s), p) && Representable(Left(s)) && Sendable(p)
    ensures OnPacket(copy, p) == copy - {s.id}
  {
    MessageRoundTrip(Left(s), p);
  }

  /** The packet that tells of a join puts exactly that player in. */
  lemma JoinPacketInserts(copy: Players, s: PlayerState, p: Packet)
    requires Encodes(Joined(s), p) && Representable(Joined(s)) && Sendable(p)
    ensures OnPacket(copy, p) == copy[s.id := s]
  {
    MessageRoundTrip(Joined(s), p);
  }

  /** The packet with a full update makes the copy the listed table, whatever it was before. */
  lemma UpdatePacketReplaces(copy: Players, players: Players, walk: seq<u32>, p: Packet)
    requires (forall id :: id in players ==> players[id].id == id) && IsWalk(walk, players.Keys)
    requires var m := StateUpdate(States(players, walk)); Encodes(m, p) && Representable(m) && Sendable(p)
    ensures OnPacket(copy, p) == players
  {
    MessageRoundTrip(StateUpdate(States(players, walk)), p);
    UpdateRestoresTable(players, walk);
  }

  /** Packets of any other type leave the copy alone. */
  lemma OtherPacketsAreIgnored(copy: Players, p: Packet)
    requires p.kind !in {13, 14, 15}
    ensures OnPacket(copy, p) == copy
  {
  }

  /** The client's callback object. */
  class GameClient {
    var players: Players

    constructor ()
      ensures players == map[]
    {
      players := map[];
    }

    method HandlePacket(packet: Packet)
      modifies this
      ensures players == OnPacket(old(players), packet)
    {
      if packet.kind == GAME_STATE_UPDATE {
        var allPlayers := ExtractGameStateUpdate(packet);
        ReplaceAll(allPlayers);
      } else if packet.kind == PLAYER_JOINED {
        var newPlayer := DeserializePlayerState(packet.data);
        players := players[newPlayer.id := newPlayer];
      } else if packet.kind == PLAYER_LEAVE {
        var leavingPlayer := DeserializePlayerState(packet.data);
        players := players - {leavingPlayer.id};
      }
    }

    method ReplaceAll(allPlayers: seq<PlayerState>)
      modifies this
      ensures players == FromStates(allPlayers)
    {
      players := map[];
      var i := 0;
      while i < |allPlayers|
        invariant 0 <= i <= |allPlayers|
        invariant players == FromStates(allPlayers[..i])
      {
        players := players[allPlayers[i].id := allPlayers[i]];
        assert allPlayers[..i + 1][..i] == allPlayers[..i];
        i := i + 1;
      }
      Seqs.Empty(allPlayers);
    }

    /** The packets of a connection, one after the other. */
    method HandleAll(packets: seq<Packet>)
      modifies this
      ensures players == OnPackets(old(players), packets)
    {
      var i := 0;
      ghost var all := OnPackets(players, packets);
      Seqs.Empty(packets);
      while i < |packets|
        invariant 0 <= i <= |packets|
        invariant OnPackets(players, packets[i..]) == all
      {
        Seqs.Tail(packets, i);
        HandlePacket(packets[i]);
        i := i + 1;
      }
    }
  }
}
