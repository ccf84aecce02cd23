/** The state of the game as a value, what each operation makes of it, and the invariant every operation keeps. */
module Rules {
  import opened Bytes
  import opened Messages
  import opened Votes

  type Players = map<u32, PlayerState>

  datatype Game = Game(players: Players, votes: map<u32, u32>, liarId: u32, topic: bytes, word: bytes, active: bool)

  const EMPTY := Game(map[], map[], 0, [], [], false)

  function Added(g: Game, id: u32, username: bytes): Game {
    if id in g.players then g else g.(players := g.players[id := PlayerState(id, username, NoRole, 0)])
  }

  function VotesWithout(votes: map<u32, u32>, id: u32): map<u32, u32> {
    map v | v in votes && v != id && votes[v] != id :: votes[v]
  }

  function Removed(g: Game, id: u32): Game {
    if id !in g.players then g
    else g.(players := g.players - {id},
            votes := VotesWithout(g.votes, id),
            liarId := if g.liarId == id then 0 else g.liarId)
  }

  function WithoutRoles(players: Players): Players {
    map id | id in players :: players[id].(role := NoRole)
  }

  function Cleared(g: Game): Game {
    Game(WithoutRoles(g.players), map[], 0, [], [], false)
  }

  function WithRoles(players: Players, liarId: u32): Players {
    map id | id in players :: players[id].(role := if id == liarId then Liar else Guesser)
  }

  predicate CanStart(g: Game) {
    3 <= |g.players| <= 6
  }

  function Started(g: Game, liarId: u32, topic: bytes, word: bytes): Game {
    if !CanStart(g) then g else Game(WithRoles(g.players, liarId), map[], liarId, topic, word, true)
  }

  predicate AcceptsVote(g: Game, voter: u32, target: u32) {
    g.active && voter !in g.votes && voter in g.players && target in g.players
  }

  function Voted(g: Game, voter: u32, target: u32): Game {
    if AcceptsVote(g, voter, target) then g.(votes := g.votes[voter := target]) else g
  }

  /** The guessers who voted for the liar. */
  function Detectives(g: Game): set<u32> {
    set id | id in g.players && g.players[id].role == Guesser && id in g.votes && g.votes[id] == g.liarId
  }

  function Awarded(players: Players, who: set<u32>, points: int): Players {
    map id | id in players :: if id in who then players[id].(score := players[id].score + points) else players[id]
  }

  function Scored(g: Game, liarCaught: bool, votedOut: u32, hasMajority: bool): Game {
    if !g.active || g.liarId == 0 then g
    else if liarCaught && votedOut == g.liarId && hasMajority then g.(players := Awarded(g.players, Detectives(g), 1))
    else if !liarCaught && hasMajority && votedOut != g.liarId then g.(players := Awarded(g.players, {g.liarId}, 2))
    else g
  }

  /** What holds under any interleaving of the operations. */
  ghost predicate Inv(g: Game) {
    && (forall id :: id in g.players ==> id != 0 && g.players[id].id == id)
    && (forall v :: v in g.votes ==> v in g.players && g.votes[v] in g.players)
    && (forall id :: id in g.players ==> g.players[id].role in {NoRole, Liar, Guesser})
    && (forall id :: id in g.players ==> (g.players[id].role == Liar <==> id == g.liarId))
    && (g.liarId != 0 ==> g.active && g.liarId in g.players)
    && (!g.active ==> g.votes == map[] && g.liarId == 0 && g.topic == [] && g.word == [])
    && (!g.active ==> forall id :: id in g.players ==> g.players[id].role == NoRole)
  }

  /** A call of one of the state's methods, with the random choices it makes. */
  datatype Op =
    | AddPlayer(id: u32, username: bytes)
    | RemovePlayer(id: u32)
    | ClearAllPlayers
    | StartNewRound(liarId: u32, topic: bytes, word: bytes)
    | ClearRound
    | SubmitVote(voter: u32, target: u32)
    | ClearVotes
    | ApplyScores(liarCaught: bool, votedOut: u32, hasMajority: bool)

  /** Ids given out by the server are nonzero, and the liar is drawn from the players. */
  predicate Legal(g: Game, op: Op) {
    match op
    case AddPlayer(id, _) => id != 0
    case StartNewRound(liarId, _, _) => CanStart(g) ==> liarId in g.players
    case _ => true
  }

  function Apply(g: Game, op: Op): Game {
    match op
    case AddPlayer(id, username) => Added(g, id, username)
    case RemovePlayer(id) => Removed(g, id)
    case ClearAllPlayers => Cleared(g.(players := map[]))
    case StartNewRound(liarId, topic, word) => Started(g, liarId, topic, word)
    case ClearRound => Cleared(g)
    case SubmitVote(voter, target) => Voted(g, voter, target)
    case ClearVotes => g.(votes := map[])
    case ApplyScores(liarCaught, votedOut, hasMajority) => Scored(g, liarCaught, votedOut, hasMajority)
  }

  predicate AllLegal(g: Game, ops: seq<Op>)
    decreases |ops|
  {
    ops == [] || (Legal(g, ops[0]) && AllLegal(Apply(g, ops[0]), ops[1..]))
  }

  function ApplyAll(g: Game, ops: seq<Op>): Game
    decreases |ops|
  {
    if ops == [] then g else ApplyAll(Apply(g, ops[0]), ops[1..])
  }

  lemma RemovedKeepsInv(g: Game, id: u32)
    requires Inv(g)
    ensures Inv(Removed(g, id))
  {
  }

  /** Of the votes cast, a removal keeps as many as the invariant allows: every set of them between the remaining
      players is among those kept. */
  lemma RemovalKeepsAllItMay(g: Game, id: u32, votes: map<u32, u32>)
    requires Inv(g) && id in g.players
    requires forall v :: v in votes ==> v in g.votes && votes[v] == g.votes[v]
    requires forall v :: v in votes ==> v in Removed(g, id).players && votes[v] in Removed(g, id).players
    ensures Removed(g, id).players == g.players - {id}
    ensures forall v :: v in votes ==> v in Removed(g, id).votes && Removed(g, id).votes[v] == votes[v]
    ensures forall v :: v in Removed(g, id).votes ==> v in g.votes && Removed(g, id).votes[v] == g.votes[v]
  {
  }

  lemma ScoredKeepsInv(g: Game, liarCaught: bool, votedOut: u32, hasMajority: bool)
    requires Inv(g)
    ensures Inv(Scored(g, liarCaught, votedOut, hasMajority))
  {
  }

  lemma StartedKeepsInv(g: Game, liarId: u32, topic: bytes, word: bytes)
    requires Inv(g) && (CanStart(g) ==> liarId in g.players)
    ensures Inv(Started(g, liarId, topic, word))
  {
  }

  lemma ApplyKeepsInv(g: Game, op: Op)
    requires Inv(g) && Legal(g, op)
    ensures Inv(Apply(g, op))
  {
    match op
    case RemovePlayer(id) => RemovedKeepsInv(g, id);
    case StartNewRound(liarId, topic, word) => StartedKeepsInv(g, liarId, topic, word);
    case ApplyScores(caught, votedOut, majority) => ScoredKeepsInv(g, caught, votedOut, majority);
    case _ =>
  }

  /** Every interleaving of calls, in any number, keeps the invariant. */
  lemma {:induction false} InterleavingsKeepInv(g: Game, ops: seq<Op>)
    requires Inv(g) && AllLegal(g, ops)
    ensures Inv(ApplyAll(g, ops))
    decreases |ops|
  {
    if ops != [] {
      ApplyKeepsInv(g, ops[0]);
      InterleavingsKeepInv(Apply(g, ops[0]), ops[1..]);
    }
  }

  /** From the empty game the liar, if there is one, is exactly the player whose role says so, and every vote is
      between current players. */
  lemma GameIsAlwaysCoherent(ops: seq<Op>)
    requires AllLegal(EMPTY, ops)
    ensures Inv(ApplyAll(EMPTY, ops))
  {
    InterleavingsKeepInv(EMPTY, ops);
  }
}
