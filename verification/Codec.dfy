/** The encoders and decoders as they run: appending to a buffer, or stepping an offset over the received data. */
module Codec {
  import opened Bytes
  import opened Packets
  import opened Messages
  import Seqs

  // ------------------------------------------------------- player state ----

  method SerializePlayerState(state: PlayerState) returns (data: bytes)
    ensures data == PlayerBytes(state)
  {
    data := [];
    data := data + U32(state.id);
    data := data + U32(RoleCode(state.role));
    data := data + U32(Low32(state.score));
    data := data + U32(Low32(|state.username|));
    if |state.username| > 0 {
      data := data + state.username;
    }
  }

  method DeserializePlayerState(data: bytes) returns (state: PlayerState)
    ensures state == ReadPlayer(data)
  {
    state := NOBODY;
    if |data| < 16 {
      return;
    }
    var offset := 0;
    state := state.(id := At32(data, offset));
    offset := offset + 4;
    state := state.(role := RoleOf(At32(data, offset)));
    offset := offset + 4;
    state := state.(score := Signed(At32(data, offset)));
    offset := offset + 4;
    if |data| < offset + 4 {
      return;
    }
    var usernameLen: int := At32(data, offset);
    offset := offset + 4;
    if |data| >= offset + usernameLen && usernameLen > 0 {
      state := state.(username := data[offset..offset + usernameLen]);
    }
  }

  // -------------------------------------------------- game state update ----

  method CreateGameStateUpdatePacket(states: seq<PlayerState>) returns (packet: Packet)
    ensures packet == Make(GAME_STATE_UPDATE, UpdateBytes(states))
  {
    var data: bytes := U32(Low32(|states|));
    var i := 0;
    while i < |states|
      invariant 0 <= i <= |states|
      invariant data == U32(Low32(|states|)) + PlayersBytes(states[..i])
    {
      var stateData := SerializePlayerState(states[i]);
      PlayersBytesSnoc(states[..i], states[i]);
      Seqs.TakeLast(states, i);
      Seqs.Assoc(U32(Low32(|states|)), PlayersBytes(states[..i]), stateData);
      data := data + stateData;
      i := i + 1;
    }
    Seqs.Empty(states);
    packet := Make(GAME_STATE_UPDATE, data);
  }

  method ExtractGameStateUpdate(packet: Packet) returns (states: seq<PlayerState>)
    ensures states == ReadUpdate(packet.data)
  {
    states := [];
    var data := packet.data;
    if |data| < 4 {
      return;
    }
    var count := At32(data, 0);
    states := PlayersFrom(data, 4, count);
  }

  /** The decoding loop. */
  method PlayersFrom(data: bytes, start: nat, count: nat) returns (states: seq<PlayerState>)
    requires start <= |data|
    ensures states == ReadPlayers(data[start..], count)
  {
    states := [];
    var offset, i := start, 0;
    ghost var all := ReadPlayers(data[start..], count);
    while i < count
      invariant 0 <= i <= count && start <= offset <= |data|
      invariant Resumes(all, states, data[offset..], count - i)
    {
      var state, playerSize := PlayerAt(data, offset, all, states, count - i);
      if state.None? {
        return;
      }
      states := states + [state.value];
      offset := offset + playerSize;
      i := i + 1;
    }
    NothingLeft(all, states, data[offset..]);
  }

  lemma NothingLeft(all: seq<PlayerState>, done: seq<PlayerState>, unread: bytes)
    requires Resumes(all, done, unread, 0)
    ensures all == done
  {
    Seqs.Empty(done);
  }

  /** The players `done` and those still to be read are `all`. */
  ghost predicate Resumes(all: seq<PlayerState>, done: seq<PlayerState>, unread: bytes, count: nat) {
    all == done + ReadPlayers(unread, count)
  }

  /** The player standing at `offset`, if it is wholly there, and its size: one turn of the decoding loop. */
  method PlayerAt(data: bytes, offset: nat, ghost all: seq<PlayerState>, ghost done: seq<PlayerState>, ghost count: nat)
    returns (state: Option<PlayerState>, playerSize: nat)
    requires offset <= |data| && count > 0 && Resumes(all, done, data[offset..], count)
    ensures state.None? ==> all == done
    ensures state.Some? ==> offset + playerSize <= |data|
    ensures state.Some? ==> Resumes(all, done + [state.value], data[offset + playerSize..], count - 1)
  {
    state, playerSize := None, 0;
    Seqs.Empty(done);
    if |data| < offset + 16 {
      return;
    }
    assert data[offset..][12..16] == data[offset + 12..offset + 16];
    var usernameLen: int := At32(data, offset + 12);
    playerSize := 16 + usernameLen;
    if |data| < offset + playerSize {
      return;
    }
    var decoded := DeserializePlayerState(data[offset..offset + playerSize]);
    Seqs.DropTwice(data, offset, playerSize);
    TakeBehind(data, offset, playerSize);
    Seqs.ConsSnoc(done, decoded, ReadPlayers(data[offset + playerSize..], count - 1));
    state := Some(decoded);
  }

  lemma TakeBehind(data: bytes, offset: nat, n: nat)
    requires offset + n <= |data|
    ensures data[offset..][..n] == data[offset..offset + n]
  {
  }

  // --------------------------------------------------------------- chat ----

  method SerializeChatMessage(message: ChatMessage) returns (data: bytes)
    ensures data == ChatBytes(message)
  {
    data := [];
    data := data + U32(message.senderId);
    data := data + U32(Low32(|message.username|));
    if |message.username| > 0 {
      data := data + message.username;
    }
    Seqs.Assoc(U32(message.senderId), U32(Low32(|message.username|)), message.username);
    ghost var named := data;
    data := data + U32(Low32(|message.text|));
    if |message.text| > 0 {
      data := data + message.text;
    }
    Seqs.Assoc(named, U32(Low32(|message.text|)), message.text);
  }

  method DeserializeChatMessage(data: bytes) returns (message: ChatMessage)
    ensures message == ReadChat(data)
  {
    message := ChatMessage(0, [], []);
    if |data| < 12 {
      return;
    }
    var offset := 0;
    message := message.(senderId := At32(data, offset));
    offset := offset + 4;
    var usernameLen := At32(data, offset);
    offset := offset + 4;
    if usernameLen > 0 && offset + usernameLen <= |data| {
      message := message.(username := data[offset..offset + usernameLen]);
      offset := offset + usernameLen;
    }
    if offset + 4 > |data| {
      return;
    }
    var messageLen := At32(data, offset);
    offset := offset + 4;
    if messageLen > 0 && offset + messageLen <= |data| {
      message := message.(text := data[offset..offset + messageLen]);
    }
  }

  // ---------------------------------------------------- role assignment ----

  method SerializeRoleAssignment(assignment: RoleAssignment) returns (data: bytes)
    ensures data == AssignmentBytes(assignment)
  {
    data := [];
    data := data + U32(assignment.playerId);
    data := data + U32(RoleCode(assignment.role));
    ghost var head := data;
    data := data + U32(Low32(|assignment.topic|));
    if |assignment.topic| > 0 {
      data := data + assignment.topic;
    }
    Seqs.Assoc(head, U32(Low32(|assignment.topic|)), assignment.topic);
    ghost var titled := data;
    data := data + U32(Low32(|assignment.secretWord|));
    if |assignment.secretWord| > 0 {
      data := data + assignment.secretWord;
    }
    Seqs.Assoc(titled, U32(Low32(|assignment.secretWord|)), assignment.secretWord);
  }

  method DeserializeRoleAssignment(data: bytes) returns (assignment: RoleAssignment)
    ensures assignment == ReadAssignment(data)
  {
    assignment := RoleAssignment(0, NoRole, [], []);
    if |data| < 12 {
      return;
    }
    var offset := 0;
    assignment := assignment.(playerId := At32(data, offset));
    offset := offset + 4;
    assignment := assignment.(role := RoleOf(At32(data, offset)));
    offset := offset + 4;
    if |data| < offset + 4 {
      return;
    }
    var topicLen := At32(data, offset);
    offset := offset + 4;
    if topicLen > 0 && offset + topicLen <= |data| {
      assignment := assignment.(topic := data[offset..offset + topicLen]);
      offset := offset + topicLen;
    }
    if offset + 4 > |data| {
      return;
    }
    var wordLen := At32(data, offset);
    offset := offset + 4;
    if wordLen > 0 && offset + wordLen <= |data| {
      assignment := assignment.(secretWord := data[offset..offset + wordLen]);
    }
  }

  // ------------------------------------------------------- vote command ----

  method SerializeVoteCommand(vote: VoteCommand) returns (data: bytes)
    ensures data == VoteBytes(vote)
  {
    data := [];
    data := data + U32(vote.voterId);
    data := data + U32(vote.targetId);
  }

  method DeserializeVoteCommand(data: bytes) returns (vote: VoteCommand)
    ensures vote == ReadVote(data)
  {
    vote := VoteCommand(0, 0);
    if |data| < 8 {
      return;
    }
    vote := vote.(voterId := At32(data, 0));
    vote := vote.(targetId := At32(data, 4));
  }

  // -------------------------------------------------------- vote result ----

  /** Walks the tally in whatever order the container yields; `walk` records that order. */
  method SerializeVoteResult(result: VoteResult) returns (data: bytes, ghost walk: seq<u32>)
    ensures IsWalk(walk, result.tally.Keys)
    ensures data == ResultBytes(result, walk)
    ensures Representable(Result(result)) && |result.tally| < 0x1_0000_0000 ==> ReadResult(data) == result
  {
    data := U32(Low32(|result.tally|));
    walk := [];
    var remaining := result.tally.Keys;
    while remaining != {}
      invariant remaining <= result.tally.Keys
      invariant IsWalk(walk, result.tally.Keys - remaining)
      invariant data == U32(Low32(|result.tally|)) + PairsBytes(result.tally, walk)
      decreases |remaining|
    {
      var targetId :| targetId in remaining;
      remaining := remaining - {targetId};
      ghost var before := data;
      data := data + U32(targetId);
      data := data + U32(Low32(result.tally[targetId]));
      PairsBytesSnoc(result.tally, walk, targetId);
      Seqs.Assoc(before, U32(targetId), U32(Low32(result.tally[targetId])));
      Seqs.Assoc(U32(Low32(|result.tally|)), PairsBytes(result.tally, walk),
                 U32(targetId) + U32(Low32(result.tally[targetId])));
      walk := walk + [targetId];
    }
    data := data + U32(result.winnerId);
    data := data + U32(if result.liarCaught then 1 else 0);
    if Representable(Result(result)) && |result.tally| < 0x1_0000_0000 {
      ResultRoundTrip(result, walk);
    }
  }

  lemma {:induction false} PairsBytesSnoc(tally: map<u32, nat>, walk: seq<u32>, t: u32)
    requires t in tally && forall x :: x in walk ==> x in tally
    ensures PairsBytes(tally, walk + [t]) == PairsBytes(tally, walk) + (U32(t) + U32(Low32(tally[t])))
    decreases |walk|
  {
    if walk == [] {
      Seqs.Empty([t]);
      Seqs.Empty(U32(t) + U32(Low32(tally[t])));
    } else {
      Seqs.TailOfAppend(walk, [t]);
      PairsBytesSnoc(tally, walk[1..], t);
      Seqs.Assoc(U32(walk[0]) + U32(Low32(tally[walk[0]])), PairsBytes(tally, walk[1..]),
                 U32(t) + U32(Low32(tally[t])));
    }
  }

  method DeserializeVoteResult(data: bytes) returns (result: VoteResult)
    ensures result == ReadResult(data)
  {
    result := VoteResult(map[], 0, false);
    if |data| < 12 {
      return;
    }
    var offset := 0;
    var count := At32(data, offset);
    offset := offset + 4;
    var i := 0;
    ghost var unread := data[4..];
    while i < count
      invariant 0 <= i <= count && 4 <= offset <= |data| && unread == data[offset..]
      invariant result.winnerId == 0 && !result.liarCaught
      invariant ReadPairs(unread, count - i, result.tally) == ReadPairs(data[4..], count, map[])
    {
      if |data| < offset + 8 {
        break;
      }
      UnreadPair(data, offset);
      var targetId := At32(data, offset);
      offset := offset + 4;
      var voteCount := At32(data, offset);
      offset := offset + 4;
      result := result.(tally := result.tally[targetId := voteCount]);
      unread := data[offset..];
      i := i + 1;
    }
    if |data| < offset + 8 {
      return;
    }
    UnreadPair(data, offset);
    result := result.(winnerId := At32(data, offset));
    offset := offset + 4;
    result := result.(liarCaught := At32(data, offset) != 0);
  }

  lemma UnreadPair(data: bytes, offset: nat)
    requires offset + 8 <= |data|
    ensures At32(data[offset..], 0) == At32(data, offset)
    ensures At32(data[offset..], 4) == At32(data, offset + 4)
    ensures data[offset..][8..] == data[offset + 8..]
  {
    assert data[offset..][0..4] == data[offset..offset + 4];
    assert data[offset..][4..8] == data[offset + 4..offset + 8];
  }

  // ------------------------------------------------------------ packets ----

  /** What one packet says, among the kinds that carry encoded values. */
  datatype Msg =
    | StateUpdate(states: seq<PlayerState>)
    | Joined(joiner: PlayerState)
    | Left(leaver: PlayerState)
    | Chat(chat: ChatMessage)
    | Assign(assignment: RoleAssignment)
    | Vote(vote: VoteCommand)
    | Result(result: VoteResult)

  /** `p` is a packet the sender may produce for `m`; only a vote result leaves a choice, the walk of its tally. */
  ghost predicate Encodes(m: Msg, p: Packet) {
    match m
    case StateUpdate(states) => p == Make(GAME_STATE_UPDATE, UpdateBytes(states))
    case Joined(joiner) => p == Make(PLAYER_JOINED, PlayerBytes(joiner))
    case Left(leaver) => p == Make(PLAYER_LEAVE, PlayerBytes(leaver))
    case Chat(chat) => p == Make(CHAT_BROADCAST, ChatBytes(chat))
    case Assign(assignment) => p == Make(ROLE_ASSIGNMENT, AssignmentBytes(assignment))
    case Vote(vote) => p == Make(VOTE_COMMAND, VoteBytes(vote))
    case Result(result) =>
      exists walk :: IsWalk(walk, result.tally.Keys) && p == Make(VOTE_RESULT, ResultBytes(result, walk))
  }

  /** What the receiver's callback makes of a packet. */
  function Decode(p: Packet): Option<Msg> {
    if p.kind == GAME_STATE_UPDATE then Some(StateUpdate(ReadUpdate(p.data)))
    else if p.kind == PLAYER_JOINED then Some(Joined(ReadPlayer(p.data)))
    else if p.kind == PLAYER_LEAVE then Some(Left(ReadPlayer(p.data)))
    else if p.kind == CHAT_BROADCAST then Some(Chat(ReadChat(p.data)))
    else if p.kind == ROLE_ASSIGNMENT then Some(Assign(ReadAssignment(p.data)))
    else if p.kind == VOTE_COMMAND then Some(Vote(ReadVote(p.data)))
    else if p.kind == VOTE_RESULT then Some(Result(ReadResult(p.data)))
    else None
  }

  predicate NamedRole(role: Role) {
    role.NoRole? || role.Liar? || role.Guesser?
  }

  /** The numbers in the message fit their 32-bit fields and its roles are the ones the game has. */
  predicate Representable(m: Msg) {
    match m
    case StateUpdate(states) => forall i :: 0 <= i < |states| ==> IsInt32(states[i].score) && NamedRole(states[i].role)
    case Joined(s) => IsInt32(s.score) && NamedRole(s.role)
    case Left(s) => IsInt32(s.score) && NamedRole(s.role)
    case Chat(_) => true
    case Assign(a) => NamedRole(a.role)
    case Vote(_) => true
    case Result(r) => forall t :: t in r.tally ==> r.tally[t] < 0x1_0000_0000
  }

  /** The packet's length fits its 32-bit header field. */
  predicate Sendable(p: Packet) {
    p.TotalSize() < 0x1_0000_0000
  }

  lemma {:induction false} PlayersFitPacket(ss: seq<PlayerState>)
    requires |PlayersBytes(ss)| < 0x1_0000_0000
    ensures 16 * |ss| <= |PlayersBytes(ss)|
    ensures forall i :: 0 <= i < |ss| ==> |ss[i].username| < 0x1_0000_0000
  {
    if ss != [] {
      PlayersFitPacket(ss[1..]);
      forall i | 0 <= i < |ss|
        ensures |ss[i].username| < 0x1_0000_0000
      {
        if i > 0 {
          assert ss[i] == ss[1..][i - 1];
        }
      }
    }
  }

  lemma UpdateDecodes(states: seq<PlayerState>, p: Packet)
    requires Encodes(StateUpdate(states), p) && Representable(StateUpdate(states)) && Sendable(p)
    ensures Decode(p) == Some(StateUpdate(states))
  {
    PlayersFitPacket(states);
    UpdateRoundTrip(states);
  }

  lemma ResultDecodes(result: VoteResult, p: Packet)
    requires Encodes(Result(result), p) && Representable(Result(result)) && Sendable(p)
    ensures Decode(p) == Some(Result(result))
  {
    var walk :| IsWalk(walk, result.tally.Keys) && p == Make(VOTE_RESULT, ResultBytes(result, walk));
    PairsLength(result.tally, walk);
    WalkLength(walk, result.tally.Keys);
    ResultRoundTrip(result, walk);
  }

  /** Every message that fits is decoded from its packet as itself, and its packet is well formed. */
  lemma MessageRoundTrip(m: Msg, p: Packet)
    requires Encodes(m, p) && Representable(m) && Sendable(p)
    ensures p.kind != 0 && p.Received()
    ensures Decode(p) == Some(m)
  {
    match m
    case StateUpdate(states) => UpdateDecodes(states, p);
    case Joined(s) => PlayerRoundTrip(s);
    case Left(s) => PlayerRoundTrip(s);
    case Chat(c) => ChatRoundTrip(c);
    case Assign(a) => AssignmentRoundTrip(a);
    case Vote(v) => VoteRoundTrip(v);
    case Result(r) => ResultDecodes(r, p);
  }
}
