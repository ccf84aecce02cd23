# Liar Line: a verified model of the message layer and the game

This project models, in Dafny, a length-prefixed TCP message layer and the voting game that runs on it. The C++ program
has a server that keeps a table of players, deals out roles, collects votes and scores rounds, and clients that keep a
copy of the table from the packets they receive.

How the files build on each other:

- `Bytes`, `Seqs`: big-endian 32- and 16-bit fields, and facts about cutting and joining sequences.
- `Packets`, `Framing`: the packet layout, one parser of a whole stream, and the server's and the client's incremental
  receivers, both proved to do what that parser does.
- `Messages`, `Codec`, `Layouts`, `Cuts`: the byte layouts of the values inside packets with their round trips; the
  encoders and decoders as they run, appending to buffers and stepping offsets; every field as bytes at its offset; what
  is made of a message whose end is missing.
- `Votes`, `Rules`, `GameStates`: tallies, majorities and the plurality loop; the game as a value with the invariant that
  every operation keeps; the `GameState` object whose methods change it in place.
- `Handlers`, `Commands`, `Scoring`, `GameServers`: what one run of the packet callback does as a function of the packet
  and of the choices left open (orders of unordered containers, random draws); which names can be voted for; what a
  round pays; and the callback as it runs on the objects, loops included, proved equal to that function.
- `Replicas`, `Worlds`: the client's copy; the whole system as a state machine.
- `Conduct`: each packet's effect as seen from outside, the game before and after and what every client is sent, stated
  without the functions that compute it.
- `Tracking`, `Consistency`, `Scores`, `Progress`, `Newcomers`, `Secrecy`, `SecretRuns`, `EndToEnd`: the theorems about all
  runs.

Main results:

- In every run, applying a joined client's undelivered messages to its copy gives exactly the server's ids, names and
  scores (`CopiesFollowTheServer`); the same holds for the bytes, encoded, framed and cut into arbitrary chunks
  (`ScreenShowsTheServer`).
- What a client shows while messages are still under way is always a table the server has really had, never a mixture of
  two (`ScreensShowRealTables`).
- Every byte stream, malformed lengths included, has exactly one framing, and both receivers deliver it on every
  chunking (`ParseIsTheFraming`, `ClientHandler.Run`, `Client.ReceivingThread`).
- A finished round pays what counting the votes says, for every order of every walk (`RoundPaysByCounting`).
- After every callback of every run the game is settled: a round is active with three to six players, an active round
  has one liar, two to five guessers and somebody left to vote, and no player is a ghost (`EveryRunIsSound`,
  `GoneForGood`).
- A round is scored by the last vote and by nothing else (`ScoredByLastVoteOnly`, `RoundEndsWithLastVote`); any leave
  deals the remaining players a fresh round or none (`LeaveRedeals`); late joiners have no part in a round
  (`LateJoinersEarnNothing`).
- Nothing sent to the liar during a round depends on the secret word (`LiarLearnsNothing`).

## Assumptions

- One run of the packet callback is one step. The C++ callback makes several separately locked calls; runs of it on
  different threads are taken not to overlap. The invariant of the game state alone (`GameIsAlwaysCoherent`) does not
  need this: it holds under any interleaving of the object's methods, each taken as atomic, `clearRound` included.
- Delivery to an open connection is reliable and in order.
- `size_t` has 64 bits. Numbers that the program keeps in 32 bits (vote counts, scores) are unbounded here; that they
  stay in range is proved for every run with fewer than 2^30 scored rounds (`RunFits`).
- A topic always has a name; the liar is one of the players; client ids are nonzero and each is given out once, which
  holds for the first 2^32 - 1 connections.
- Walking an unordered container visits each element once, in any order, possibly another one each time.

## Where code and documentation disagree

The model follows the code.

- `include/common/serialization.h:70` says that the winner id is 0 without a majority. The code sends the plurality
  leader. With any vote cast, the promise is kept exactly when there is a majority (`WinnerIdZeroPromise`), and three
  players who vote in a circle break it (`WinnerIdZeroPromiseFails`).
- The repository's README says that the next round starts immediately after scoring. It does exactly when at most six
  players are there (`NextRoundStartsAtOnce`); late joiners can make them seven (`CrowdStalls`).
- The repository's README lets players vote with `/vote <username>`. Some names the server accepts cannot be voted for
  (`WhoCanBeVotedFor`), and a name two players share means either of them (`VoteIsUnambiguous`).

## Model

| member | source | states |
|---|---|---|
| Bytes.U32RoundTrip | src/common/serialization.cpp:13-15 | a 32-bit field is read back from wherever in a buffer it was written |
| Bytes.U32Rewrite | src/common/packet.cpp:71-77 | writing a field again gives back the bytes it was read from |
| Bytes.U32IsBigEndian | src/common/serialization.cpp:13-15 | the four bytes of a 32-bit field, most significant first |
| Bytes.U16IsBigEndian | src/common/packet.cpp:43-51 | the two bytes of a 16-bit field, most significant first |
| Packets.Serialize | src/common/packet.cpp:39-57 | the buffer is the header's length and type, big-endian, then the data |
| Packets.WireByteByByte | src/common/packet.cpp:30-57 | the six header bytes of a packet as numbers, its whole length and its type, then the data |
| Packets.Deserialize | src/common/packet.cpp:63-90 | the packet at the front of the buffer, without data when the length is malformed, empty without a header |
| Packets.FrontIsExact | src/common/packet.cpp:63-104 | the packet taken off a complete buffer writes back to exactly the bytes stepped over, short lengths included |
| Packets.WireIsRead | src/common/packet.cpp:39-104 | a packet's bytes followed by anything are complete and read back as that packet |
| Packets.CompleteIsStable | src/common/packet.cpp:92-104 | more bytes never change a packet that was complete |
| Framing.ParseAppend | src/server/server.cpp:222-251 | parsing resumes from the leftover, so cutting the stream anywhere changes nothing |
| Framing.ParseIsLossless | src/server/server.cpp:225-251 | the frames written out again and the leftover are the received stream, and no complete frame is left waiting |
| Framing.ParseIsTheFraming | src/common/packet.cpp:63-104 | every stream has exactly one split into received packets and an incomplete rest, and the parser finds it |
| Framing.PartialStreamDeliversPrefix | src/server/server.cpp:224-251 | a receiver that has seen part of a stream has delivered a prefix of its packets |
| Framing.Advance | src/server/server.cpp:226-248 | each turn of the loop moves the offset by a header or more, inside the buffer, past exactly the bytes of one frame |
| Framing.ClientHandler.HandOver | src/server/server.cpp:234-245 | a packet goes to the callback unless its type is 0 |
| Framing.ClientHandler.Receive | src/server/server.cpp:220-251 | one receive delivers all frames of leftover and chunk but those of type 0, and keeps the rest |
| Framing.ClientHandler.Run | src/server/server.cpp:208-281 | over any chunks the callbacks are those of one parse of the whole, then exactly one PLAYER_LEAVE after the connection is unlisted |
| Framing.Client.Recv | src/client/client.cpp:129-131 | called only when the buffer holds no complete packet; yields the next chunk or the end |
| Framing.Client.TakePacket | src/client/client.cpp:117-127 | takes the first packet of everything unread and nothing more |
| Framing.Client.ReceivePacket | src/client/client.cpp:108-162 | returns the first packet of everything unread, false for type 0, or ends the connection when there is none |
| Framing.Client.TryReceivePacket | src/client/client.cpp:164-179 | returns a packet only if the buffer already holds a complete one, and then the first |
| Framing.Client.ReceivingThread | src/client/client.cpp:204-212 | over any chunks the callbacks are the nonzero-type packets of one parse of the whole, the buffer its leftover |
| Framing.ReceiversAgree | src/client/client.cpp:108-212 | the same bytes, cut up differently for server and client, give the same packets to both callbacks |
| Messages.TextRoundTrip | src/common/serialization.cpp:182-191 | length-prefixed text is read back from wherever it was written, empty text included |
| Messages.PlayerFields | src/common/serialization.cpp:7-34 | id, role, score and name are at the offsets 0, 4, 8 and 12 where the decoder looks for them |
| Messages.PlayerRoundTrip | src/common/serialization.cpp:7-72 | a player state within its field widths survives encoding and decoding, negative scores included |
| Messages.FittingIsLongest | src/common/serialization.cpp:112-131 | the number of players that fit a length is that of the longest list prefix whose encoding is no longer |
| Messages.CutUpdateIsReadAsPrefix | src/common/serialization.cpp:79-134 | an update cut anywhere after its count decodes to exactly the longest list prefix that fits completely |
| Messages.UpdateRoundTrip | src/common/serialization.cpp:79-134 | an uncut update decodes to the whole list |
| Messages.ChatRoundTrip | src/common/serialization.cpp:136-205 | a chat message survives, with either text empty or not |
| Messages.AssignmentRoundTrip | src/common/serialization.cpp:217-298 | a role assignment survives, with either text empty or not |
| Messages.VoteRoundTrip | src/common/serialization.cpp:310-340 | a vote command survives |
| Messages.ResultRoundTrip | src/common/serialization.cpp:352-427 | a vote result survives for every tally and every order in which the encoder walks it |
| Layouts.PlayerLayout | src/common/serialization.cpp:7-34 | id, role, score and name of a player state as bytes at their offsets, with the numbers of the roles and negative scores in two's complement |
| Layouts.UpdateLayout | src/common/serialization.cpp:79-93 | an update is the number of players, then each player's bytes in order |
| Layouts.ChatLayout | src/common/serialization.cpp:136-167 | sender, name and text of a chat message as bytes at their offsets |
| Layouts.AssignmentLayout | src/common/serialization.cpp:217-250 | player, role, topic and word of a role assignment as bytes at their offsets |
| Layouts.VoteLayout | src/common/serialization.cpp:310-323 | voter and target of a vote command as bytes at their offsets |
| Layouts.ResultLayout | src/common/serialization.cpp:352-382 | number of pairs, each target with its count, winner and flag of a vote result as bytes at their offsets |
| Layouts.TypeNumbers | include/common/packet.h:16-25 | the type number of the packet for each message |
| Cuts.CutPlayer | src/common/serialization.cpp:36-72 | a player state cut short is nobody before its sixteenth byte, and then the player without a name |
| Cuts.CutChat | src/common/serialization.cpp:169-205 | a chat message cut short keeps its sender from twelve bytes on, its name exactly when that is wholly there, and then no part of its text |
| Cuts.CutAssignment | src/common/serialization.cpp:252-298 | a role assignment cut short keeps player and role from twelve bytes on, its topic exactly when that is wholly there, and then no part of its word |
| Cuts.CutVote | src/common/serialization.cpp:325-340 | a vote command cut short is a vote by nobody for nobody |
| Cuts.CutResult | src/common/serialization.cpp:384-427 | a vote result cut short keeps exactly the pairs that are wholly there, without winner and with the liar not caught |
| Codec.SerializePlayerState | src/common/serialization.cpp:7-34 | appends the fields of the layout in order |
| Codec.DeserializePlayerState | src/common/serialization.cpp:36-72 | reads the layout, nobody if it is too short, an empty name if the name is cut |
| Codec.CreateGameStateUpdatePacket | src/common/serialization.cpp:79-93 | the loop builds the count and all players' encodings in order |
| Codec.ExtractGameStateUpdate | src/common/serialization.cpp:100-134 | the loop yields exactly the players that are wholly there, up to the count |
| Codec.PlayersFrom | src/common/serialization.cpp:112-133 | the loop collects players until the count is reached or one is not wholly there |
| Codec.PlayerAt | src/common/serialization.cpp:113-130 | one turn of the loop takes one whole player off the unread bytes, or stops |
| Codec.SerializeChatMessage | src/common/serialization.cpp:136-167 | appends the fields of the layout in order |
| Codec.DeserializeChatMessage | src/common/serialization.cpp:169-205 | reads the layout with the code's treatment of short data |
| Codec.SerializeRoleAssignment | src/common/serialization.cpp:217-250 | appends the fields of the layout in order |
| Codec.DeserializeRoleAssignment | src/common/serialization.cpp:252-298 | reads the layout with the code's treatment of short data |
| Codec.SerializeVoteCommand | src/common/serialization.cpp:310-323 | appends the fields of the layout in order |
| Codec.DeserializeVoteCommand | src/common/serialization.cpp:325-340 | reads the layout, zeros if it is too short |
| Codec.SerializeVoteResult | src/common/serialization.cpp:352-382 | the loop writes each pair of the tally once, in the order the container yields |
| Codec.DeserializeVoteResult | src/common/serialization.cpp:384-427 | the loop collects the pairs, then winner and flag if they are there |
| Codec.MessageRoundTrip | src/common/serialization.cpp:74-437 | every message that fits decodes from its packet as itself, and the packet is well formed |
| Votes.TallyIsConserved | src/common/game_state.cpp:245-254 | the counts of the tally add up to the number of votes, along any walk |
| Votes.TallyAfterVote | src/common/game_state.cpp:249-251 | one more vote raises exactly its target's count by one |
| Votes.MajorityIsUniqueMaximum | src/server/game_server.cpp:219-227 | a majority target outvotes every other, and no other has a majority |
| Votes.PluralityIsMaximum | src/server/game_server.cpp:215-224 | the loop ends with the largest count and a target that has it |
| Votes.PluralityFindsMajority | src/server/game_server.cpp:219-227 | the majority test succeeds exactly when a target has a majority, and then the winner is that target, in every order |
| Votes.WinnerIsATarget | src/server/game_server.cpp:215-224 | with any vote cast the winner id is a voted-for player |
| Rules.ApplyKeepsInv | src/common/game_state.cpp:31-283 | each operation keeps: voters and targets are players, LIAR is exactly the nonzero liar id, an inactive round is empty |
| Rules.GameIsAlwaysCoherent | src/common/game_state.cpp:31-283 | the invariant holds after any interleaving of any number of operations |
| Rules.RemovalKeepsAllItMay | src/common/game_state.cpp:41-63 | a removal keeps every vote that the invariant lets it keep, and adds none |
| GameStates.GameState.constructor | src/common/game_state.cpp:28-29 | starts empty, with no round |
| GameStates.GameState.AddPlayer | src/common/game_state.cpp:31-39 | adds a player without role and score unless the id is taken; whole new state |
| GameStates.GameState.RemovePlayer | src/common/game_state.cpp:41-63 | takes out the player, all votes by or for the player, and the liar id if it is the player's |
| GameStates.GameState.EraseVotesOf | src/common/game_state.cpp:48-55 | the loop leaves exactly the votes neither by nor for the player |
| GameStates.GameState.GetAllPlayerStates | src/common/game_state.cpp:76-83 | every player once, in any order |
| GameStates.GameState.ClearAllPlayers | src/common/game_state.cpp:99-103 | back to the empty game |
| GameStates.GameState.ClearRound | src/common/game_state.cpp:163-173 | no round, topic, word, liar, votes or roles; names and scores stay |
| GameStates.GameState.PickRandomTopicAndWord | src/common/game_state.cpp:195-218 | some topic with a name, and some word |
| GameStates.GameState.StartNewRound | src/common/game_state.cpp:111-161 | with three to six players a fresh round whose liar is one of them; otherwise nothing changes |
| GameStates.GameState.AssignRoles | src/common/game_state.cpp:149-155 | the loop makes the drawn player LIAR and everybody else GUESSER |
| GameStates.GameState.SubmitVote | src/common/game_state.cpp:220-238 | accepts exactly the first vote of a player for a player in an active round, and records just that |
| GameStates.GameState.GetVoteTally | src/common/game_state.cpp:245-254 | the loop gives each voted-for target the number of its voters, in any order |
| GameStates.GameState.ClearVotes | src/common/game_state.cpp:256-259 | only the votes go |
| GameStates.GameState.CalculateAndApplyScores | src/common/game_state.cpp:261-283 | scores change as the rule says and nothing else changes |
| GameStates.GameState.RewardDetectives | src/common/game_state.cpp:270-277 | the loop gives one point to exactly the guessers who voted for the liar |
| Handlers.StartedIsOpen | src/common/game_state.cpp:133-157 | a fresh round has a liar, two to five guessers and somebody left to vote |
| Handlers.AllVotedMeansCovered | src/server/game_server.cpp:203-212 | the per-player count is the number of votes, and reaches the player count exactly when the voters are the players |
| Handlers.LeaveThenStarts | src/server/game_server.cpp:313-318 | the test for fewer than three players makes no difference to what happens |
| Handlers.FinishSettles | src/server/game_server.cpp:213-268 | scoring leaves a settled game, with a round exactly when three to six players are there |
| Handlers.HandleSettles | src/server/game_server.cpp:50-325 | every run of the callback, for every packet and every choice, leaves the game settled |
| Conduct.StartDeals | src/server/game_server.cpp:54-60 | with three to six players every player is LIAR or GUESSER of a round without votes, with the liar, topic and word drawn; otherwise there is no round; names and scores stay |
| Conduct.JoiningTwice | src/server/game_server.cpp:114-119 | a join by a player changes nothing and tells nobody |
| Conduct.JoinInRound | src/server/game_server.cpp:105-139 | a join during a round adds a player with role NONE and score 0 and changes nothing else; the newcomer is sent the table, the others the newcomer |
| Conduct.JoinBetweenRounds | src/server/game_server.cpp:105-139 | between rounds the same sends follow, and a fresh round begins, each player being told its role once, exactly when they are now three to six |
| Conduct.LeaveRedeals | src/server/game_server.cpp:286-320 | a leave ends any round; three to six remaining players are dealt a fresh one and told their roles once, others are left without round, votes, liar and roles; everybody is sent who left and the table |
| Conduct.ChatGoesToAll | src/server/game_server.cpp:149-284 | text that does not begin with "/vote " goes to every client, without the blanks at its end, under the sender's name, the default one for a client that is no player; the game stays |
| Conduct.OtherwiseNothing | src/server/game_server.cpp:141-147 | any other packet, and chat from a client no longer listed, changes nothing and tells nobody |
| Conduct.UncountedVote | src/server/game_server.cpp:157-198 | a vote without a round, by somebody who has voted or does not play, or for a name nobody has, changes nothing and tells nobody |
| Conduct.VoteBeforeLast | src/server/game_server.cpp:174-212 | a vote that counts, while others have still to vote, is recorded for a player of that name; nothing else changes and nobody is told |
| Conduct.LastVoteEndsRound | src/server/game_server.cpp:203-271 | the last vote sends all the exact tally, a target with the most votes, the flag, and the table with the points counted and no roles; then a fresh round begins if they are three to six |
| Conduct.ScoredByLastVoteOnly | src/server/game_server.cpp:194-212 | a callback scores a round exactly when it is a vote that counts by the only player who had not voted |
| Conduct.GameChangesOnlyBy | src/server/game_server.cpp:50-325 | only a newcomer's join, a player's leave and a vote that counts change the game |
| Commands.SecondTrimIsIdle | src/server/game_server.cpp:164-172 | the second trimming on the right never trims, and the name found is never empty |
| Commands.TextIsTrimmed | src/server/game_server.cpp:151-155 | the text handled is the data without exactly the blanks at its end |
| Commands.CommandIsWhatIsSaid | src/server/game_server.cpp:149-172 | a packet is read as a vote for a name exactly when it is "/vote ", spaces, the name, and blanks |
| Commands.WhatIsNoCommand | src/server/game_server.cpp:157 | a text is a vote command exactly when it begins with "/vote " |
| Commands.DefaultNamesDiffer | src/server/game_server.cpp:108 | a default name is "Player " and digits that read back as the id, so two clients never share one |
| Commands.WhoCanBeVotedFor | src/server/game_server.cpp:149-181 | a name can be voted for exactly when it is not empty, begins with no space and ends with no blank |
| Commands.SpaceCannotBeVotedFor | src/server/game_server.cpp:108-114 | a player who joined as a space cannot be voted for |
| Commands.VoteIsUnambiguous | src/server/game_server.cpp:174-181 | the target found is the same in every table order exactly when no two players share the name |
| Commands.WhenVotesCount | src/server/game_server.cpp:174-198 | a vote is recorded, for a player of that name, exactly when a round is active, the voter plays and has not voted, and the name is somebody's; otherwise nothing happens |
| Scoring.OutcomeByCounting | src/server/game_server.cpp:213-227 | majority, caught liar and winner are decided by counting alone, whatever the order |
| Scoring.ScoredPays | src/common/game_state.cpp:261-283 | the scoring rule adds exactly the points of the counting specification to each player |
| Scoring.RoundPaysByCounting | src/server/game_server.cpp:203-268 | a finished round changes each score by exactly the points counted, and no name, for every choice |
| Scoring.ResultIsRight | src/server/game_server.cpp:229-235 | the result sent has the exact tally, the right flag, and the majority's choice as winner |
| Scoring.WinnerIdZeroPromise | include/common/serialization.h:70 | the winner id is never 0 once a vote is cast, so 0 without a majority holds exactly when there is a majority |
| Scoring.WinnerIdZeroPromiseFails | src/server/game_server.cpp:229-232 | three players voting in a circle: no majority, yet a winner id |
| Replicas.UpdateRestoresTable | src/client/game_client.cpp:84-92 | a full update makes the copy the server's table, whatever order it lists |
| Replicas.LastListedCounts | src/client/game_client.cpp:89-91 | of several listed players with one id the last counts, and nobody else gets in |
| Replicas.LeavePacketErases | src/client/game_client.cpp:124-129 | the packet of a leave takes exactly that player out of any copy |
| Replicas.JoinPacketInserts | src/client/game_client.cpp:111-116 | the packet of a join puts exactly that player into any copy |
| Replicas.UpdatePacketReplaces | src/client/game_client.cpp:84-92 | the packet of a full update makes any copy the listed table |
| Replicas.OtherPacketsAreIgnored | src/client/game_client.cpp:80-135 | packets of other types leave the copy alone |
| Replicas.GameClient.HandlePacket | src/client/game_client.cpp:80-135 | the callback changes the copy as the packet's message says, other packets not at all |
| Replicas.GameClient.ReplaceAll | src/client/game_client.cpp:89-91 | the loop replaces the copy by the listed players |
| Replicas.GameClient.HandleAll | src/client/game_client.cpp:80-230 | packets are applied one after the other |
| Worlds.HandleKeys | src/server/game_server.cpp:104-320 | a callback adds at most its own client, and PLAYER_LEAVE takes exactly that client out |
| Worlds.EveryRunIsSound | src/server/game_server.cpp:50-325 | in every run: a round with three to six players; in a round one liar, two to five guessers, somebody to vote; no ghost players |
| Worlds.FinalLeaveMakesGone | src/server/server.cpp:271-281 | after its final callback a client is gone |
| Worlds.GoneForGood | src/server/server.cpp:208-281 | a gone client never reappears among the players and no callback for it follows |
| Tracking.JoinInforms | src/server/game_server.cpp:128-135 | a join's packets keep every copy right, and give the newcomer the full table |
| Tracking.FinishInforms | src/server/game_server.cpp:229-266 | the packets of a finished round make every copy right, whatever it showed before |
| Tracking.TableAfterJoin | src/server/game_server.cpp:105-139 | a join adds exactly that client to the table, with score 0 and its name, the default one if it sent none |
| Tracking.TableAfterLeave | src/server/game_server.cpp:286-320 | a leave takes exactly that client out of the table |
| Tracking.LeaveInforms | src/server/game_server.cpp:305-311 | the packets of a leave make every copy right |
| Tracking.HandleInforms | src/server/game_server.cpp:50-325 | whatever a callback sends keeps every copy in step with the table |
| Tracking.CopiesFollowTheServer | src/client/game_client.cpp:84-135 | in every run a joined client's copy plus its undelivered messages shows exactly the server's ids, names and scores |
| Consistency.HandleIsReal | src/server/game_server.cpp:50-325 | after any part of what a callback sends it, a copy shows the table before the callback or the one after it |
| Consistency.LeaveShowsAtOnce | src/client/game_client.cpp:124-129 | the first message of a leave alone makes every other up-to-date copy show the table after the leave |
| Consistency.JoinShowsAtOnce | src/client/game_client.cpp:111-116 | the first message of a join alone makes every up-to-date copy, and the newcomer's, show the table after the join |
| Consistency.ScreensShowRealTables | src/client/game_client.cpp:84-135 | in every run, from its first full update on, a copy shows at every moment a table the server has had, messages under way or not |
| Scores.HandlePays | src/server/game_server.cpp:203-268 | no callback lowers a score; only a scored round raises one, by at most two each and five in all |
| Scores.ScoresAreBounded | src/common/game_state.cpp:261-283 | in every run scores lie between 0 and twice the rounds scored, and their sum is at most five times that number |
| Scores.ScoreNeverFalls | src/common/game_state.cpp:261-283 | while a player stays the score never falls, and rises by at most two a round |
| Progress.PendingCountsDown | src/server/game_server.cpp:194-212 | until the round is scored, those still to vote are those at the start less the votes accepted |
| Progress.RoundIsScored | src/server/game_server.cpp:194-268 | with no joins or leaves a round of n players is scored by the n-th accepted vote |
| Progress.RoundEndsWithLastVote | src/server/game_server.cpp:194-212 | with no joins or leaves a round has been scored exactly when as many votes were accepted as players had still to vote, no sooner and no later |
| Progress.AcceptedIsCast | src/server/game_server.cpp:174-198 | the votes accepted are those that read as a vote for a player, by a player who has not voted, in a round |
| Progress.VotesStand | README.md:17 | a recorded vote is never changed before the round is scored or somebody leaves |
| Progress.NextRoundStartsAtOnce | README.md:18 | the next round starts at once, without votes, exactly when at most six players are there |
| Progress.CrowdStalls | src/common/game_state.cpp:105-109 | seven players who have all voted are left without a round |
| Newcomers.RoundStands | src/common/game_state.cpp:31-39 | until a player leaves or the round is scored, liar, topic, word, roles, scores and recorded votes stay, and whoever joins has role NONE |
| Newcomers.LateJoinersEarnNothing | src/common/game_state.cpp:261-283 | in every run, somebody who joined after a round began is no guesser of it and has no points when it has been scored |
| Secrecy.SameHandle | src/server/game_server.cpp:50-325 | callbacks that differ in the word only send everybody the same but for the word in guessers' roles |
| Secrecy.RolesAreAnnounced | src/server/game_server.cpp:89-101 | when a round starts every player is told its role once: the liar with the topic alone, the others with topic and word |
| Secrecy.HandleTellsGuessers | src/server/game_server.cpp:89-101 | the word is sent only to guessers of the round |
| SecretRuns.RunsDifferInWordsOnly | src/server/game_server.cpp:50-325 | runs with other words are runs too, and stay the same but for the words |
| SecretRuns.NonGuesserLearnsNothing | src/server/game_server.cpp:89-101 | a client that is no guesser is sent exactly the same whatever the words |
| SecretRuns.LiarLearnsNothing | src/server/game_server.cpp:89-101 | throughout a round the liar is sent exactly the same whatever the word |
| EndToEnd.MessagesArrive | src/server/server.cpp:223-251 | any list of messages, encoded, framed and chunked anyhow, arrives as exactly that list with nothing left over |
| EndToEnd.MessagesArriveInOrder | src/client/client.cpp:108-162 | while bytes are missing, a prefix of the packets has arrived |
| EndToEnd.RunFits | src/common/serialization.cpp:17-23 | in a run of fewer than 2^30 scored rounds every number in a message fits its field |
| EndToEnd.ScreenShowsTheServer | src/client/game_client.cpp:80-135 | in such a run the bytes under way, however encoded and cut, make the client's copy show exactly the server's table |
| EndToEnd.CatchUp | src/client/client.cpp:204-212 | the receiver and the callback objects together apply exactly the messages sent |
| GameServers.StripRight | src/server/game_server.cpp:151-155 | the loop removes all blanks at the end and nothing else |
| GameServers.StripLeft | src/server/game_server.cpp:165-167 | the loop removes all spaces in front and nothing else |
| GameServers.FindWinner | src/server/game_server.cpp:215-224 | the loop finds the largest count of the tally and a target that has it, the first along its walk |
| GameServers.FindByName | src/server/game_server.cpp:174-181 | the loop finds the first player of that name along the walk, 0 if none |
| GameServers.GameServer.Judge | src/server/game_server.cpp:213-227 | finds a majority exactly when some target has more than half of all players, and the liar caught exactly when it is the liar |
| GameServers.GameServer.SendPacket | src/server/server.cpp:132-151 | appends to that client's stream if it is open |
| GameServers.GameServer.SendBroadcast | src/server/server.cpp:153-157 | appends to every open stream |
| GameServers.GameServer.SendBroadcastExcept | src/server/server.cpp:159-165 | appends to every open stream but one |
| GameServers.GameServer.SendRoles | src/server/game_server.cpp:89-101 | each player with a role is told it, the liar without the word |
| GameServers.GameServer.StartNewRoundIfPossible | src/server/game_server.cpp:54-102 | starts a round and announces it exactly when it can |
| GameServers.GameServer.OnPlayerJoin | src/server/game_server.cpp:105-139 | game and sends are those of the join rule |
| GameServers.GameServer.OnPlayerLeave | src/server/game_server.cpp:286-320 | game and sends are those of the leave rule |
| GameServers.GameServer.CountVotes | src/server/game_server.cpp:203-210 | the loop counts the players who have voted |
| GameServers.GameServer.CountAndEnd | src/server/game_server.cpp:203-212 | the round ends exactly when all have voted |
| GameServers.GameServer.EndRound | src/server/game_server.cpp:213-268 | game and sends are those of the end of a round |
| GameServers.GameServer.OnVote | src/server/game_server.cpp:174-271 | game and sends are those of a vote, failed ones included |
| GameServers.GameServer.OnChatMessage | src/server/game_server.cpp:149-284 | a vote command is a vote, anything else goes to everybody under the sender's name |
| GameServers.GameServer.PacketCallback | src/server/game_server.cpp:50-325 | for the choices it made, the callback's game and streams are what the handler function says |

## Left out

- Sockets, accepting, threads and their shutdown: foreign calls; a chunk arriving, a connection beginning or ending and a
  packet put into a stream are what remains.
- Failed and partial sends and the disconnecting they cause: delivery to open connections is taken as reliable.
- Overlapping runs of the callback on different threads: one run is one step.
- Id reuse after 2^32 - 1 connections: no connection is accepted beyond that.
- The client's stop flag for its receiving thread: the thread runs until the connection ends.
- The server's stop, which drops the players and all connections: only the method it calls, `ClearAllPlayers`, is there.
- Logging, the terminal, keyboard input, the status bar and score texts: user interface.
- The message queue: filled but never read by the game.
- The connection manager beyond the set of open connections, its user names (never set by the game), heartbeats.
- `Packet::setType` and `Packet::setData`: not used by the game; a packet is a value here.
- The echo client and server.
- The contents of the topic table and the quality of the random draws: any topic with a name, any word, any player.
- Player roles in the client's copy: they are only as new as the last packet that listed them and are not shown.
- Decoders on corrupt payloads other than cut ones: modelled as the code is, with no claim on what the result should mean.
