/** Which players a vote command can name. */
module Commands {
  import opened Bytes
  import opened Messages
  import opened Votes
  import opened Rules
  import opened Handlers
  import Seqs

  /** A name that a chat packet can vote for: not empty, no space in front, no blank at the end. */
  predicate Votable(name: bytes) {
    name != [] && name[0] != 32 && !IsBlank(name[|name| - 1])
  }

  lemma {:induction false} TrimRightEnds(s: bytes)
    ensures TrimRight(s) <= s
    ensures TrimRight(s) != [] ==> !IsBlank(TrimRight(s)[|TrimRight(s)| - 1])
    ensures s != [] && !IsBlank(s[|s| - 1]) ==> TrimRight(s) == s
    decreases |s|
  {
    if s != [] && IsBlank(s[|s| - 1]) {
      TrimRightEnds(s[..|s| - 1]);
    }
  }

  lemma {:induction false} TrimLeftEnds(s: bytes)
    requires s != [] && !IsBlank(s[|s| - 1])
    ensures Votable(TrimLeft(s))
    ensures s[0] != 32 ==> TrimLeft(s) == s
    decreases |s|
  {
    if s[0] == 32 {
      TrimLeftEnds(s[1..]);
    }
  }

  // ------------------------------------------------- how a text is taken apart ----

  predicate AllBlank(s: bytes) {
    forall i :: 0 <= i < |s| ==> IsBlank(s[i])
  }

  predicate AllSpaces(s: bytes) {
    forall i :: 0 <= i < |s| ==> s[i] == 32
  }

  predicate EndsInBlank(s: bytes) {
    s != [] && IsBlank(s[|s| - 1])
  }

  /** The text is `s` without the blanks at its end. */
  ghost predicate IsTextOf(text: bytes, s: bytes) {
    !EndsInBlank(text) && exists blanks :: AllBlank(blanks) && s == text + blanks
  }

  /** Trimming on the right takes off blanks and nothing else. */
  lemma {:induction false} TrimRightSplits(s: bytes)
    ensures IsTextOf(TrimRight(s), s)
    decreases |s|
  {
    if EndsInBlank(s) {
      var n := |s| - 1;
      TrimRightSplits(s[..n]);
      var blanks :| AllBlank(blanks) && s[..n] == TrimRight(s[..n]) + blanks;
      Seqs.TakeLast(s, n);
      Seqs.Empty(s);
      Seqs.Assoc(TrimRight(s), blanks, [s[n]]);
      assert AllBlank(blanks + [s[n]]);
    } else {
      Seqs.Empty(s);
      assert AllBlank([]);
    }
  }

  lemma {:induction false} TrimRightFinds(text: bytes, blanks: bytes)
    requires !EndsInBlank(text) && AllBlank(blanks)
    ensures TrimRight(text + blanks) == text
    decreases |blanks|
  {
    if blanks == [] {
      Seqs.Empty(text);
    } else {
      var n := |blanks| - 1;
      Seqs.TakeLast(blanks, n);
      Seqs.Empty(blanks);
      Seqs.Assoc(text, blanks[..n], [blanks[n]]);
      Seqs.Split(text + blanks[..n], [blanks[n]]);
      TrimRightFinds(text, blanks[..n]);
    }
  }

  /** What trimming on the right leaves is the one text that the data is, blanks at the end aside. */
  lemma TextIsTrimmed(text: bytes, data: bytes)
    ensures IsTextOf(text, data) <==> TrimRight(data) == text
  {
    TrimRightSplits(data);
    if IsTextOf(text, data) {
      var blanks :| AllBlank(blanks) && data == text + blanks;
      TrimRightFinds(text, blanks);
    }
  }

  lemma {:induction false} TrimLeftSplits(s: bytes) returns (spaces: bytes)
    ensures s == spaces + TrimLeft(s) && AllSpaces(spaces)
    decreases |s|
  {
    if s != [] && s[0] == 32 {
      var more := TrimLeftSplits(s[1..]);
      Seqs.TakeFirst(s, |s|);
      Seqs.Empty(s);
      Seqs.Empty(s[1..]);
      Seqs.Assoc([s[0]], more, TrimLeft(s));
      spaces := [s[0]] + more;
    } else {
      Seqs.Empty(s);
      spaces := [];
    }
  }

  lemma {:induction false} TrimLeftFinds(spaces: bytes, name: bytes)
    requires AllSpaces(spaces) && Votable(name)
    ensures TrimLeft(spaces + name) == name
    decreases |spaces|
  {
    if spaces == [] {
      Seqs.Empty(name);
    } else {
      Seqs.TailOfAppend(spaces, name);
      TrimLeftFinds(spaces[1..], name);
    }
  }

  /** The second trimming on the right never finds anything to trim. */
  lemma SecondTrimIsIdle(data: bytes)
    requires IsVoteCommand(TrimRight(data))
    ensures VotedName(TrimRight(data)) == TrimLeft(TrimRight(data)[6..])
    ensures Votable(VotedName(TrimRight(data)))
  {
    var message := TrimRight(data);
    TrimRightEnds(data);
    assert message[6..][|message[6..]| - 1] == message[|message| - 1];
    TrimLeftEnds(message[6..]);
    TrimRightEnds(TrimLeft(message[6..]));
  }

  lemma CommandFor(name: bytes)
    requires Votable(name)
    ensures CommandIn(VOTE_PREFIX + name) == Some(name)
  {
    var data := VOTE_PREFIX + name;
    Seqs.Split(VOTE_PREFIX, name);
    assert data[|data| - 1] == name[|name| - 1];
    TrimRightEnds(data);
    SecondTrimIsIdle(data);
    TrimLeftEnds(name);
  }

  /** The packet says "/vote ", perhaps more spaces, the name, perhaps blanks, and nothing else. */
  ghost predicate SaysVote(data: bytes, spaces: bytes, name: bytes, blanks: bytes) {
    Votable(name) && AllSpaces(spaces) && AllBlank(blanks) && data == VOTE_PREFIX + (spaces + name) + blanks
  }

  ghost predicate IsVoteFor(data: bytes, name: bytes) {
    exists spaces, blanks :: SaysVote(data, spaces, name, blanks)
  }

  lemma SaidVoteIsFound(data: bytes, spaces: bytes, name: bytes, blanks: bytes)
    requires SaysVote(data, spaces, name, blanks)
    ensures CommandIn(data) == Some(name)
  {
    var message := VOTE_PREFIX + (spaces + name);
    Seqs.Split(VOTE_PREFIX, spaces + name);
    assert message[|message| - 1] == name[|name| - 1];
    TrimRightFinds(message, blanks);
    SecondTrimIsIdle(data);
    TrimLeftFinds(spaces, name);
  }

  lemma FoundVoteIsSaid(data: bytes, name: bytes)
    requires CommandIn(data) == Some(name)
    ensures IsVoteFor(data, name)
  {
    var message := TrimRight(data);
    TrimRightSplits(data);
    var blanks :| AllBlank(blanks) && data == message + blanks;
    SecondTrimIsIdle(data);
    var spaces := TrimLeftSplits(message[6..]);
    Seqs.DropTwice(message, 0, 6);
    PrefixAndRest(message);
    assert SaysVote(data, spaces, name, blanks);
  }

  lemma PrefixAndRest(message: bytes)
    requires |message| >= 6
    ensures message == message[..6] + message[6..]
  {
  }

  /** A packet is read as a vote for a name exactly when it says so. */
  lemma CommandIsWhatIsSaid(data: bytes, name: bytes)
    ensures CommandIn(data) == Some(name) <==> IsVoteFor(data, name)
  {
    if CommandIn(data) == Some(name) {
      FoundVoteIsSaid(data, name);
    }
    if IsVoteFor(data, name) {
      var spaces, blanks :| SaysVote(data, spaces, name, blanks);
      SaidVoteIsFound(data, spaces, name, blanks);
    }
  }

  /** A packet is a vote command exactly when its text begins with "/vote "; every other text is chat. */
  lemma WhatIsNoCommand(data: bytes, text: bytes)
    requires IsTextOf(text, data)
    ensures CommandIn(data).Some? <==> VOTE_PREFIX <= text
    ensures CommandIn(data).None? <==> forall name :: !IsVoteFor(data, name)
  {
    TextIsTrimmed(text, data);
    assert IsBlank(VOTE_PREFIX[5]);
    if CommandIn(data).Some? {
      CommandIsWhatIsSaid(data, CommandIn(data).value);
    }
    forall name
      ensures CommandIn(data) == Some(name) <==> IsVoteFor(data, name)
    {
      CommandIsWhatIsSaid(data, name);
    }
  }

  // --------------------------------------------------------------- default names ----

  /** The number a run of decimal digits stands for. */
  function ReadDecimal(s: bytes): int {
    if s == [] then 0 else 10 * ReadDecimal(s[..|s| - 1]) + s[|s| - 1] - 48
  }

  predicate AllDigits(s: bytes) {
    forall i :: 0 <= i < |s| ==> 48 <= s[i] <= 57
  }

  /** The digits of an id read back as the id. */
  lemma {:induction false} DecimalReads(n: nat)
    ensures ReadDecimal(Decimal(n)) == n
    ensures Decimal(n) != [] && AllDigits(Decimal(n))
    ensures n > 0 ==> Decimal(n)[0] != 48
  {
    if n >= 10 {
      DecimalReads(n / 10);
      Seqs.Split(Decimal(n / 10), [48 + n % 10]);
    } else {
      Seqs.Empty([48 + n % 10]);
      assert ReadDecimal([]) == 0;
    }
  }

  /** Players who send no name never get each other's default name. */
  lemma DefaultNamesDiffer(a: u32, b: u32)
    ensures DefaultName(a)[..7] == [80, 108, 97, 121, 101, 114, 32] && ReadDecimal(DefaultName(a)[7..]) == a
    ensures DefaultName(a) == DefaultName(b) ==> a == b
  {
    Seqs.Split(PLAYER_PREFIX, Decimal(a));
    Seqs.Split(PLAYER_PREFIX, Decimal(b));
    DecimalReads(a);
    DecimalReads(b);
  }

  /** Votes are cast "with /vote <username>". A user name can be voted for exactly when it is not empty, does not begin
      with a space and does not end with a space or line break; the server accepts other names at the join. */
  lemma WhoCanBeVotedFor(name: bytes)
    ensures (exists data :: CommandIn(data) == Some(name)) <==> Votable(name)
  {
    if exists data :: CommandIn(data) == Some(name) {
      var data :| CommandIn(data) == Some(name);
      SecondTrimIsIdle(data);
    }
    if Votable(name) {
      CommandFor(name);
    }
  }

  /** A player who joined as a single space cannot be voted for. */
  lemma SpaceCannotBeVotedFor(data: bytes)
    ensures CommandIn(data) != Some([32])
  {
    WhoCanBeVotedFor([32]);
  }

  // -------------------------------------------------------- which player is meant ----

  ghost predicate Named(players: Players, id: u32, name: bytes) {
    id in players && players[id].username == name
  }

  lemma {:induction false} FirstNamedFinds(players: Players, walk: seq<u32>, name: bytes)
    requires forall id :: id in walk ==> id in players && players[id].id == id
    ensures var found := FirstNamed(players, walk, name);
      if exists id :: id in walk && Named(players, id, name) then found in walk && Named(players, found, name)
      else found == 0
    decreases |walk|
  {
    if walk != [] && players[walk[0]].username != name {
      FirstNamedFinds(players, walk[1..], name);
      assert forall id :: id in walk <==> id == walk[0] || id in walk[1..];
    }
  }

  /** A walk may begin with any player. */
  lemma WalkFrom(ids: set<u32>, first: u32) returns (walk: seq<u32>)
    requires first in ids
    ensures IsWalk(walk, ids) && walk != [] && walk[0] == first
  {
    var others := SomeWalk(ids - {first});
    walk := [first] + others;
  }

  /** Every order of the player table finds the same target. */
  ghost predicate OrderFree(players: Players, name: bytes) {
    forall a, b :: IsWalk(a, players.Keys) && IsWalk(b, players.Keys) ==>
      FirstNamed(players, a, name) == FirstNamed(players, b, name)
  }

  /** The player a vote command means does not depend on the order of the table exactly when no two players share the
      name; the server lets them share it. */
  lemma VoteIsUnambiguous(players: Players, name: bytes)
    requires forall id :: id in players ==> players[id].id == id
    ensures OrderFree(players, name)
       <==> forall x, y :: Named(players, x, name) && Named(players, y, name) ==> x == y
  {
    if OrderFree(players, name) {
      forall x, y | Named(players, x, name) && Named(players, y, name)
        ensures x == y
      {
        var a := WalkFrom(players.Keys, x);
        var b := WalkFrom(players.Keys, y);
        assert FirstNamed(players, a, name) == x && FirstNamed(players, b, name) == y;
      }
    }
    if forall x, y :: Named(players, x, name) && Named(players, y, name) ==> x == y {
      forall a, b | IsWalk(a, players.Keys) && IsWalk(b, players.Keys)
        ensures FirstNamed(players, a, name) == FirstNamed(players, b, name)
      {
        FirstNamedFinds(players, a, name);
        FirstNamedFinds(players, b, name);
      }
    }
  }

  /** A vote command is recorded exactly for a player who has not voted, in an active round, when some player has the
      name; it is then a vote for such a player. Otherwise it changes nothing and nobody is told. */
  lemma WhenVotesCount(g: Game, voter: u32, name: bytes, ch: Choice)
    requires Inv(g) && Fits(ch, g.players.Keys)
    requires IsWalk(ch.ballots, Tally(Voted(g, voter, TargetOf(g, name, ch)).votes).Keys)
    ensures var o, target := VoteStep(g, voter, name, ch), TargetOf(g, name, ch);
      if g.active && voter in g.players && voter !in g.votes && exists id :: Named(g.players, id, name) then
        && Named(g.players, target, name)
        && IsWalk(ch.ballots, Tally(g.votes[voter := target]).Keys)
        && o == CountStep(g.(votes := g.votes[voter := target]), ch)
      else o == Outcome(g, [], false)
  {
    FirstNamedFinds(g.players, ch.lookup, name);
    assert forall id :: Named(g.players, id, name) ==> id in ch.lookup;
  }
}
