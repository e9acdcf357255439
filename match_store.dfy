/**
 * The table of matches and the pure logic MainWidget runs over it: the update
 * record_winner makes, the search for the current match, and the decision
 * start_next_match takes for a pairing with a bye.
 *
 * The table is a sequence of Match records.  Its rows are inserted in list
 * order into a table that generate_matches has just emptied, so the model
 * takes the database id of the record at position p to be p + 1: the number
 * that the placeholder names of create_elimination_round use for it.
 */
module MatchStore {
  import opened Wrappers
  import opened Brackets

  /** A row of the matches table (models.py). */
  datatype Match = Match(player1: string, player2: string, winner: Option<string>, system: string)

  type Store = seq<Match>

  /** The rows generate_matches inserts for a list of pairings: no winner yet. */
  function FromPairs(pairs: seq<Pair>, system: string): (s: Store)
    ensures |s| == |pairs|
  {
    seq(|pairs|, i requires 0 <= i < |pairs| => Match(pairs[i].0, pairs[i].1, None, system))
  }

  // ---------------------------------------------------------------------------
  // record_winner
  // ---------------------------------------------------------------------------

  /** A slot after the pass: the winner where it held the tag, unchanged elsewhere. */
  function Substitute(slot: string, tag: string, winner: string): string {
    if slot == tag then winner else slot
  }

  function Propagate(m: Match, tag: string, winner: string): Match {
    m.(player1 := Substitute(m.player1, tag, winner), player2 := Substitute(m.player2, tag, winner))
  }

  /** The flat pass of record_winner over every row. */
  function Propagated(s: Store, tag: string, winner: string): (r: Store)
    ensures |r| == |s|
  {
    seq(|s|, j requires 0 <= j < |s| => Propagate(s[j], tag, winner))
  }

  /**
   * The table after record_winner(s[i], w): the winner of row i is set, then
   * every slot equal to the placeholder of match i + 1 is replaced by w.
   */
  function Recorded(s: Store, i: nat, w: string): (r: Store)
    requires i < |s|
    ensures |r| == |s|
  {
    Propagated(s[i := s[i].(winner := Some(w))], Placeholder(i + 1), w)
  }

  /**
   * What record_winner changes and what it leaves alone: row i gets the
   * winner, exactly the slots equal to the placeholder of match i + 1 become
   * w, and every other slot, winner and system field is as before.
   */
  lemma RecordedAt(s: Store, i: nat, w: string, j: nat)
    requires i < |s| && j < |s|
    ensures Recorded(s, i, w)[j].winner == if j == i then Some(w) else s[j].winner
    ensures Recorded(s, i, w)[j].system == s[j].system
    ensures Recorded(s, i, w)[j].player1 == if s[j].player1 == Placeholder(i + 1) then w else s[j].player1
    ensures Recorded(s, i, w)[j].player2 == if s[j].player2 == Placeholder(i + 1) then w else s[j].player2
  {
  }

  /** Recording the same winner for the same match twice changes nothing more. */
  lemma RecordedIdempotent(s: Store, i: nat, w: string)
    requires i < |s|
    ensures Recorded(Recorded(s, i, w), i, w) == Recorded(s, i, w)
  {
    var once := Recorded(s, i, w);
    var twice := Recorded(once, i, w);
    forall j | 0 <= j < |s|
      ensures twice[j] == once[j]
    {
      RecordedAt(s, i, w, j);
      RecordedAt(once, i, w, j);
    }
  }

  /** Unless the winner is the tag itself, no slot refers to match i + 1 afterwards. */
  lemma RecordedClearsReferences(s: Store, i: nat, w: string, j: nat)
    requires i < |s| && j < |s| && w != Placeholder(i + 1)
    ensures Recorded(s, i, w)[j].player1 != Placeholder(i + 1)
    ensures Recorded(s, i, w)[j].player2 != Placeholder(i + 1)
  {
    RecordedAt(s, i, w, j);
  }

  // ---------------------------------------------------------------------------
  // What a chain of record_winner calls does to the slots
  // ---------------------------------------------------------------------------

  /**
   * A slot that held `before` now holds `after`: either it is unchanged, or it
   * named match k + 1 and now holds that match's winner, a real name.
   */
  predicate Filled(before: string, after: string, s: Store) {
    after == before
    || exists k :: 0 <= k < |s| && before == Placeholder(k + 1) && s[k].winner == Some(after) && !IsPlaceholder(after)
  }

  /** Every slot of `s` is its slot in `before`, or filled in from `before`. */
  predicate FilledFrom(before: Store, s: Store)
    requires |before| == |s|
  {
    forall j :: 0 <= j < |s| ==> Filled(before[j].player1, s[j].player1, s) && Filled(before[j].player2, s[j].player2, s)
  }

  /** record_winner with a real name fills in exactly the slots that named the match. */
  lemma RecordedFilled(s: Store, i: nat, w: string)
    requires i < |s| && !IsPlaceholder(w)
    ensures FilledFrom(s, Recorded(s, i, w))
  {
    var r := Recorded(s, i, w);
    forall j | 0 <= j < |s|
      ensures Filled(s[j].player1, r[j].player1, r) && Filled(s[j].player2, r[j].player2, r)
    {
      RecordedAt(s, i, w, j);
      RecordedAt(s, i, w, i);
    }
  }

  lemma FilledSlotTrans(x: string, y: string, z: string, b: Store, c: Store)
    requires |b| == |c|
    requires forall k :: 0 <= k < |b| && b[k].winner != None ==> c[k].winner == b[k].winner
    requires Filled(x, y, b) && Filled(y, z, c)
    ensures Filled(x, z, c)
  {
    if y != x {
      var k :| 0 <= k < |b| && x == Placeholder(k + 1) && b[k].winner == Some(y) && !IsPlaceholder(y);
      assert c[k].winner == Some(y);
    }
  }

  /**
   * Filling in twice is filling in once, as long as the second table keeps
   * the winners of the first: a filled slot holds a real name, which no later
   * pass replaces.
   */
  lemma FilledFromTrans(a: Store, b: Store, c: Store)
    requires |a| == |b| == |c|
    requires FilledFrom(a, b) && FilledFrom(b, c)
    requires forall k :: 0 <= k < |b| && b[k].winner != None ==> c[k].winner == b[k].winner
    ensures FilledFrom(a, c)
  {
    forall j | 0 <= j < |c|
      ensures Filled(a[j].player1, c[j].player1, c) && Filled(a[j].player2, c[j].player2, c)
    {
      FilledSlotTrans(a[j].player1, b[j].player1, c[j].player1, b, c);
      FilledSlotTrans(a[j].player2, b[j].player2, c[j].player2, b, c);
    }
  }

  /** A real name is never filled in: the slot keeps it. */
  lemma FilledKeepsName(before: string, after: string, s: Store)
    requires Filled(before, after, s) && !IsPlaceholder(before)
    ensures after == before
  {
  }

  // ---------------------------------------------------------------------------
  // Undecided matches and get_current_match_index
  // ---------------------------------------------------------------------------

  /** Positions of the rows that have no winner yet. */
  function UndecidedSet(s: Store): set<nat> {
    set j: nat | j < |s| && s[j].winner == None
  }

  function Undecided(s: Store): nat {
    |UndecidedSet(s)|
  }

  /** Recording a winner for row i decides row i and no other. */
  lemma RecordedUndecided(s: Store, i: nat, w: string)
    requires i < |s|
    ensures UndecidedSet(Recorded(s, i, w)) == UndecidedSet(s) - {i}
    ensures Undecided(Recorded(s, i, w)) == if s[i].winner == None then Undecided(s) - 1 else Undecided(s)
  {
    var r := Recorded(s, i, w);
    forall j | 0 <= j < |s|
      ensures r[j].winner == if j == i then Some(w) else s[j].winner
    {
      RecordedAt(s, i, w, j);
    }
    assert UndecidedSet(r) == UndecidedSet(s) - {i};
  }

  /**
   * The first row without a winner, or None when every row has one
   * (the loop of get_current_match_index falls off its end).
   */
  function FirstUndecided(s: Store): (r: Option<nat>)
    ensures r.Some? ==> r.value < |s| && s[r.value].winner == None
    ensures r.Some? ==> forall k :: 0 <= k < r.value ==> s[k].winner != None
    ensures r.None? <==> forall k :: 0 <= k < |s| ==> s[k].winner != None
  {
    if s == [] then None
    else if s[0].winner == None then Some(0)
    else match FirstUndecided(s[1..]) {
      case None => None
      case Some(j) => Some(j + 1)
    }
  }

  /** get_current_match_index: the index of the first row whose winner is None. */
  method GetCurrentMatchIndex(matches: Store) returns (r: Option<nat>)
    ensures r == FirstUndecided(matches)
  {
    var i := 0;
    while i < |matches|
      invariant i <= |matches|
      invariant forall k :: 0 <= k < i ==> matches[k].winner != None
    {
      if matches[i].winner == None {
        return Some(i);
      }
      i := i + 1;
    }
    return None;
  }

  // ---------------------------------------------------------------------------
  // Byes in start_next_match
  // ---------------------------------------------------------------------------

  /**
   * The winner start_next_match records without playing: a bye against a bye
   * gives the bye marker, a team against a bye gives the team; None means the
   * match has to be played on the scoreboard.
   */
  function ByeDecision(m: Match): (r: Option<string>)
    ensures r.None? <==> m.player1 != Bye && m.player2 != Bye
    ensures m.player2 == Bye ==> r == Some(m.player1)
    ensures m.player1 == Bye ==> r == Some(m.player2)
  {
    if m.player1 == Bye && m.player2 == Bye then Some(Bye)
    else if m.player2 == Bye then Some(m.player1)
    else if m.player1 == Bye then Some(m.player2)
    else None
  }

  // ---------------------------------------------------------------------------
  // Placeholder discipline
  // ---------------------------------------------------------------------------

  /**
   * A slot of row j is either a real name or the placeholder of a match k with
   * k <= j (an earlier row) that has no winner yet.
   */
  predicate SlotRefersBack(s: Store, j: nat, slot: string)
    requires j < |s|
  {
    !IsPlaceholder(slot)
    || exists k: nat :: 1 <= k <= j && slot == Placeholder(k) && s[k - 1].winner == None
  }

  /** Every slot of every row refers back to an undecided match, if it refers at all. */
  predicate PlaceholderDiscipline(s: Store) {
    forall j :: 0 <= j < |s| ==> SlotRefersBack(s, j, s[j].player1) && SlotRefersBack(s, j, s[j].player2)
  }

  lemma RecordedSlotRefersBack(s: Store, i: nat, w: string, j: nat, slot: string)
    requires i < |s| && j < |s| && !IsPlaceholder(w)
    requires SlotRefersBack(s, j, slot)
    ensures SlotRefersBack(Recorded(s, i, w), j, Substitute(slot, Placeholder(i + 1), w))
  {
    var r := Recorded(s, i, w);
    if slot != Placeholder(i + 1) && IsPlaceholder(slot) {
      var k: nat :| 1 <= k <= j && slot == Placeholder(k) && s[k - 1].winner == None;
      RecordedAt(s, i, w, k - 1);
      assert r[k - 1].winner == None;
    }
  }

  /**
   * record_winner keeps the discipline when the winner is a real name: the
   * slots that named the decided match now hold the name, and every other
   * placeholder still names a match whose winner the pass did not touch.
   */
  lemma RecordedKeepsDiscipline(s: Store, i: nat, w: string)
    requires i < |s| && PlaceholderDiscipline(s) && !IsPlaceholder(w)
    ensures PlaceholderDiscipline(Recorded(s, i, w))
  {
    var r := Recorded(s, i, w);
    forall j | 0 <= j < |r|
      ensures SlotRefersBack(r, j, r[j].player1) && SlotRefersBack(r, j, r[j].player2)
    {
      RecordedAt(s, i, w, j);
      RecordedSlotRefersBack(s, i, w, j, s[j].player1);
      RecordedSlotRefersBack(s, i, w, j, s[j].player2);
    }
  }

  /**
   * Under the discipline the first undecided match holds two real names: a
   * placeholder in it would name an earlier match without a winner.
   */
  lemma FirstUndecidedHasNames(s: Store)
    requires PlaceholderDiscipline(s) && FirstUndecided(s).Some?
    ensures !IsPlaceholder(s[FirstUndecided(s).value].player1)
    ensures !IsPlaceholder(s[FirstUndecided(s).value].player2)
  {
    var i := FirstUndecided(s).value;
    assert SlotRefersBack(s, i, s[i].player1) && SlotRefersBack(s, i, s[i].player2);
  }

  /** A table of pairings of real names, with no winners, keeps the discipline. */
  lemma NamesKeepDiscipline(pairs: seq<Pair>, system: string)
    requires forall i :: 0 <= i < |pairs| ==> !IsPlaceholder(pairs[i].0) && !IsPlaceholder(pairs[i].1)
    ensures PlaceholderDiscipline(FromPairs(pairs, system))
  {
  }

  /**
   * A freshly generated elimination bracket keeps the discipline: round one
   * holds the (padded) team names, and every later slot names the winner of
   * an earlier match, none of which is decided yet.
   */
  lemma BracketKeepsDiscipline(teams: seq<string>, system: string)
    requires |teams| == 1 || (|teams| >= 2 && |teams| % 2 == 0)
    requires forall t :: 0 <= t < |teams| ==> !IsPlaceholder(teams[t])
    ensures PlaceholderDiscipline(FromPairs(Bracket(teams, 0), system))
  {
    var s := FromPairs(Bracket(teams, 0), system);
    forall j | 0 <= j < |s|
      ensures SlotRefersBack(s, j, s[j].player1) && SlotRefersBack(s, j, s[j].player2)
    {
      if |teams| <= 2 * j + 1 {
        var k := 2 * j - |teams| + 1;
        assert 1 <= k && k + 1 <= j;
        assert s[j].player1 == Placeholder(k) && s[k - 1].winner == None;
        assert s[j].player2 == Placeholder(k + 1) && s[k].winner == None;
      }
    }
  }

  /** The table generate_matches fills for an elimination bracket keeps the discipline. */
  lemma PaddedBracketKeepsDiscipline(teamNames: seq<string>, system: string)
    requires |teamNames| >= 1
    requires forall t :: 0 <= t < |teamNames| ==> !IsPlaceholder(teamNames[t])
    ensures PlaceholderDiscipline(FromPairs(Bracket(PaddedTeams(teamNames), 0), system))
  {
    var teams := PaddedTeams(teamNames);
    PaddedTeamsSize(teamNames);
    ByeIsNotPlaceholder();
    assert forall t :: 0 <= t < |teams| ==> !IsPlaceholder(teams[t]);
    BracketKeepsDiscipline(teams, system);
  }

  /** The table generate_matches fills for a round-robin schedule keeps the discipline. */
  lemma ScheduleKeepsDiscipline(teamNames: seq<string>, system: string)
    requires forall t :: 0 <= t < |teamNames| ==> !IsPlaceholder(teamNames[t])
    ensures PlaceholderDiscipline(FromPairs(RoundRobin(teamNames), system))
  {
    RoundRobinNames(teamNames);
    NamesKeepDiscipline(RoundRobin(teamNames), system);
  }
}
