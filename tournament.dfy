/**
 * MainWidget: the table of matches and the counter current_match_index, with
 * the operations that change them: generate_matches, record_winner and
 * start_next_match (which call each other), and show_final_results.
 *
 * The database session becomes the field `store`; a scoreboard that
 * start_next_match opens becomes the Step it returns, after which the caller
 * reports the scoreboard's winner through RecordWinner.
 */
module Tournament {
  import opened Wrappers
  import opened Brackets
  import opened MatchStore
  import opened Results

  /** The two entries of the system selector. */
  datatype System = RoundRobinSystem | EliminationSystem

  /** The text of a selector entry, which is also stored in every row. */
  function SystemName(system: System): string {
    match system
    case RoundRobinSystem => "Круговая система"
    case EliminationSystem => "Олимпийская система"
  }

  /** Where a chain of record_winner / start_next_match calls comes to rest. */
  datatype Step =
    | Opened(index: nat, player1: string, player2: string)  // a scoreboard is opened for row `index`
    | Standings(top: seq<Entry>)                                 // show_final_results ran
    | NoUndecidedMatch                                           // `None < len(matches)` raises TypeError

  class MainWidget {
    var store: Store
    var currentMatchIndex: nat

    /** The widget starts with whatever the database holds and the counter at 0. */
    constructor (saved: Store)
      ensures store == saved && currentMatchIndex == 0
    {
      store := saved;
      currentMatchIndex := 0;
    }

    /**
     * generate_matches: empties the table, then inserts the round-robin
     * schedule or the elimination bracket with no winners.  For an empty team
     * list math.log2 raises after the table was emptied.  The counter is not
     * reset.
     */
    method GenerateMatches(system: System, teamNames: seq<string>) returns (error: bool)
      modifies this`store
      ensures error <==> system == EliminationSystem && teamNames == []
      ensures error ==> store == []
      ensures system == RoundRobinSystem ==> store == FromPairs(RoundRobin(teamNames), SystemName(system))
      ensures system == EliminationSystem && !error ==>
                store == FromPairs(Bracket(PaddedTeams(teamNames), 0), SystemName(system))
      ensures (forall t :: 0 <= t < |teamNames| ==> !IsPlaceholder(teamNames[t])) ==> PlaceholderDiscipline(store)
    {
      store := [];
      var matches: seq<Pair>;
      if system == RoundRobinSystem {
        matches := GenerateRoundRobinMatches(teamNames);
      } else {
        var r := GenerateEliminationMatches(teamNames);
        if r.MathDomainError? {
          return true;
        }
        matches := r.matches;
      }
      InsertRows(matches, SystemName(system));
      error := false;
      if forall t :: 0 <= t < |teamNames| ==> !IsPlaceholder(teamNames[t]) {
        if system == RoundRobinSystem {
          ScheduleKeepsDiscipline(teamNames, SystemName(system));
        } else {
          PaddedBracketKeepsDiscipline(teamNames, SystemName(system));
        }
      }
    }

    /** The insertion loop of generate_matches: one row per pairing, no winner yet. */
    method InsertRows(matches: seq<Pair>, systemName: string)
      modifies this`store
      ensures store == old(store) + FromPairs(matches, systemName)
    {
      ghost var start := store;
      var k := 0;
      while k < |matches|
        invariant k <= |matches|
        invariant store == start + FromPairs(matches[..k], systemName)
      {
        store := store + [Match(matches[k].0, matches[k].1, None, systemName)];
        k := k + 1;
      }
      assert matches[..k] == matches;
    }

    /** The store part of record_winner: set the winner, then the flat substitution pass. */
    method SetWinner(i: nat, w: string)
      requires i < |store|
      modifies this`store
      ensures store == Recorded(old(store), i, w)
      ensures forall j :: 0 <= j < |store| ==>
                store[j].winner == (if j == i then Some(w) else old(store)[j].winner)
                && store[j].system == old(store)[j].system
      ensures Undecided(store) == if old(store)[i].winner == None then Undecided(old(store)) - 1 else Undecided(old(store))
      ensures PlaceholderDiscipline(old(store)) && !IsPlaceholder(w) ==>
                PlaceholderDiscipline(store) && FilledFrom(old(store), store)
    {
      store := store[i := store[i].(winner := Some(w))];
      ghost var decided := store;
      var tag := Placeholder(i + 1);
      var j := 0;
      while j < |store|
        invariant j <= |store| == |decided|
        invariant forall k :: 0 <= k < j ==> store[k] == Propagate(decided[k], tag, w)
        invariant forall k :: j <= k < |store| ==> store[k] == decided[k]
      {
        var m := store[j];
        if tag == m.player1 || tag == m.player2 {
          if m.player1 == tag {
            m := m.(player1 := w);
          }
          if m.player2 == tag {
            m := m.(player2 := w);
          }
          store := store[j := m];
        }
        j := j + 1;
      }
      assert store == Propagated(decided, tag, w);
      forall j | 0 <= j < |store|
        ensures store[j].winner == (if j == i then Some(w) else old(store)[j].winner)
        ensures store[j].system == old(store)[j].system
      {
        RecordedAt(old(store), i, w, j);
      }
      RecordedUndecided(old(store), i, w);
      if PlaceholderDiscipline(old(store)) && !IsPlaceholder(w) {
        RecordedKeepsDiscipline(old(store), i, w);
        RecordedFilled(old(store), i, w);
      }
    }

    /**
     * record_winner(store[i], w): records the winner, advances the counter by
     * one, and goes on to the next match while the counter is below the number
     * of rows, or shows the final results otherwise.
     */
    method RecordWinner(i: nat, w: string) returns (step: Step)
      requires i < |store|
      modifies this
      decreases Undecided(store) + (if store[i].winner == None then 0 else 1), 0
      ensures |store| == |old(store)| && store[i].winner == Some(w)
      ensures forall j :: 0 <= j < |store| && j != i && old(store)[j].winner != None ==>
                store[j].winner == old(store)[j].winner
      ensures currentMatchIndex == old(currentMatchIndex) + (Undecided(old(store)) - Undecided(store))
                                   + (if old(store)[i].winner == None then 0 else 1)
      ensures forall j :: 0 <= j < |store| ==> store[j].system == old(store)[j].system
      ensures forall j', j :: 0 <= j' < j < |store| && j != i && old(store)[j].winner == None && store[j].winner != None ==>
                store[j'].winner != None
      ensures PlaceholderDiscipline(old(store)) && !IsPlaceholder(w) ==> PlaceholderDiscipline(store)
      ensures PlaceholderDiscipline(old(store)) && !IsPlaceholder(w) ==> FilledFrom(old(store), store)
      ensures PlaceholderDiscipline(old(store)) && !IsPlaceholder(w) ==>
                forall j :: 0 <= j < |store| && j != i && old(store)[j].winner == None && store[j].winner != None ==>
                  store[j].winner == ByeDecision(store[j])
      ensures step.Standings? <==> currentMatchIndex >= |store|
      ensures step.Standings? ==>
                currentMatchIndex == if old(currentMatchIndex) + 1 >= |store| then old(currentMatchIndex) + 1 else |store|
      ensures step.Standings? ==> IsTopThree(step.top, Winners(store))
      ensures step.Opened? ==> IsOpenedMatch(store, step)
      ensures step.NoUndecidedMatch? ==> FirstUndecided(store) == None
    {
      ghost var before := store;
      SetWinner(i, w);
      ghost var recorded := store;
      step := Advance();
      forall j', j | 0 <= j' < j < |store| && j != i && before[j].winner == None && store[j].winner != None
        ensures store[j'].winner != None
      {
        assert recorded[j].winner == None;
      }
      if PlaceholderDiscipline(before) && !IsPlaceholder(w) {
        FilledFromTrans(before, recorded, store);
      }
    }

    /**
     * The end of record_winner: the counter goes up by one, then the next
     * match starts while the counter is below the number of rows, and the
     * final results are shown otherwise.
     */
    method Advance() returns (step: Step)
      modifies this
      decreases Undecided(store), 2
      ensures |store| == |old(store)|
      ensures old(currentMatchIndex) + 1 >= |store| ==> store == old(store) && step.Standings?
      ensures forall j :: 0 <= j < |store| && old(store)[j].winner != None ==>
                store[j].winner == old(store)[j].winner
      ensures currentMatchIndex == old(currentMatchIndex) + 1 + (Undecided(old(store)) - Undecided(store))
      ensures forall j :: 0 <= j < |store| ==> store[j].system == old(store)[j].system
      ensures forall j', j :: 0 <= j' < j < |store| && old(store)[j].winner == None && store[j].winner != None ==>
                store[j'].winner != None
      ensures PlaceholderDiscipline(old(store)) ==> PlaceholderDiscipline(store)
      ensures PlaceholderDiscipline(old(store)) ==> FilledFrom(old(store), store)
      ensures PlaceholderDiscipline(old(store)) ==>
                forall j :: 0 <= j < |store| && old(store)[j].winner == None && store[j].winner != None ==>
                  store[j].winner == ByeDecision(store[j])
      ensures step.Standings? <==> currentMatchIndex >= |store|
      ensures step.Standings? ==>
                currentMatchIndex == if old(currentMatchIndex) + 1 >= |store| then old(currentMatchIndex) + 1 else |store|
      ensures step.Standings? ==> IsTopThree(step.top, Winners(store))
      ensures step.Opened? ==> IsOpenedMatch(store, step)
      ensures step.NoUndecidedMatch? ==> FirstUndecided(store) == None
    {
      currentMatchIndex := currentMatchIndex + 1;
      if currentMatchIndex < |store| {
        step := StartNextMatch();
      } else {
        var top := ShowFinalResults();
        step := Standings(top);
      }
    }

    /**
     * start_next_match: takes the first undecided row; a pairing with a bye is
     * decided on the spot through record_winner, any other pairing opens a
     * scoreboard.  When every row is decided, get_current_match_index returns
     * None and the comparison with len(matches) raises.
     */
    method StartNextMatch() returns (step: Step)
      modifies this
      decreases Undecided(store), 1
      ensures |store| == |old(store)|
      ensures forall j :: 0 <= j < |store| && old(store)[j].winner != None ==>
                store[j].winner == old(store)[j].winner
      ensures currentMatchIndex == old(currentMatchIndex) + (Undecided(old(store)) - Undecided(store))
      ensures forall j :: 0 <= j < |store| ==> store[j].system == old(store)[j].system
      ensures forall j', j :: 0 <= j' < j < |store| && old(store)[j].winner == None && store[j].winner != None ==>
                store[j'].winner != None
      ensures PlaceholderDiscipline(old(store)) ==> PlaceholderDiscipline(store)
      ensures PlaceholderDiscipline(old(store)) ==> FilledFrom(old(store), store)
      ensures PlaceholderDiscipline(old(store)) ==>
                forall j :: 0 <= j < |store| && old(store)[j].winner == None && store[j].winner != None ==>
                  store[j].winner == ByeDecision(store[j])
      ensures step.Standings? ==> currentMatchIndex >= |store|
      ensures step.Standings? ==>
                currentMatchIndex == if old(currentMatchIndex) >= |store| then old(currentMatchIndex) + 1 else |store|
      ensures Undecided(store) < Undecided(old(store)) && currentMatchIndex >= |store| ==> step.Standings?
      ensures !step.Standings? && old(currentMatchIndex) < |store| ==> currentMatchIndex < |store|
      ensures step.Standings? ==> IsTopThree(step.top, Winners(store))
      ensures step.Opened? ==> IsOpenedMatch(store, step)
      ensures step.NoUndecidedMatch? ==> FirstUndecided(store) == None
    {
      var index := GetCurrentMatchIndex(store);
      if index.None? {
        return NoUndecidedMatch;
      }
      var k := index.value;
      var m := store[k];
      var bye := ByeDecision(m);
      if bye.Some? {
        ghost var before := store;
        if PlaceholderDiscipline(store) {
          FirstUndecidedHasNames(store);
          ByeIsNotPlaceholder();
        }
        step := RecordWinner(k, bye.value);
        if PlaceholderDiscipline(before) {
          FilledKeepsName(m.player1, store[k].player1, store);
          FilledKeepsName(m.player2, store[k].player2, store);
          assert store[k].winner == ByeDecision(store[k]);
        }
      } else {
        step := Opened(k, m.player1, m.player2);
      }
    }

    /**
     * show_final_results: the top three of the tally of the winners, in an
     * iteration order of the set of winners that Python leaves unspecified.
     */
    method ShowFinalResults() returns (top: seq<Entry>)
      ensures IsTopThree(top, Winners(store))
    {
      var ws := Winners(store);
      var remaining := set x | x in ws;
      var order := [];
      while remaining != {}
        invariant forall x :: x in order <==> x in ws && x !in remaining
        invariant forall x :: x in remaining ==> x in ws
        invariant forall a, b :: 0 <= a < b < |order| ==> order[a] != order[b]
        decreases |remaining|
      {
        var x :| x in remaining;
        order := order + [x];
        remaining := remaining - {x};
      }
      top := FinalResults(ws, order);
    }
  }

  /**
   * The row a scoreboard is opened for: the first undecided one, with two
   * real team names when the table keeps the placeholder discipline.
   */
  ghost predicate IsOpenedMatch(s: Store, step: Step)
    requires step.Opened?
  {
    FirstUndecided(s) == Some(step.index)
    && step.index < |s|
    && s[step.index].player1 == step.player1 && s[step.index].player2 == step.player2
    && step.player1 != Bye && step.player2 != Bye
    && (PlaceholderDiscipline(s) ==> !IsPlaceholder(step.player1) && !IsPlaceholder(step.player2))
  }
}
