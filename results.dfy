/**
 * show_final_results: the winners of the table other than the bye marker are
 * tallied per team, the tally is sorted by number of wins, largest first, and
 * the first three entries are shown.
 *
 * A winner is an Option: a match that is still undecided contributes None to
 * the list and is tallied like a team.  The tally is a dict built by iterating
 * over a set, whose order Python does not specify; the functions here take
 * that order as a parameter, and Tournament picks it arbitrarily.
 */
module Results {
  import opened Wrappers
  import opened Brackets
  import opened MatchStore

  /** A tally entry: a winner and the number of matches it won. */
  type Entry = (Option<string>, nat)

  /** The winners of the table in row order, leaving out the bye marker. */
  function Winners(s: Store): (ws: seq<Option<string>>)
    ensures forall x :: x in ws <==> x != Some(Bye) && exists j :: 0 <= j < |s| && s[j].winner == x
  {
    if s == [] then []
    else
      var rest := Winners(s[1..]);
      assert forall j :: 1 <= j < |s| ==> s[j] == s[1..][j - 1];
      if s[0].winner == Some(Bye) then rest else [s[0].winner] + rest
  }

  /** The winner column of the table, one entry per row. */
  function WinnerColumn(s: Store): seq<Option<string>> {
    seq(|s|, j requires 0 <= j < |s| => s[j].winner)
  }

  /**
   * Each winner other than the bye marker occurs in the winners list as
   * often as it occurs in the winner column, i.e. once per row it won.
   */
  lemma {:induction false} WinnersCount(s: Store, x: Option<string>)
    requires x != Some(Bye)
    ensures multiset(Winners(s))[x] == multiset(WinnerColumn(s))[x]
  {
    if s != [] {
      WinnersCount(s[1..], x);
      assert WinnerColumn(s) == [s[0].winner] + WinnerColumn(s[1..]);
    }
  }

  /** `order` lists each distinct winner exactly once. */
  ghost predicate IsEnumeration(order: seq<Option<string>>, ws: seq<Option<string>>) {
    (forall x :: x in order <==> x in ws)
    && forall a, b :: 0 <= a < b < |order| ==> order[a] != order[b]
  }

  /** The dict {team: count} in the iteration order `order`. */
  function Tally(order: seq<Option<string>>, ws: seq<Option<string>>): (t: seq<Entry>)
    ensures |t| == |order|
  {
    seq(|order|, i requires 0 <= i < |order| => (order[i], multiset(ws)[order[i]]))
  }

  predicate SortedByWins(es: seq<Entry>) {
    forall a, b :: 0 <= a < b < |es| ==> es[a].1 >= es[b].1
  }

  predicate DistinctTeams(es: seq<Entry>) {
    forall a, b :: 0 <= a < b < |es| ==> es[a].0 != es[b].0
  }

  /** Inserts e before the first entry with at most as many wins, keeping earlier ties first. */
  function Insert(e: Entry, es: seq<Entry>): (r: seq<Entry>)
    requires SortedByWins(es)
    ensures SortedByWins(r)
    ensures multiset(r) == multiset(es) + multiset{e}
    ensures |r| == |es| + 1 && (r[0] == e || (es != [] && r[0] == es[0]))
  {
    if es == [] || es[0].1 <= e.1 then
      [e] + es
    else
      var tail := Insert(e, es[1..]);
      assert multiset(es) == multiset{es[0]} + multiset(es[1..]) by {
        assert es == [es[0]] + es[1..];
      }
      assert forall k :: 0 <= k < |tail| ==> es[0].1 >= tail[0].1 >= tail[k].1;
      [es[0]] + tail
  }

  lemma {:induction false} InsertDistinct(e: Entry, es: seq<Entry>)
    requires SortedByWins(es) && DistinctTeams(es)
    requires forall k :: 0 <= k < |es| ==> es[k].0 != e.0
    ensures DistinctTeams(Insert(e, es))
  {
    if es != [] && es[0].1 > e.1 {
      InsertDistinct(e, es[1..]);
      var tail := Insert(e, es[1..]);
      forall k | 0 <= k < |tail|
        ensures tail[k].0 != es[0].0
      {
        assert tail[k] in multiset(tail);
        if tail[k] != e {
          assert tail[k] in multiset(es[1..]);
          var j :| 0 <= j < |es[1..]| && es[1..][j] == tail[k];
          assert es[j + 1] == tail[k];
        }
      }
    }
  }

  /** sorted(..., key=wins, reverse=True), as an insertion sort. */
  function SortByWins(es: seq<Entry>): (r: seq<Entry>)
    ensures SortedByWins(r)
    ensures multiset(r) == multiset(es)
    ensures |r| == |es|
  {
    if es == [] then []
    else
      var sortedTail := SortByWins(es[1..]);
      assert multiset(es) == multiset{es[0]} + multiset(es[1..]) by {
        assert es == [es[0]] + es[1..];
      }
      Insert(es[0], sortedTail)
  }

  lemma {:induction false} SortByWinsDistinct(es: seq<Entry>)
    requires DistinctTeams(es)
    ensures DistinctTeams(SortByWins(es))
  {
    if es != [] {
      SortByWinsDistinct(es[1..]);
      var sortedTail := SortByWins(es[1..]);
      forall k | 0 <= k < |sortedTail|
        ensures sortedTail[k].0 != es[0].0
      {
        assert sortedTail[k] in multiset(sortedTail);
        var j :| 0 <= j < |es[1..]| && es[1..][j] == sortedTail[k];
        assert es[1 + j] == sortedTail[k];
      }
      InsertDistinct(es[0], sortedTail);
    }
  }

  /**
   * What show_final_results shows of a list of winners: at most three
   * entries, each a distinct winner with its true number of wins, best first,
   * and every winner left out has no more wins than the third entry.
   */
  ghost predicate IsTopThree(top: seq<Entry>, ws: seq<Option<string>>) {
    |top| <= 3
    && (forall k :: 0 <= k < |top| ==> top[k].0 in ws && top[k].1 == multiset(ws)[top[k].0])
    && DistinctTeams(top)
    && SortedByWins(top)
    && forall x :: x in ws && (forall k :: 0 <= k < |top| ==> top[k].0 != x) ==>
         |top| == 3 && multiset(ws)[x] <= top[2].1
  }

  /** The top three of the tally in iteration order `order`. */
  function FinalResults(ws: seq<Option<string>>, order: seq<Option<string>>): (top: seq<Entry>)
    requires IsEnumeration(order, ws)
    ensures IsTopThree(top, ws)
    ensures |top| == if |order| < 3 then |order| else 3
  {
    var tally := Tally(order, ws);
    var ranked := SortByWins(tally);
    var top := if |ranked| < 3 then ranked else ranked[..3];
    FinalResultsCorrect(ws, order, tally, ranked, top);
    top
  }

  /** Every ranked entry is a winner with its true number of wins. */
  lemma RankedEntries(ws: seq<Option<string>>, order: seq<Option<string>>, ranked: seq<Entry>, k: nat)
    requires IsEnumeration(order, ws)
    requires ranked == SortByWins(Tally(order, ws)) && k < |ranked|
    ensures ranked[k].0 in ws && ranked[k].1 == multiset(ws)[ranked[k].0]
  {
    var tally := Tally(order, ws);
    assert ranked[k] in multiset(tally);
    var i :| 0 <= i < |tally| && tally[i] == ranked[k];
  }

  /** Every winner has its entry somewhere in the ranking. */
  lemma RankedContains(ws: seq<Option<string>>, order: seq<Option<string>>, ranked: seq<Entry>, x: Option<string>)
    returns (p: nat)
    requires IsEnumeration(order, ws)
    requires ranked == SortByWins(Tally(order, ws)) && x in ws
    ensures p < |ranked| && ranked[p].0 == x
  {
    var tally := Tally(order, ws);
    var i :| 0 <= i < |order| && order[i] == x;
    assert tally[i] in multiset(ranked);
    p :| 0 <= p < |ranked| && ranked[p] == tally[i];
  }

  /** A winner missing from the first three has no more wins than the third. */
  lemma LeftOutBounded(ws: seq<Option<string>>, order: seq<Option<string>>, ranked: seq<Entry>, x: Option<string>)
    requires IsEnumeration(order, ws)
    requires ranked == SortByWins(Tally(order, ws)) && x in ws
    requires forall k :: 0 <= k < |ranked| && k < 3 ==> ranked[k].0 != x
    ensures |ranked| >= 3 && multiset(ws)[x] <= ranked[2].1
  {
    var p := RankedContains(ws, order, ranked, x);
    RankedEntries(ws, order, ranked, p);
  }

  /** The first three entries of a sorted list of distinct teams are sorted and distinct. */
  lemma TopSlice(ranked: seq<Entry>, top: seq<Entry>)
    requires SortedByWins(ranked) && DistinctTeams(ranked)
    requires top == if |ranked| < 3 then ranked else ranked[..3]
    ensures SortedByWins(top) && DistinctTeams(top) && |top| <= 3
    ensures |top| == if |ranked| < 3 then |ranked| else 3
    ensures forall k :: 0 <= k < |top| ==> top[k] == ranked[k]
  {
  }

  lemma FinalResultsCorrect(ws: seq<Option<string>>, order: seq<Option<string>>,
                            tally: seq<Entry>, ranked: seq<Entry>, top: seq<Entry>)
    requires IsEnumeration(order, ws)
    requires tally == Tally(order, ws) && ranked == SortByWins(tally)
    requires top == if |ranked| < 3 then ranked else ranked[..3]
    ensures IsTopThree(top, ws)
  {
    assert DistinctTeams(tally);
    SortByWinsDistinct(tally);
    TopSlice(ranked, top);
    forall k | 0 <= k < |top|
      ensures top[k].0 in ws && top[k].1 == multiset(ws)[top[k].0]
    {
      RankedEntries(ws, order, ranked, k);
    }
    forall x | x in ws && (forall k :: 0 <= k < |top| ==> top[k].0 != x)
      ensures |top| == 3 && multiset(ws)[x] <= top[2].1
    {
      LeftOutBounded(ws, order, ranked, x);
    }
  }
}
