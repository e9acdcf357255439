/**
 * Bracket generation: the round-robin schedule and the single-elimination
 * bracket built by MainWidget.generate_round_robin_matches,
 * generate_elimination_matches and create_elimination_round.
 *
 * A bracket is a flat list of pairings.  Position p of that list (0-based) is
 * match number p + 1; a later round refers to the winner of match k through
 * the placeholder name "Победитель матча k".
 */
module Brackets {
  import opened Decimal

  /** A pairing (player1, player2). */
  type Pair = (string, string)

  /** The bye marker used to pad an elimination bracket. */
  const Bye: string := "Бай"

  const PlaceholderPrefix: string := "Победитель матча "

  /** The name standing for the winner of match number k. */
  function Placeholder(k: nat): (s: string)
    ensures IsPlaceholder(s)
  {
    PlaceholderPrefix + NatToString(k)
  }

  /** Whether a name has the shape of a placeholder reference. */
  predicate IsPlaceholder(s: string) {
    |PlaceholderPrefix| <= |s| && s[..|PlaceholderPrefix|] == PlaceholderPrefix
  }

  lemma PlaceholderEquality(a: nat, b: nat)
    ensures Placeholder(a) == Placeholder(b) <==> a == b
  {
    if Placeholder(a) == Placeholder(b) {
      PlaceholderInjective(a, b);
    }
  }

  lemma ByeIsNotPlaceholder()
    ensures !IsPlaceholder(Bye)
  {
  }

  /** Placeholders for different match numbers are different names. */
  lemma PlaceholderInjective(a: nat, b: nat)
    requires Placeholder(a) == Placeholder(b)
    ensures a == b
  {
    assert NatToString(a) == Placeholder(a)[|PlaceholderPrefix|..];
    assert NatToString(b) == Placeholder(b)[|PlaceholderPrefix|..];
    NatToStringInjective(a, b);
  }

  // ---------------------------------------------------------------------------
  // Round robin
  // ---------------------------------------------------------------------------

  /** The pairings of the inner loop for outer index i: (names[i], names[j]) for j = i+1, ..., n-1. */
  function Row(names: seq<string>, i: nat): (r: seq<Pair>)
    requires i < |names|
  {
    seq(|names| - i - 1, k requires 0 <= k < |names| - i - 1 => (names[i], names[i + 1 + k]))
  }

  /** The pairings produced by the first k iterations of the outer loop. */
  function Rows(names: seq<string>, k: nat): seq<Pair>
    requires k <= |names|
  {
    if k == 0 then [] else Rows(names, k - 1) + Row(names, k - 1)
  }

  /** The whole round-robin schedule. */
  function RoundRobin(names: seq<string>): seq<Pair> {
    Rows(names, |names|)
  }

  /** The number of pairings whose first index is below i, for n names. */
  function RowStart(n: nat, i: nat): nat
    requires i <= n
  {
    if i == 0 then 0 else RowStart(n, i - 1) + (n - i)
  }

  /** Position in the schedule of the pairing (names[i], names[j]). */
  function PairIndex(n: nat, i: nat, j: nat): nat
    requires i < j <= n
  {
    RowStart(n, i) + (j - i - 1)
  }

  lemma {:induction false} RowsLength(names: seq<string>, k: nat)
    requires k <= |names|
    ensures |Rows(names, k)| == RowStart(|names|, k)
  {
    if k > 0 {
      RowsLength(names, k - 1);
    }
  }

  lemma {:induction false} RowStartClosedForm(n: nat, i: nat)
    requires i <= n
    ensures 2 * RowStart(n, i) == i * (2 * n - i - 1)
  {
    if i > 0 {
      RowStartClosedForm(n, i - 1);
    }
  }

  lemma {:induction false} RowStartMonotone(n: nat, a: nat, b: nat)
    requires a <= b <= n
    ensures RowStart(n, a) + (if a < b then n - a - 1 else 0) <= RowStart(n, b)
    decreases b - a
  {
    if a < b {
      RowStartMonotone(n, a, b - 1);
    }
  }

  /** n names give exactly n(n-1)/2 pairings. */
  lemma RoundRobinLength(names: seq<string>)
    ensures 2 * |RoundRobin(names)| == |names| * (|names| - 1)
  {
    RowsLength(names, |names|);
    RowStartClosedForm(|names|, |names|);
  }

  lemma {:induction false} RowsAt(names: seq<string>, k: nat, i: nat, j: nat)
    requires i < j < |names| && i < k <= |names|
    ensures PairIndex(|names|, i, j) < |Rows(names, k)|
    ensures Rows(names, k)[PairIndex(|names|, i, j)] == (names[i], names[j])
  {
    RowsLength(names, k);
    RowsLength(names, k - 1);
    if i == k - 1 {
    } else {
      RowsAt(names, k - 1, i, j);
    }
    RowStartMonotone(|names|, i, k - 1);
  }

  /** The pairing of names[i] with names[j], i < j, sits at PairIndex(n, i, j). */
  lemma RoundRobinAt(names: seq<string>, i: nat, j: nat)
    requires i < j < |names|
    ensures PairIndex(|names|, i, j) < |RoundRobin(names)|
    ensures RoundRobin(names)[PairIndex(|names|, i, j)] == (names[i], names[j])
  {
    RowsAt(names, |names|, i, j);
  }

  lemma {:induction false} RowsOnlyPairs(names: seq<string>, k: nat, p: nat)
    requires k <= |names| && p < |Rows(names, k)|
    ensures exists i: nat, j: nat :: i < j < |names| && p == PairIndex(|names|, i, j)
                                     && Rows(names, k)[p] == (names[i], names[j])
  {
    RowsLength(names, k - 1);
    if p < |Rows(names, k - 1)| {
      RowsOnlyPairs(names, k - 1, p);
    } else {
      var i := k - 1;
      var j := k + (p - RowStart(|names|, k - 1));
      assert Rows(names, k)[p] == Row(names, i)[p - RowStart(|names|, i)];
      assert p == PairIndex(|names|, i, j);
    }
  }

  /** Every entry of the schedule is some (names[i], names[j]) with i < j, at PairIndex(n, i, j). */
  lemma RoundRobinOnlyPairs(names: seq<string>, p: nat)
    requires p < |RoundRobin(names)|
    ensures exists i: nat, j: nat :: i < j < |names| && p == PairIndex(|names|, i, j)
                                     && RoundRobin(names)[p] == (names[i], names[j])
  {
    RowsOnlyPairs(names, |names|, p);
  }

  /** Pairings come in order of the first index, then of the second. */
  lemma RoundRobinOrder(n: nat, i: nat, j: nat, i': nat, j': nat)
    requires i < j < n && i' < j' < n
    requires i < i' || (i == i' && j < j')
    ensures PairIndex(n, i, j) < PairIndex(n, i', j')
  {
    if i < i' {
      RowStartMonotone(n, i, i');
    }
  }

  /** A schedule of names that are not placeholders holds no placeholder. */
  lemma RoundRobinNames(names: seq<string>)
    requires forall t :: 0 <= t < |names| ==> !IsPlaceholder(names[t])
    ensures forall p :: 0 <= p < |RoundRobin(names)| ==>
              !IsPlaceholder(RoundRobin(names)[p].0) && !IsPlaceholder(RoundRobin(names)[p].1)
  {
    forall p | 0 <= p < |RoundRobin(names)|
      ensures !IsPlaceholder(RoundRobin(names)[p].0) && !IsPlaceholder(RoundRobin(names)[p].1)
    {
      RoundRobinOnlyPairs(names, p);
    }
  }

  /** generate_round_robin_matches: two nested loops appending (names[i], names[j]). */
  method GenerateRoundRobinMatches(teamNames: seq<string>) returns (matches: seq<Pair>)
    ensures matches == RoundRobin(teamNames)
  {
    var n := |teamNames|;
    matches := [];
    var i := 0;
    while i < n
      invariant 0 <= i <= n
      invariant matches == Rows(teamNames, i)
    {
      var j := i + 1;
      while j < n
        invariant i + 1 <= j <= n
        invariant matches == Rows(teamNames, i) + Row(teamNames, i)[..j - i - 1]
      {
        matches := matches + [(teamNames[i], teamNames[j])];
        j := j + 1;
      }
      assert Row(teamNames, i)[..j - i - 1] == Row(teamNames, i);
      i := i + 1;
    }
  }

  // ---------------------------------------------------------------------------
  // Single elimination
  // ---------------------------------------------------------------------------

  /** 2 ** e. */
  function Pow2(e: nat): (p: nat)
    ensures p >= 1
  {
    if e == 0 then 1 else 2 * Pow2(e - 1)
  }

  /**
   * ceil(log2(n)) for n >= 1: the least e with n <= 2 ** e.  The second
   * ensures says that 2 ** (e - 1) is still too small.
   */
  function CeilLog2(n: nat): (e: nat)
    requires n >= 1
    ensures n <= Pow2(e)
    ensures e == 0 || Pow2(e - 1) < n
    decreases n
  {
    if n == 1 then 0 else 1 + CeilLog2((n + 1) / 2)
  }

  /** No exponent below CeilLog2(n) gives a power of two that is at least n. */
  lemma {:induction false} CeilLog2IsLeast(n: nat, e: nat)
    requires n >= 1 && n <= Pow2(e)
    ensures CeilLog2(n) <= e
    decreases n
  {
    if n > 1 {
      CeilLog2IsLeast((n + 1) / 2, e - 1);
    }
  }

  /** next_power_of_two = 2 ** ceil(log2(n)). */
  function NextPowerOfTwo(n: nat): nat
    requires n >= 1
  {
    Pow2(CeilLog2(n))
  }

  /** The padded size is at least n and less than twice n. */
  lemma NextPowerOfTwoBounds(n: nat)
    requires n >= 1
    ensures n <= NextPowerOfTwo(n) < 2 * n
  {
  }

  /** Consecutive grouping (t[0], t[1]), (t[2], t[3]), ... of a round's teams. */
  function Pairs(teams: seq<string>): (r: seq<Pair>)
    requires |teams| % 2 == 0
    ensures 2 * |r| == |teams|
    decreases |teams|
  {
    if teams == [] then [] else [(teams[0], teams[1])] + Pairs(teams[2..])
  }

  lemma {:induction false} PairsAt(teams: seq<string>, i: nat)
    requires |teams| % 2 == 0 && 2 * i < |teams|
    ensures Pairs(teams)[i] == (teams[2 * i], teams[2 * i + 1])
    decreases |teams|
  {
    if i > 0 {
      PairsAt(teams[2..], i - 1);
    }
  }

  /** Placeholders for match numbers lo, lo+1, ..., lo+count-1. */
  function PlaceholderRange(lo: nat, count: nat): (r: seq<string>)
    ensures |r| == count
  {
    if count == 0 then [] else PlaceholderRange(lo, count - 1) + [Placeholder(lo + count - 1)]
  }

  lemma {:induction false} PlaceholderRangeAt(lo: nat, count: nat, i: nat)
    requires i < count
    ensures PlaceholderRange(lo, count)[i] == Placeholder(lo + i)
  {
    if i < count - 1 {
      PlaceholderRangeAt(lo, count - 1, i);
    }
  }

  /**
   * The pairing at position i of the bracket for P = |teams| teams appended
   * after `base` earlier matches, in closed form: the first P / 2 positions
   * pair consecutive teams; every later position pairs the winners of matches
   * base + 2i - P + 1 and base + 2i - P + 2.
   */
  function BracketMatch(teams: seq<string>, base: nat, i: nat): Pair
    requires i + 1 < |teams|
  {
    if 2 * i + 1 < |teams| then (teams[2 * i], teams[2 * i + 1])
    else (Placeholder(base + 2 * i - |teams| + 1), Placeholder(base + 2 * i - |teams| + 2))
  }

  /** The whole bracket, P - 1 matches, in closed form. */
  function Bracket(teams: seq<string>, base: nat): (r: seq<Pair>)
    requires |teams| >= 1
    ensures |r| == |teams| - 1
  {
    seq(|teams| - 1, i requires 0 <= i < |teams| - 1 => BracketMatch(teams, base, i))
  }

  /** Position j of the winners' bracket is position m + j of the whole one. */
  lemma LaterRoundMatch(teams: seq<string>, base: nat, m: nat, j: nat)
    requires |teams| == 2 * m && j + 1 < m
    ensures BracketMatch(PlaceholderRange(base + 1, m), base + m, j) == BracketMatch(teams, base, m + j)
  {
    if 2 * j + 1 < m {
      PlaceholderRangeAt(base + 1, m, 2 * j);
      PlaceholderRangeAt(base + 1, m, 2 * j + 1);
    }
  }

  /** Position i < m of the joined rounds: a pairing of the first round. */
  lemma FirstRoundAt(teams: seq<string>, base: nat, m: nat, i: nat)
    requires |teams| == 2 * m && i < m
    ensures (Pairs(teams) + Bracket(PlaceholderRange(base + 1, m), base + m))[i] == BracketMatch(teams, base, i)
  {
    PairsAt(teams, i);
  }

  /** Position i >= m of the joined rounds: a match of the winners' bracket. */
  lemma LaterRoundAt(teams: seq<string>, base: nat, m: nat, i: nat)
    requires |teams| == 2 * m && m <= i && i + 1 < |teams|
    ensures (Pairs(teams) + Bracket(PlaceholderRange(base + 1, m), base + m))[i] == BracketMatch(teams, base, i)
  {
    LaterRoundMatch(teams, base, m, i - m);
  }

  lemma BracketStepAt(teams: seq<string>, base: nat, m: nat, i: nat)
    requires |teams| == 2 * m && m >= 1 && i + 1 < |teams|
    ensures (Pairs(teams) + Bracket(PlaceholderRange(base + 1, m), base + m))[i] == BracketMatch(teams, base, i)
  {
    if i < m {
      FirstRoundAt(teams, base, m, i);
    } else {
      LaterRoundAt(teams, base, m, i);
    }
  }

  /**
   * One round followed by the bracket of its winners is the bracket of the
   * round's teams: the step create_elimination_round takes.
   */
  lemma BracketStep(teams: seq<string>, base: nat, m: nat)
    requires |teams| == 2 * m && m >= 1
    ensures Pairs(teams) + Bracket(PlaceholderRange(base + 1, m), base + m) == Bracket(teams, base)
  {
    var joined := Pairs(teams) + Bracket(PlaceholderRange(base + 1, m), base + m);
    forall i | 0 <= i < |teams| - 1
      ensures joined[i] == Bracket(teams, base)[i]
    {
      BracketStepAt(teams, base, m, i);
    }
  }

  /**
   * In a bracket generated from teams that are not placeholder names, player1
   * of match i + 1 refers to the winner of match k exactly when i is past
   * round one and k == 2i - P + 1, and player2 exactly when k == 2i - P + 2.
   * So the winner of each match 1 .. P - 2 fills exactly one later slot, and
   * the winner of the final (match P - 1) fills none.
   */
  lemma EliminationReferences(teams: seq<string>, i: nat, k: nat)
    requires i + 1 < |teams|
    requires forall t :: 0 <= t < |teams| ==> !IsPlaceholder(teams[t])
    ensures Bracket(teams, 0)[i].0 == Placeholder(k) <==> |teams| <= 2 * i + 1 && k == 2 * i - |teams| + 1
    ensures Bracket(teams, 0)[i].1 == Placeholder(k) <==> |teams| <= 2 * i + 1 && k == 2 * i - |teams| + 2
  {
    if 2 * i + 1 < |teams| {
      assert IsPlaceholder(Placeholder(k));
    } else {
      PlaceholderEquality(2 * i - |teams| + 1, k);
      PlaceholderEquality(2 * i - |teams| + 2, k);
    }
  }

  /** No slot of a generated bracket names the winner of the final, match P - 1. */
  lemma FinalNotReferenced(teams: seq<string>, i: nat)
    requires |teams| % 2 == 0 && i + 1 < |teams|
    requires forall t :: 0 <= t < |teams| ==> !IsPlaceholder(teams[t])
    ensures Bracket(teams, 0)[i].0 != Placeholder(|teams| - 1)
    ensures Bracket(teams, 0)[i].1 != Placeholder(|teams| - 1)
  {
    EliminationReferences(teams, i, |teams| - 1);
  }

  /**
   * The winner of every match k other than the final fills exactly one slot
   * of the bracket, one of match i + 1, which comes after match k.
   */
  lemma FedOnce(teams: seq<string>, k: nat) returns (i: nat)
    requires |teams| % 2 == 0 && 1 <= k && k + 1 < |teams|
    requires forall t :: 0 <= t < |teams| ==> !IsPlaceholder(teams[t])
    ensures k < i + 1 < |teams|
    ensures (Bracket(teams, 0)[i].0 == Placeholder(k)) != (Bracket(teams, 0)[i].1 == Placeholder(k))
    ensures forall i' :: 0 <= i' < |teams| - 1 && (Bracket(teams, 0)[i'].0 == Placeholder(k) || Bracket(teams, 0)[i'].1 == Placeholder(k))
              ==> i' == i
  {
    i := (|teams| + k - 1) / 2;
    EliminationReferences(teams, i, k);
    forall i' | 0 <= i' < |teams| - 1
      ensures Bracket(teams, 0)[i'].0 == Placeholder(k) || Bracket(teams, 0)[i'].1 == Placeholder(k) ==> i' == i
    {
      EliminationReferences(teams, i', k);
    }
  }

  /**
   * create_elimination_round: appends this round's pairings, then recurses on
   * the winners' placeholders.  The ghost exponent e is log2 of the round size.
   */
  method CreateEliminationRound(teams: seq<string>, matches: seq<Pair>, ghost e: nat) returns (extended: seq<Pair>)
    requires |teams| == Pow2(e)
    ensures extended == matches + Bracket(teams, |matches|)
    decreases e
  {
    if |teams| == 1 {
      return matches;
    }
    var roundMatches := Pairs(teams);
    extended := matches + roundMatches;
    var winners := PlaceholderRange(|extended| - |roundMatches| + 1, |roundMatches|);
    BracketStep(teams, |matches|, |roundMatches|);
    assert matches + roundMatches + Bracket(winners, |extended|) == matches + Bracket(teams, |matches|);
    extended := CreateEliminationRound(winners, extended, e - 1);
  }

  /** The outcome of generate_elimination_matches. */
  datatype Elimination =
    | Generated(teams: seq<string>, matches: seq<Pair>)  // the padded team list and the bracket
    | MathDomainError                                    // math.log2(0) raises for an empty team list

  /**
   * The team list after the padding loop of generate_elimination_matches: the
   * names, unchanged, then byes up to the next power of two.
   */
  function PaddedTeams(teamNames: seq<string>): (teams: seq<string>)
    requires |teamNames| >= 1
    ensures |teams| == NextPowerOfTwo(|teamNames|)
    ensures teams[..|teamNames|] == teamNames
    ensures forall i :: |teamNames| <= i < |teams| ==> teams[i] == Bye
  {
    teamNames + seq(NextPowerOfTwo(|teamNames|) - |teamNames|, _ => Bye)
  }

  /** A padded list has one team or an even number of them. */
  lemma PaddedTeamsSize(teamNames: seq<string>)
    requires |teamNames| >= 1
    ensures |PaddedTeams(teamNames)| == 1 || (|PaddedTeams(teamNames)| >= 2 && |PaddedTeams(teamNames)| % 2 == 0)
  {
    var e := CeilLog2(|teamNames|);
    if e > 0 {
      assert Pow2(e) == 2 * Pow2(e - 1);
    }
  }

  /** generate_elimination_matches: pad with byes to a power of two, then build every round. */
  method GenerateEliminationMatches(teamNames: seq<string>) returns (r: Elimination)
    ensures r.MathDomainError? <==> teamNames == []
    ensures r.Generated? ==> r.teams == PaddedTeams(teamNames)
    ensures r.Generated? ==> r.matches == Bracket(r.teams, 0)
  {
    if teamNames == [] {
      return MathDomainError;
    }
    var nextPowerOfTwo := NextPowerOfTwo(|teamNames|);
    var teams := teamNames;
    while |teams| < nextPowerOfTwo
      invariant |teamNames| <= |teams| <= nextPowerOfTwo
      invariant teams[..|teamNames|] == teamNames
      invariant forall i :: |teamNames| <= i < |teams| ==> teams[i] == Bye
    {
      teams := teams + [Bye];
    }
    assert teams == PaddedTeams(teamNames);
    var matches := CreateEliminationRound(teams, [], CeilLog2(|teamNames|));
    r := Generated(teams, matches);
  }
}
