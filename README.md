# ScoreBoard-PyQt6 tournament kernel in Dafny

ScoreBoard-PyQt6 is a desktop tool for running a small tournament. Its main
window (`MainWidget`) generates the matches: either a round-robin schedule or a
single-elimination bracket padded with byes ("Бай"). Later rounds of the
bracket refer to earlier matches by placeholder names such as
"Победитель матча 3". The window stores the matches in a table and plays them
in order. A pairing with a bye is decided at once; any other pairing opens a
scoreboard window (`MyWidget`). When the scoreboard reports a winner, the
table is updated and every slot naming that match is filled in. At the end the
three teams with the most wins are shown.

The scoreboard has a clock that counts down from 03:00 and then counts up in
overtime, a whistle that marks the start of overtime, a pause button, and two
score buttons. A match ends when three points have been scored in all.

The model has six modules:

- `Decimal`: `str(n)` and `int(text)` on non-negative integers, with
  int(str(n)) == n proved. Placeholder names and score labels are built from
  them.
- `Brackets`: the round-robin schedule, the padding to a power of two, and the
  elimination bracket. The bracket is given in closed form and proved equal to
  what the recursive round builder produces.
- `MatchStore`: the match record, the update `record_winner` makes, the search
  for the first undecided match, the bye decision, and the "placeholder
  discipline" invariant. The discipline says that every placeholder names an
  earlier match that has no winner yet.
- `Results`: the tally, sort and top three of `show_final_results`.
- `Tournament`: class `MainWidget`, holding the table and the counter
  `current_match_index`. Its methods are `generate_matches` and the mutually
  recursive `record_winner` / `start_next_match`.
- `Scoreboard`: class `Board`, holding the scoreboard's fields. Each handler
  is specified by a pure transition function on a `Panel` value, and the
  lemmas are about those functions.

Assumptions the model makes:

- The database row at list position p has id p + 1. `generate_matches`
  deletes every row and then inserts the new rows in list order. In SQLite an
  `INTEGER PRIMARY KEY` of an emptied table starts again at 1. The
  placeholders use list positions, and `record_winner` matches on ids, so the
  two agree only under this assumption.
- Rows are read back in insertion order.
- Team names do not start with "Победитель матча ". The lemmas about the
  placeholder discipline take this as a precondition; a team so named would be
  mistaken for a reference.
- The scoreboard's score buttons start with the text "0". The generated UI
  code that sets them is not part of this model.

Where the code and its description disagree, the model follows the code:

- `make_pause` keeps the clock only when `pauseTF` was false before the
  press. When `pauseTF` was true (right after a reset, after overtime begins,
  or in a fresh window before its first tick), the press acts as one running
  tick. During the countdown `pauseTF` is set only while the clock shows
  03:00, so the press moves it to 02:59 and never starts overtime; in overtime
  the clock gains a second (`Scoreboard.PauseWhilePending`).
- Because `pauseTF` starts true, the first timeout of a fresh window stops the
  timer and leaves 03:00 on the clock. In the same way, the first timeout after
  overtime begins stops the timer (`Scoreboard.PausedTick`).
- The `else` branch of `start_next_match` cannot be reached. When every match
  has a winner, `get_current_match_index` returns None, and `None < len(...)`
  raises TypeError. The model returns `NoUndecidedMatch` there.
- `current_match_index` is never reset, not even by `generate_matches`.
- `show_final_results` counts the winner None of an undecided match like a
  team. The order among teams with equal counts follows the iteration order of
  a Python set, which is unspecified. The model takes that order as a
  parameter, and `ShowFinalResults` picks it arbitrarily.

## Model

| member | source | states |
|---|---|---|
| `Decimal.NatToString` | main.py:195 | str(n) is a non-empty string of decimal digits with no leading zero (so at least two digits once n >= 10) |
| `Decimal.ParseNatToString` | main.py:309 | int(str(n)) == n: reading a score label back gives the score |
| `Decimal.NatToStringInjective` | main.py:195 | different numbers print differently |
| `Brackets.Placeholder` | main.py:195 | the name for the winner of match k has the placeholder prefix |
| `Brackets.PlaceholderEquality` | main.py:195-208 | two placeholder names are equal exactly when their match numbers are |
| `Brackets.PlaceholderInjective` | main.py:195-208 | equal placeholder names come from the same match number |
| `Brackets.ByeIsNotPlaceholder` | main.py:179 | the bye marker is not a reference to a match |
| `Brackets.GenerateRoundRobinMatches` | main.py:166-172 | the nested loops build exactly the round-robin schedule |
| `Brackets.RoundRobinLength` | main.py:166-172 | n names give n(n-1)/2 pairings |
| `Brackets.RoundRobinAt` | main.py:166-172 | every pair (names[i], names[j]) with i < j occurs, at position PairIndex(n, i, j) |
| `Brackets.RoundRobinOnlyPairs` | main.py:166-172 | every entry of the schedule is such a pair i < j, at its PairIndex |
| `Brackets.RoundRobinOrder` | main.py:168-171 | pairings are ordered by the first index, then by the second |
| `Brackets.RoundRobinNames` | main.py:166-172 | a schedule of real names holds no placeholder |
| `Brackets.Pow2` | main.py:177 | every power of two is at least 1 |
| `Brackets.CeilLog2` | main.py:177 | ceil(log2(n)): n <= 2^e, and 2^(e-1) < n when e > 0 |
| `Brackets.CeilLog2IsLeast` | main.py:177 | no smaller exponent gives a power of two that is at least n |
| `Brackets.NextPowerOfTwoBounds` | main.py:177 | the padded size lies between n and 2n - 1 |
| `Brackets.PaddedTeams` | main.py:178-179 | the padded list has the next power of two as its length, keeps the names as an unchanged prefix, and is "Бай" after them |
| `Brackets.PaddedTeamsSize` | main.py:177-179 | a padded list has one team or an even number of them |
| `Brackets.Pairs` | main.py:191 | a round of 2m teams gives m pairings |
| `Brackets.PairsAt` | main.py:191 | pairing i of a round is (t[2i], t[2i+1]) |
| `Brackets.PlaceholderRange` | main.py:195 | the winners' list of a round has one name per match |
| `Brackets.PlaceholderRangeAt` | main.py:195 | entry i of the winners' list names match lo + i |
| `Brackets.Bracket` | main.py:185-198 | a bracket of P teams has P - 1 matches |
| `Brackets.BracketStep` | main.py:189-198 | one round followed by the bracket of its winners is the bracket of the round's teams |
| `Brackets.EliminationReferences` | main.py:191-198 | slot one of match i + 1 names match k exactly when i is past round one and k = 2i - P + 1; slot two exactly when k = 2i - P + 2 |
| `Brackets.FedOnce` | main.py:191-198 | the winner of each match k before the final fills exactly one slot, in a later match |
| `Brackets.FinalNotReferenced` | main.py:191-198 | no slot names the final |
| `Brackets.CreateEliminationRound` | main.py:185-198 | the recursion appends exactly the closed-form bracket of the teams to the matches so far |
| `Brackets.GenerateEliminationMatches` | main.py:174-183 | an empty list is a math domain error; otherwise the names are padded with byes and the result is the bracket of the padded list (none for one team) |
| `MatchStore.FromPairs` | main.py:158-161 | one row per pairing, in order |
| `MatchStore.RecordedAt` | main.py:200-210 | row i gets the winner; exactly the slots equal to the placeholder of match i + 1 become the winner; every other slot, winner and system is unchanged |
| `MatchStore.RecordedIdempotent` | main.py:200-210 | recording the same winner for the same match twice leaves the table as after once |
| `MatchStore.RecordedClearsReferences` | main.py:204-210 | afterwards no slot names the decided match, unless the winner is that name itself |
| `MatchStore.RecordedFilled` | main.py:200-210 | recording a real name changes a slot only where it named the match, and then to the winner |
| `MatchStore.FilledFromTrans` | main.py:200-221 | slots filled in by successive record_winner calls are filled in once: a filled slot holds a real name, which no later pass replaces |
| `MatchStore.FilledKeepsName` | main.py:204-210 | a slot holding a real name is never filled in |
| `MatchStore.RecordedUndecided` | main.py:200-210 | recording decides row i and no other |
| `MatchStore.FirstUndecided` | main.py:246-249 | the first row without a winner, or None exactly when every row has one |
| `MatchStore.GetCurrentMatchIndex` | main.py:246-249 | the loop returns the first undecided row |
| `MatchStore.ByeDecision` | main.py:116-122 | (Бай, Бай) gives Бай, (X, Бай) and (Бай, X) give X, and only a pairing without a bye is played |
| `MatchStore.RecordedKeepsDiscipline` | main.py:200-210 | recording a real name keeps every placeholder pointing at an earlier undecided match |
| `MatchStore.FirstUndecidedHasNames` | main.py:113-116 | under the discipline the first undecided match holds two real names |
| `MatchStore.NamesKeepDiscipline` | main.py:158-161 | rows of real names with no winners keep the discipline |
| `MatchStore.BracketKeepsDiscipline` | main.py:185-198 | a fresh elimination bracket keeps the discipline |
| `MatchStore.PaddedBracketKeepsDiscipline` | main.py:174-183 | so does the padded bracket generate_matches stores |
| `MatchStore.ScheduleKeepsDiscipline` | main.py:166-172 | so does a round-robin schedule of real names |
| `Results.Winners` | main.py:224 | the winners list holds exactly the winners of the rows other than Бай, None included |
| `Results.WinnersCount` | main.py:224-225 | each winner other than Бай occurs in the winners list once per row it won |
| `Results.Tally` | main.py:225 | one entry per distinct winner |
| `Results.Insert` | main.py:226 | inserting into a list sorted by wins keeps it sorted and adds exactly the entry |
| `Results.InsertDistinct` | main.py:225-226 | inserting a new team keeps the teams distinct |
| `Results.SortByWins` | main.py:226 | sorted by wins, largest first, and a permutation of the tally |
| `Results.SortByWinsDistinct` | main.py:225-226 | sorting keeps the teams distinct |
| `Results.FinalResults` | main.py:223-229 | at most three entries, min(3, number of winners) of them, each a distinct winner with its true count, best first, and no winner left out has more wins than the third |
| `Results.FinalResultsCorrect` | main.py:223-229 | the ranking meets that description |
| `Results.RankedEntries` | main.py:225-226 | every ranked entry is a winner with its true count |
| `Results.RankedContains` | main.py:225-226 | every winner has an entry in the ranking |
| `Results.LeftOutBounded` | main.py:226-228 | a winner missing from the top three has no more wins than the third |
| `Tournament.MainWidget.constructor` | main.py:59-110 | the widget starts with the saved table and the counter at 0 |
| `Tournament.MainWidget.GenerateMatches` | main.py:142-164 | the table is replaced by the schedule or the padded bracket with no winners; an empty elimination list leaves it empty with an error; real names give the discipline |
| `Tournament.MainWidget.InsertRows` | main.py:158-161 | the loop appends one row per pairing |
| `Tournament.MainWidget.SetWinner` | main.py:200-210 | the loop leaves the table as Recorded describes: only row i gains a winner, no system field changes, one row fewer is undecided when row i was, and a real winner keeps the discipline and only fills in slots |
| `Tournament.MainWidget.RecordWinner` | main.py:200-221 | the winner is set and kept; the counter grows by one per recorded match; the discipline is kept; every slot is unchanged or holds the winner of the match it named; every other row decided along the way got its bye decision and was the first undecided row when it was decided; no row's system changes; the results are shown exactly when the counter reaches the number of rows, and then the counter stands at its old value plus one if that already reached the number of rows, and at the number of rows otherwise; an opened scoreboard is for the first undecided match |
| `Tournament.MainWidget.Advance` | main.py:216-221 | the counter goes up by one; rows are decided only in order, each with its bye decision, filling slots and keeping the discipline and the system fields; the next match starts while it is below the number of rows, and the results are shown exactly when it is not; once the counter reaches the number of rows the table is left as it was and the results are shown at once, and the chain stops with the counter at the number of rows or at its old value plus one |
| `Tournament.MainWidget.StartNextMatch` | main.py:111-132 | byes are decided on the spot, each row it decides getting exactly its bye decision, and only once every row before it is decided; no row's system changes; slots are only filled in with winners; a scoreboard opens for the first undecided match, which has no bye and, under the discipline, no placeholder; when none is undecided the comparison raises; when it decides a bye and the counter ends at or past the number of rows the chain ends with the results, the counter then standing at its old value plus one if that was already at or past the number of rows, and at the number of rows otherwise |
| `Tournament.MainWidget.ShowFinalResults` | main.py:223-229 | the top three of the table's winners, for some iteration order of the set |
| `Scoreboard.AddSecs` | main.py:323-327 | QTime.addSecs stays within a day |
| `Scoreboard.ScoreWinner` | main.py:309-315 | a winner exactly when three points have been scored in all, and it is the side with more points, never a draw |
| `Scoreboard.FreshValid` | main.py:260-280 | a fresh window starts in a valid state, including the 03:00 that goes with a set pauseTF |
| `Scoreboard.EventsKeepValid` | main.py:301-366 | timeouts, pause presses, resets and points keep the clock and flag invariants |
| `Scoreboard.FirstTickStops` | main.py:331-336 | pauseTF starts set (main.py:265) and the timer is started (main.py:279-280), so the first timeout hands over to timerTF, which stops the timer and leaves 03:00 |
| `Scoreboard.CountdownTick` | main.py:330-338 | a running countdown tick takes one second off, and at 00:00 starts overtime with one whistle |
| `Scoreboard.OvertimeTick` | main.py:323-329 | a running overtime tick adds one second |
| `Scoreboard.PausedTick` | main.py:326-336 | a timeout while pauseTF is set stops the timer and leaves the clock where it was |
| `Scoreboard.PauseKeepsClock` | main.py:340-360 | a press while pauseTF is clear keeps the clock and starts a stopped timer or stops a running one |
| `Scoreboard.PauseWhilePending` | main.py:340-346 | a press while pauseTF is set acts as one running tick: 03:00 becomes 02:59 in the countdown, which never reaches overtime that way, and overtime gains a second |
| `Scoreboard.ResetRestores` | main.py:362-366 | all_reset restores 03:00 and the flags, keeps scores and timer, and is idempotent |
| `Scoreboard.ScoredCounts` | main.py:301-308 | one score goes up by one and the indicator shows the next point's number |
| `Scoreboard.CountdownRuns` | main.py:321-338 | n < c running ticks from c seconds leave c - n seconds and no whistle |
| `Scoreboard.CountdownReachesOvertime` | main.py:321-338 | c running ticks from c seconds reach overtime at 00:00 with one whistle |
| `Scoreboard.OvertimeRuns` | main.py:323-329 | n running overtime ticks add n seconds, wrapping at midnight |
| `Scoreboard.Board.constructor` | main.py:260-280 | 03:00, pauseTF set, ft and dt clear, scores 0, indicator 1, timer started |
| `Scoreboard.Board.TimerTF` | main.py:348-360 | the timer is started when ft was set and stopped otherwise; one second is added unless ed; both flags flip |
| `Scoreboard.Board.DopTime` | main.py:395-432 | overtime begins with one whistle, pauseTF set and ft cleared |
| `Scoreboard.Board.UpdateTime` | main.py:321-338 | one second up in overtime, one down in the countdown, with the hand-offs to timerTF and dop_time |
| `Scoreboard.Board.Tick` | main.py:279-280 | a timeout runs update_time only while the timer is started, and keeps the window valid |
| `Scoreboard.Board.MakePause` | main.py:340-346 | pauseTF flips, then update_time runs |
| `Scoreboard.Board.AllReset` | main.py:362-366 | the clock and flags of a new period, keeping the window valid (also the restart button) |
| `Scoreboard.Board.AddPoint` | main.py:302-308 | the point, the button text showing the new score, and the indicator |
| `Scoreboard.Board.TeamAdd` | main.py:301-319 | the point followed by all_reset; the labels keep showing the scores; the winner is reported exactly when three points have been scored |

## Left out

- The Qt user interface: widgets, layouts, style sheets, icons,
  `load_matches_from_db`, `update_table` and the window title. None of them
  affects the state the model tracks.
- `play_audio` and the media player. Audio output is replaced by the whistle
  counter of the scoreboard.
- The SQLAlchemy engine, session, `commit` and `delete`. The table is an
  in-memory sequence, with the id assumption stated above.
- QTimer's real-time scheduling. A timeout is the method `Tick`, which has
  effect only while the timer is started.
- The signal `match_finished` and `close()`. `TeamAdd` returns the winner it
  would emit. `StartNextMatch` returns the opened scoreboard, and the caller
  passes the scoreboard's winner to `RecordWinner`.
- `math.log2` and `math.ceil` on floats. They are replaced by the exact integer
  `CeilLog2`, which gives the same padded size for the team counts the slider
  allows (2 to 20).
- The unrecognised-system path of `generate_matches`, which leaves `matches`
  unbound. The selector offers only the two systems.
- The `__main__` entry point.
- `Brackets.CreateEliminationRound`: the recursion returns the extended list
  instead of extending a shared list in place. `Brackets.GenerateEliminationMatches`
  pads a copy and returns it with the bracket instead of appending to the
  caller's list.
- `Tournament.MainWidget.ShowFinalResults` returns the top three entries rather
  than rendering the "N место" label text.
- `Scoreboard.Board.TeamAdd` keeps team names as constant fields of the board.
  It does not model reading them back from the name widgets, where a user
  could edit them.
