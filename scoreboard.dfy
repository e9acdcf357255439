/**
 * The scoreboard window (MyWidget): a clock shown as mm:ss that counts down
 * from 03:00, an overtime that counts up, a pause button, two score buttons
 * and a match indicator.
 *
 * The state of the window is a Panel.  Each handler is specified by a pure
 * function from the old panel to the new one, and the lemmas below are about
 * those functions.  The clock is a time of day in seconds, as QTime keeps it:
 * QTime.addSecs wraps around modulo 86400 seconds.  QTimer is a flag that
 * says whether the one-second timeout fires; the whistle of dop_time is a
 * counter.
 */
module Scoreboard {
  import opened Wrappers
  import opened Decimal

  const SecondsPerDay: nat := 86400

  /** 03:00, the length of a period. */
  const PeriodSeconds: nat := 180

  const Draw: string := "Ничья"

  /**
   * The state the handlers change.  overtime is dt, startFlag is ft and
   * pauseFlag is pauseTF; timerActive says whether the QTimer is started.
   */
  datatype Panel = Panel(
    clock: nat,
    overtime: bool,
    startFlag: bool,
    pauseFlag: bool,
    timerActive: bool,
    score1: nat,
    score2: nat,
    indicator: nat,
    whistles: nat)

  /** QTime.addSecs: a time of day moved by d seconds, wrapping around midnight. */
  function AddSecs(clock: nat, d: int): (r: nat)
    ensures r < SecondsPerDay
  {
    (clock + d) % SecondsPerDay
  }

  /** The panel of a freshly opened window: 03:00, pauseTF set, timer started. */
  function Fresh(): Panel {
    Panel(PeriodSeconds, false, false, true, true, 0, 0, 1, 0)
  }

  /** timerTF(ed): start the timer if ft, else stop it; add one second unless ed; flip both flags. */
  function TimerToggled(p: Panel, ed: bool): Panel {
    p.(timerActive := p.startFlag,
       clock := AddSecs(p.clock, if ed then 0 else 1),
       pauseFlag := !p.pauseFlag,
       startFlag := !p.startFlag)
  }

  /** dop_time: overtime starts, the whistle blows, pauseTF is set and ft cleared. */
  function OvertimeStarted(p: Panel): Panel {
    p.(overtime := true, whistles := p.whistles + 1, pauseFlag := true, startFlag := false)
  }

  /** update_time: one second up in overtime, one second down otherwise. */
  function Updated(p: Panel): Panel {
    if p.overtime then
      if p.pauseFlag then TimerToggled(p, true) else p.(clock := AddSecs(p.clock, 1))
    else
      var q := p.(clock := AddSecs(p.clock, -1));
      if q.pauseFlag then TimerToggled(q, false)
      else if q.clock == 0 then OvertimeStarted(q)
      else q
  }

  /** The QTimer timeout: update_time, but only while the timer is started. */
  function Ticked(p: Panel): Panel {
    if p.timerActive then Updated(p) else p
  }

  /** make_pause: flip pauseTF, then update_time. */
  function Paused(p: Panel): Panel {
    Updated(p.(pauseFlag := !p.pauseFlag))
  }

  /** all_reset: back to 03:00 with the flags of a new period; scores and timer are kept. */
  function Reset(p: Panel): Panel {
    p.(clock := PeriodSeconds, pauseFlag := true, startFlag := false, overtime := false)
  }

  /**
   * The winner team_add reports: there is one exactly when three points have
   * been scored in all, and it is the side with more points, since three is
   * odd and the draw branch is never taken.
   */
  function ScoreWinner(score1: nat, score2: nat, name1: string, name2: string): (r: Option<string>)
    ensures r.Some? <==> score1 + score2 == 3
    ensures r.Some? ==> r.value == if score1 > score2 then name1 else name2
  {
    if score1 + score2 == 3 then
      Some(if score1 > score2 then name1 else if score1 < score2 then name2 else Draw)
    else None
  }

  /** The first half of team_add: one point for one side, and the indicator shows the next point's number. */
  function Point(p: Panel, isTeam1: bool): Panel {
    var q := if isTeam1 then p.(score1 := p.score1 + 1) else p.(score2 := p.score2 + 1);
    q.(indicator := q.score1 + q.score2 + 1)
  }

  /** team_add: the point, then all_reset. */
  function Scored(p: Panel, isTeam1: bool): Panel {
    Reset(Point(p, isTeam1))
  }

  /**
   * The states the handlers keep: a clock within a day; during the countdown
   * the clock is between 00:01 and 03:00, and at 03:00 whenever pauseTF is
   * set; pauseTF and ft are never both set between events; and when ft is
   * set the timer is stopped.
   */
  predicate PanelValid(p: Panel) {
    p.clock < SecondsPerDay
    && (!p.overtime ==> 1 <= p.clock <= PeriodSeconds)
    && (!p.overtime && p.pauseFlag ==> p.clock == PeriodSeconds)
    && !(p.pauseFlag && p.startFlag)
    && (p.startFlag ==> !p.timerActive)
  }

  // ---------------------------------------------------------------------------
  // Properties of the handlers
  // ---------------------------------------------------------------------------

  lemma FreshValid()
    ensures PanelValid(Fresh())
  {
  }

  /** Every event keeps the panel in a valid state. */
  lemma EventsKeepValid(p: Panel, isTeam1: bool)
    requires PanelValid(p)
    ensures PanelValid(Ticked(p))
    ensures PanelValid(Paused(p))
    ensures PanelValid(Reset(p))
    ensures PanelValid(Scored(p, isTeam1))
  {
  }

  /**
   * The first tick of a fresh window stops the timer and leaves 03:00 on the
   * clock: pauseTF starts set, so update_time hands over to timerTF.
   */
  lemma FirstTickStops()
    ensures Ticked(Fresh()) == Fresh().(timerActive := false, pauseFlag := false, startFlag := true)
  {
  }

  /** A running countdown tick takes exactly one second off, and at 00:00 starts overtime. */
  lemma CountdownTick(p: Panel)
    requires PanelValid(p) && p.timerActive && !p.overtime && !p.pauseFlag
    ensures p.clock > 1 ==> Ticked(p) == p.(clock := p.clock - 1)
    ensures p.clock == 1 ==> Ticked(p) == OvertimeStarted(p.(clock := 0))
  {
  }

  /** A running overtime tick adds one second. */
  lemma OvertimeTick(p: Panel)
    requires p.timerActive && p.overtime && !p.pauseFlag
    ensures Ticked(p) == p.(clock := (p.clock + 1) % SecondsPerDay)
  {
  }

  /**
   * A tick while pauseTF is set leaves the clock where it was and stops the
   * timer (ft is clear in a valid panel), as the first tick of every period
   * and of overtime does.
   */
  lemma PausedTick(p: Panel)
    requires PanelValid(p) && p.timerActive && p.pauseFlag
    ensures Ticked(p) == p.(timerActive := false, pauseFlag := false, startFlag := true)
  {
  }

  /**
   * Pressing pause while pauseTF is clear never moves the clock: it stops a
   * running timer or starts a stopped one (via timerTF and ft).
   */
  lemma PauseKeepsClock(p: Panel)
    requires PanelValid(p) && !p.pauseFlag
    ensures Paused(p).clock == p.clock
    ensures Paused(p) == p.(timerActive := p.startFlag, startFlag := !p.startFlag)
  {
  }

  /**
   * Pressing pause while pauseTF is set acts like a tick of a running clock.
   * During the countdown pauseTF is set only at 03:00, so the clock goes to
   * 02:59 and overtime never starts; in overtime the clock gains a second.
   */
  lemma PauseWhilePending(p: Panel)
    requires PanelValid(p) && p.pauseFlag
    ensures Paused(p) == Ticked(p.(pauseFlag := false, timerActive := true)).(timerActive := p.timerActive)
    ensures !p.overtime ==> !Paused(p).overtime && Paused(p).clock == PeriodSeconds - 1
    ensures p.overtime ==> Paused(p).overtime && Paused(p).clock == AddSecs(p.clock, 1)
  {
  }

  /** all_reset restores 03:00 and the flags and touches neither the scores nor the timer. */
  lemma ResetRestores(p: Panel)
    ensures Reset(p).clock == PeriodSeconds && Reset(p).pauseFlag && !Reset(p).startFlag && !Reset(p).overtime
    ensures Reset(p).score1 == p.score1 && Reset(p).score2 == p.score2
    ensures Reset(p).timerActive == p.timerActive && Reset(p) == Reset(Reset(p))
  {
  }

  /** team_add raises exactly one score by one and the indicator to the next point. */
  lemma ScoredCounts(p: Panel, isTeam1: bool)
    ensures Scored(p, isTeam1).score1 == p.score1 + (if isTeam1 then 1 else 0)
    ensures Scored(p, isTeam1).score2 == p.score2 + (if isTeam1 then 0 else 1)
    ensures Scored(p, isTeam1).indicator == p.score1 + p.score2 + 2
    ensures Scored(p, isTeam1).whistles == p.whistles
  {
  }

  /** n timeouts in a row. */
  function Ticks(p: Panel, n: nat): Panel
    decreases n
  {
    if n == 0 then p else Ticks(Ticked(p), n - 1)
  }

  /**
   * A running countdown with c seconds left reaches overtime after exactly c
   * ticks, at 00:00, with one whistle.
   */
  lemma {:induction false} CountdownReachesOvertime(p: Panel)
    requires PanelValid(p) && p.timerActive && !p.overtime && !p.pauseFlag
    ensures Ticks(p, p.clock) == OvertimeStarted(p.(clock := 0))
    decreases p.clock
  {
    CountdownTick(p);
    if p.clock > 1 {
      CountdownReachesOvertime(Ticked(p));
    }
  }

  lemma AddDaysMod(a: int, k: int)
    ensures (a - SecondsPerDay * k) % SecondsPerDay == a % SecondsPerDay
  {
  }

  /** Running overtime ticks count up one second each, wrapping around at midnight. */
  lemma {:induction false} OvertimeRuns(p: Panel, n: nat)
    requires p.timerActive && p.overtime && !p.pauseFlag && p.clock < SecondsPerDay
    ensures Ticks(p, n) == p.(clock := (p.clock + n) % SecondsPerDay)
    decreases n
  {
    if n > 0 {
      OvertimeTick(p);
      var q := Ticked(p);
      OvertimeRuns(q, n - 1);
      var a := p.clock + n;
      assert q.clock + (n - 1) == a - SecondsPerDay * ((p.clock + 1) / SecondsPerDay);
      AddDaysMod(a, (p.clock + 1) / SecondsPerDay);
    }
  }

  /** The ticks before the last leave the countdown running without a whistle. */
  lemma {:induction false} CountdownRuns(p: Panel, n: nat)
    requires PanelValid(p) && p.timerActive && !p.overtime && !p.pauseFlag && n < p.clock
    ensures Ticks(p, n) == p.(clock := p.clock - n)
    decreases n
  {
    if n > 0 {
      CountdownTick(p);
      CountdownRuns(Ticked(p), n - 1);
    }
  }

  // ---------------------------------------------------------------------------
  // The window
  // ---------------------------------------------------------------------------

  class Board {
    var clock: nat
    var overtime: bool
    var startFlag: bool
    var pauseFlag: bool
    var timerActive: bool
    var score1: nat
    var score2: nat
    var indicator: nat
    var whistles: nat
    /** The texts of the two score buttons, which team_add reads back with int(). */
    var label1: string
    var label2: string
    const name1: string
    const name2: string

    function State(): Panel
      reads this
    {
      Panel(clock, overtime, startFlag, pauseFlag, timerActive, score1, score2, indicator, whistles)
    }

    /** The score buttons show the scores. */
    ghost predicate Valid()
      reads this
    {
      PanelValid(State()) && label1 == NatToString(score1) && label2 == NatToString(score2)
    }

    constructor (nameTeam1: string, nameTeam2: string)
      ensures Valid() && State() == Fresh()
      ensures name1 == nameTeam1 && name2 == nameTeam2
    {
      overtime, startFlag, pauseFlag := false, false, true;
      score1, score2 := 0, 0;
      label1, label2 := "0", "0";
      indicator := 1;
      clock := PeriodSeconds;
      name1, name2 := nameTeam1, nameTeam2;
      timerActive := true;
      whistles := 0;
    }

    method TimerTF(ed: bool)
      modifies this
      ensures State() == TimerToggled(old(State()), ed)
      ensures label1 == old(label1) && label2 == old(label2)
    {
      timerActive := startFlag;
      clock := AddSecs(clock, if ed then 0 else 1);
      pauseFlag := !pauseFlag;
      startFlag := !startFlag;
    }

    method DopTime()
      modifies this
      ensures State() == OvertimeStarted(old(State()))
      ensures label1 == old(label1) && label2 == old(label2)
    {
      overtime := true;
      whistles := whistles + 1;
      pauseFlag := true;
      startFlag := false;
    }

    method UpdateTime()
      modifies this
      ensures State() == Updated(old(State()))
      ensures label1 == old(label1) && label2 == old(label2)
    {
      if overtime {
        if pauseFlag {
          TimerTF(true);
        } else {
          clock := AddSecs(clock, 1);
        }
      } else {
        clock := AddSecs(clock, -1);
        if pauseFlag {
          TimerTF(false);
        } else if clock == 0 {
          DopTime();
        }
      }
    }

    /** The QTimer timeout, which arrives only while the timer is started. */
    method Tick()
      requires Valid()
      modifies this
      ensures Valid() && State() == Ticked(old(State()))
    {
      if timerActive {
        UpdateTime();
      }
      EventsKeepValid(old(State()), true);
    }

    method MakePause()
      requires Valid()
      modifies this
      ensures Valid() && State() == Paused(old(State()))
    {
      pauseFlag := !pauseFlag;
      UpdateTime();
      EventsKeepValid(old(State()), true);
    }

    /** all_reset, also the handler of the restart button. */
    method AllReset()
      requires Valid()
      modifies this
      ensures Valid() && State() == Reset(old(State()))
      ensures label1 == old(label1) && label2 == old(label2)
    {
      clock := PeriodSeconds;
      pauseFlag := true;
      startFlag := false;
      overtime := false;
      EventsKeepValid(old(State()), true);
    }

    /** The point and its button text. */
    method AddPoint(isTeam1: bool)
      requires label1 == NatToString(score1) && label2 == NatToString(score2)
      modifies this
      ensures State() == Point(old(State()), isTeam1)
      ensures label1 == NatToString(score1) && label2 == NatToString(score2)
    {
      if isTeam1 {
        score1 := score1 + 1;
        label1 := NatToString(score1);
      } else {
        score2 := score2 + 1;
        label2 := NatToString(score2);
      }
      indicator := score1 + score2 + 1;
    }

    /**
     * team_add: the point, the button text, the indicator, then the check of
     * the button texts for three points in all, which reports the winner.
     */
    method TeamAdd(isTeam1: bool) returns (winner: Option<string>)
      requires Valid()
      modifies this
      ensures Valid() && State() == Scored(old(State()), isTeam1)
      ensures winner == ScoreWinner(score1, score2, name1, name2)
    {
      AddPoint(isTeam1);
      var shown1, shown2 := ParseNat(label1), ParseNat(label2);
      assert shown1 == score1 && shown2 == score2 by {
        ParseNatToString(score1);
        ParseNatToString(score2);
      }
      if shown1 + shown2 == 3 {
        if score1 > score2 {
          winner := Some(name1);
        } else if score1 < score2 {
          winner := Some(name2);
        } else {
          winner := Some(Draw);
        }
      } else {
        winner := None;
      }
      AllReset();
      EventsKeepValid(old(State()), isTeam1);
    }
  }
}
