/** The poll-loop decisions both orchestrators make every cycle: whether a new
    queue size deserves a prompt, and the time-of-day triggers. */
module Poll {
  import opened Wrappers

  // ---------------------------------------------------------------------------
  // Count-change prompting

  /** The outcome of one poll: whether to print a prompt, and the remembered count. */
  datatype Decision = Decision(prompt: bool, last: nat)

  /** Prompt when the queue is non-empty and its size differs from the remembered one. */
  function CountChange(count: nat, last: nat): (d: Decision)
    ensures d.prompt <==> count > 0 && count != last
    ensures d.last == count
  {
    if count > 0 then
      if count != last then Decision(true, count) else Decision(false, last)
    else Decision(false, 0)
  }

  /** The prompts a run of polls emits, one per observed queue size. */
  function Prompts(counts: seq<nat>, last: nat): (r: seq<bool>)
    ensures |r| == |counts|
    decreases |counts|
  {
    if |counts| == 0 then []
    else
      var d := CountChange(counts[0], last);
      [d.prompt] + Prompts(counts[1..], d.last)
  }

  /** Poll `i` of a run prompts exactly when the queue is non-empty and its size
      differs from what the previous poll saw (or from `last`, for the first poll). */
  lemma {:induction false} PromptAt(counts: seq<nat>, last: nat, i: nat)
    requires i < |counts|
    ensures Prompts(counts, last)[i] <==> counts[i] > 0 && counts[i] != (if i == 0 then last else counts[i - 1])
    decreases i
  {
    var d := CountChange(counts[0], last);
    assert Prompts(counts, last) == [d.prompt] + Prompts(counts[1..], d.last);
    if i > 0 {
      PromptAt(counts[1..], d.last, i - 1);
      assert counts[1..][i - 1] == counts[i];
      if i > 1 {
        assert counts[1..][i - 2] == counts[i - 1];
      }
    }
  }

  /** A queue that keeps the same size never prompts twice in a row. */
  lemma NoRepeatedPrompt(counts: seq<nat>, last: nat, i: nat)
    requires 0 < i < |counts| && counts[i] == counts[i - 1]
    ensures !Prompts(counts, last)[i]
  {
    PromptAt(counts, last, i);
  }

  // ---------------------------------------------------------------------------
  // Time-based triggers

  /** A calendar date as a day number; later dates are larger. */
  type Date = int

  /** The wall clock as read once per cycle. */
  datatype Clock = Clock(hour: nat, minute: nat, today: Date, iso: string)

  datatype Trigger = DailyBriefing | EndOfDaySummary

  /** `check_time_based_triggers`: the triggers due now and the updated last-briefing date. */
  function CheckTriggers(lastBriefing: Option<Date>, c: Clock): (r: (seq<Trigger>, Option<Date>))
    ensures DailyBriefing in r.0 <==> c.hour == 8 && c.minute < 5 && lastBriefing != Some(c.today)
    ensures EndOfDaySummary in r.0 <==> c.hour == 17 && c.minute < 5
    ensures r.1 == if DailyBriefing in r.0 then Some(c.today) else lastBriefing
    ensures |r.0| <= 1
  {
    var daily := if c.hour == 8 && c.minute < 5 && lastBriefing != Some(c.today) then [DailyBriefing] else [];
    var eod := if c.hour == 17 && c.minute < 5 then [EndOfDaySummary] else [];
    (daily + eod, if daily != [] then Some(c.today) else lastBriefing)
  }

  /** The remembered briefing date after each of a run of cycles. */
  function BriefingDates(clocks: seq<Clock>, last: Option<Date>): (r: seq<Option<Date>>)
    ensures |r| == |clocks|
    decreases |clocks|
  {
    if |clocks| == 0 then []
    else
      var next := CheckTriggers(last, clocks[0]).1;
      [next] + BriefingDates(clocks[1..], next)
  }

  /** Whether cycle `i` of a run fires the daily briefing. */
  predicate BriefsAt(clocks: seq<Clock>, last: Option<Date>, i: nat)
    requires i < |clocks|
  {
    var before := if i == 0 then last else BriefingDates(clocks, last)[i - 1];
    DailyBriefing in CheckTriggers(before, clocks[i]).0
  }

  /** Dates never go back within a run. */
  predicate Monotone(clocks: seq<Clock>) {
    forall i, j :: 0 <= i <= j < |clocks| ==> clocks[i].today <= clocks[j].today
  }

  /** The remembered date is the latest date on which the briefing fired. */
  lemma {:induction false} BriefingDatesStep(clocks: seq<Clock>, last: Option<Date>, i: nat)
    requires 0 < i < |clocks|
    ensures BriefingDates(clocks, last)[i] == CheckTriggers(BriefingDates(clocks, last)[i - 1], clocks[i]).1
    decreases i
  {
    var next := CheckTriggers(last, clocks[0]).1;
    assert BriefingDates(clocks, last)[1..] == BriefingDates(clocks[1..], next);
    if i > 1 {
      BriefingDatesStep(clocks[1..], next, i - 1);
    } else {
      assert BriefingDates(clocks[1..], next)[0] == CheckTriggers(next, clocks[1]).1;
    }
  }

  /** After a briefing on date `d`, cycles on that same date keep `d` remembered. */
  lemma {:induction false} RememberedWithinDate(clocks: seq<Clock>, last: Option<Date>, i: nat, j: nat)
    requires Monotone(clocks)
    requires i <= j < |clocks|
    requires BriefingDates(clocks, last)[i] == Some(clocks[i].today)
    requires clocks[j].today == clocks[i].today
    ensures BriefingDates(clocks, last)[j] == Some(clocks[i].today)
    decreases j - i
  {
    if i < j {
      assert clocks[j - 1].today == clocks[i].today;
      RememberedWithinDate(clocks, last, i, j - 1);
      BriefingDatesStep(clocks, last, j);
      TriggersKeepDate(clocks[j], clocks[i].today);
    }
  }

  /** A cycle on the remembered date keeps that date remembered. */
  lemma TriggersKeepDate(c: Clock, d: Date)
    requires c.today == d
    ensures CheckTriggers(Some(d), c).1 == Some(d)
  {
  }

  /** With a clock that never goes back, the daily briefing fires at most once per date. */
  lemma DailyBriefingOncePerDate(clocks: seq<Clock>, last: Option<Date>, i: nat, j: nat)
    requires Monotone(clocks)
    requires i < j < |clocks|
    requires clocks[i].today == clocks[j].today
    ensures !(BriefsAt(clocks, last, i) && BriefsAt(clocks, last, j))
  {
    if BriefsAt(clocks, last, i) {
      if i == 0 {
        assert BriefingDates(clocks, last)[0] == CheckTriggers(last, clocks[0]).1;
      } else {
        BriefingDatesStep(clocks, last, i);
      }
      RememberedWithinDate(clocks, last, i, j - 1);
    }
  }
}
