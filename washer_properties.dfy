/**
 * What the reroll loop promises, stated about the run it performs: it stops at
 * the first match or the first failed read, F5 only ends a run right after a click, every read comes
 * after hovering over the gear, and the number of clicks and reads is fixed
 * by the way the run ended.
 */
module WasherProperties {
  import opened Matcher
  import opened Washer
  import opened Geometry

  /** The run ends at the first attempt whose read failed, that matched or that was stopped, or runs out of attempts. */
  lemma {:induction false} OutcomeIsFirstEnd(c: Config, w: World, i: nat)
    ensures match OutcomeFrom(c, w, i)
      case Matched(k) =>
        i <= k < c.attempts && MatchesAt(c, w, k) && forall j :: i <= j < k ==> !EndsAt(c, w, j)
      case Stopped(k) =>
        i <= k < c.attempts && StopsAt(c, w, k) && forall j :: i <= j < k ==> !EndsAt(c, w, j)
      case Exhausted =>
        forall j :: i <= j < c.attempts ==> !EndsAt(c, w, j)
      case Failed(k) =>
        i <= k < c.attempts && FailsAt(c, w, k) && forall j :: i <= j < k ==> !EndsAt(c, w, j)
      case NotConfigured => false
    decreases c.attempts - i
  {
    if i < c.attempts && !EndsAt(c, w, i) {
      OutcomeIsFirstEnd(c, w, i + 1);
      assert OutcomeFrom(c, w, i) == OutcomeFrom(c, w, i + 1);
    }
  }

  /** The loop stops at attempt `k` on a match exactly when `k` is the first attempt that ended, and it matched. */
  lemma MatchedIffFirstMatch(c: Config, w: World, k: nat)
    ensures OutcomeFrom(c, w, 0) == Matched(k)
        <==> k < c.attempts && MatchesAt(c, w, k) && forall j :: 0 <= j < k ==> !EndsAt(c, w, j)
  {
    OutcomeIsFirstEnd(c, w, 0);
    match OutcomeFrom(c, w, 0)
    case Matched(m) =>
      assert k < m ==> !EndsAt(c, w, k);
      assert (m < k && forall j :: 0 <= j < k ==> !EndsAt(c, w, j)) ==> !EndsAt(c, w, m);
    case Stopped(m) =>
      assert k < m ==> !EndsAt(c, w, k);
      assert (m < k && forall j :: 0 <= j < k ==> !EndsAt(c, w, j)) ==> !EndsAt(c, w, m);
    case Exhausted =>
      assert k < c.attempts ==> !EndsAt(c, w, k);
    case Failed(m) =>
      assert k < m ==> !EndsAt(c, w, k);
      assert (m < k && forall j :: 0 <= j < k ==> !EndsAt(c, w, j)) ==> !EndsAt(c, w, m);
    case NotConfigured =>
  }

  /** The run ends in the screen reader's exception at attempt `k` exactly when `k` is the first attempt that ended, and its read failed. */
  lemma FailedIffFirstFailure(c: Config, w: World, k: nat)
    ensures OutcomeFrom(c, w, 0) == Failed(k)
        <==> k < c.attempts && w.ocr(k).None? && forall j :: 0 <= j < k ==> !EndsAt(c, w, j)
  {
    OutcomeIsFirstEnd(c, w, 0);
    match OutcomeFrom(c, w, 0)
    case Matched(m) =>
      assert k < m ==> !EndsAt(c, w, k);
      assert (m < k && forall j :: 0 <= j < k ==> !EndsAt(c, w, j)) ==> !EndsAt(c, w, m);
    case Stopped(m) =>
      assert k < m ==> !EndsAt(c, w, k);
      assert (m < k && forall j :: 0 <= j < k ==> !EndsAt(c, w, j)) ==> !EndsAt(c, w, m);
    case Exhausted =>
      assert k < c.attempts ==> !EndsAt(c, w, k);
    case Failed(m) =>
      assert k < m ==> !EndsAt(c, w, k);
      assert (m < k && forall j :: 0 <= j < k ==> !EndsAt(c, w, j)) ==> !EndsAt(c, w, m);
    case NotConfigured =>
  }

  /** "Max attempts reached" is reported exactly when every read succeeded, no attempt matched and F5 never stopped the run. */
  lemma ExhaustedIffNoEnd(c: Config, w: World)
    ensures OutcomeFrom(c, w, 0) == Exhausted <==> forall j :: 0 <= j < c.attempts ==> !EndsAt(c, w, j)
  {
    OutcomeIsFirstEnd(c, w, 0);
    match OutcomeFrom(c, w, 0)
    case Matched(m) =>
      assert (forall j :: 0 <= j < c.attempts ==> !EndsAt(c, w, j)) ==> !EndsAt(c, w, m);
    case Stopped(m) =>
      assert (forall j :: 0 <= j < c.attempts ==> !EndsAt(c, w, j)) ==> !EndsAt(c, w, m);
    case Exhausted =>
    case Failed(m) =>
      assert (forall j :: 0 <= j < c.attempts ==> !EndsAt(c, w, j)) ==> !EndsAt(c, w, m);
    case NotConfigured =>
  }

  /** A run stopped by F5 only stops where the keyboard is available and the attempt read a text that did not match. */
  lemma StoppedNeedsKeyboard(c: Config, w: World, k: nat)
    requires OutcomeFrom(c, w, 0) == Stopped(k)
    ensures w.hasKeyboard && w.f5(k) && w.ocr(k).Some? && !MatchesAt(c, w, k) && k < c.attempts
  {
    OutcomeIsFirstEnd(c, w, 0);
  }

  function CountClicks(log: seq<Action>): nat {
    if log == [] then 0 else (if log[0].Click? then 1 else 0) + CountClicks(log[1..])
  }

  function CountReads(log: seq<Action>): nat {
    if log == [] then 0 else (if log[0].ReadRegion? then 1 else 0) + CountReads(log[1..])
  }

  lemma {:induction false} CountsAppend(a: seq<Action>, b: seq<Action>)
    ensures CountClicks(a + b) == CountClicks(a) + CountClicks(b)
    ensures CountReads(a + b) == CountReads(a) + CountReads(b)
  {
    if a == [] {
      assert a + b == b;
    } else {
      assert (a + b)[0] == a[0];
      assert (a + b)[1..] == a[1..] + b;
      CountsAppend(a[1..], b);
    }
  }

  lemma CountsCons(x: Action, rest: seq<Action>)
    ensures CountClicks([x] + rest) == (if x.Click? then 1 else 0) + CountClicks(rest)
    ensures CountReads([x] + rest) == (if x.ReadRegion? then 1 else 0) + CountReads(rest)
  {
    assert ([x] + rest)[1..] == rest;
  }

  /** One attempt reads once, and clicks once unless its read failed or matched. */
  lemma {:induction false} AttemptCounts(c: Config, w: World, i: nat)
    ensures CountReads(AttemptLog(c, w, i)) == 1
    ensures CountClicks(AttemptLog(c, w, i)) == if FailsAt(c, w, i) || MatchesAt(c, w, i) then 0 else 1
  {
    var poll: seq<Action> := if w.hasKeyboard then [PollF5] else [];
    var tail :=
      if FailsAt(c, w, i) then []
      else if MatchesAt(c, w, i) then [BringToFront, Alert(c.rule)] else [Click(c.button), Sleep(c.intervalMs)] + poll;
    assert AttemptLog(c, w, i) == [Hover(c.gear)] + ([Sleep(TooltipDelayMs)] + ([ReadRegion(c.region)] + tail));
    CountsCons(Hover(c.gear), [Sleep(TooltipDelayMs)] + ([ReadRegion(c.region)] + tail));
    CountsCons(Sleep(TooltipDelayMs), [ReadRegion(c.region)] + tail);
    CountsCons(ReadRegion(c.region), tail);
    if FailsAt(c, w, i) {
    } else if MatchesAt(c, w, i) {
      CountsCons(BringToFront, [Alert(c.rule)]);
      CountsCons(Alert(c.rule), []);
    } else {
      assert tail == [Click(c.button)] + ([Sleep(c.intervalMs)] + poll);
      CountsCons(Click(c.button), [Sleep(c.intervalMs)] + poll);
      CountsCons(Sleep(c.intervalMs), poll);
      if w.hasKeyboard {
        CountsCons(PollF5, []);
      }
    }
  }

  /** How many attempts the run from attempt `i` on makes: up to and including the one that ends it. */
  function Used(c: Config, w: World, i: nat): nat
    decreases c.attempts - i
  {
    if i >= c.attempts then 0
    else if EndsAt(c, w, i) then 1
    else 1 + Used(c, w, i + 1)
  }

  lemma {:induction false} UsedByOutcome(c: Config, w: World, i: nat)
    ensures match OutcomeFrom(c, w, i)
      case Matched(k) => Used(c, w, i) == k + 1 - i
      case Stopped(k) => Used(c, w, i) == k + 1 - i
      case Exhausted => Used(c, w, i) == if i <= c.attempts then c.attempts - i else 0
      case Failed(k) => Used(c, w, i) == k + 1 - i
      case NotConfigured => false
    decreases c.attempts - i
  {
    if i < c.attempts && !EndsAt(c, w, i) {
      UsedByOutcome(c, w, i + 1);
      assert OutcomeFrom(c, w, i) == OutcomeFrom(c, w, i + 1);
    }
  }

  lemma {:induction false} CountsFrom(c: Config, w: World, i: nat)
    ensures CountReads(LogFrom(c, w, i)) == Used(c, w, i)
    ensures CountClicks(LogFrom(c, w, i)) + (if OutcomeFrom(c, w, i).Matched? || OutcomeFrom(c, w, i).Failed? then 1 else 0)
      == Used(c, w, i)
    decreases c.attempts - i
  {
    if i < c.attempts {
      AttemptCounts(c, w, i);
      if !EndsAt(c, w, i) {
        CountsFrom(c, w, i + 1);
        CountsAppend(AttemptLog(c, w, i), LogFrom(c, w, i + 1));
      }
    }
  }

  /**
   * Clicks: none in the attempt that matched or whose read failed, one in every other attempt. Reads: one
   * per attempt made, so never more than `max_attempts`.
   */
  lemma RunCounts(c: Config, w: World)
    ensures var log := LogFrom(c, w, 0);
      match OutcomeFrom(c, w, 0)
      case Matched(k) => CountClicks(log) == k && CountReads(log) == k + 1
      case Stopped(k) => CountClicks(log) == k + 1 && CountReads(log) == k + 1
      case Exhausted => CountClicks(log) == c.attempts && CountReads(log) == c.attempts
      case Failed(k) => CountClicks(log) == k && CountReads(log) == k + 1
      case NotConfigured => false
    ensures CountReads(LogFrom(c, w, 0)) <= c.attempts
  {
    CountsFrom(c, w, 0);
    UsedByOutcome(c, w, 0);
    OutcomeIsFirstEnd(c, w, 0);
  }

  /**
   * The order of effects inside the log: every read comes right after hovering
   * over the gear and waiting for the tooltip, and every F5 poll comes right
   * after clicking the wash button and waiting for the interval.
   */
  predicate Ordered(log: seq<Action>, c: Config) {
    forall j :: 0 <= j < |log| ==> OrderedAt(log, j, c)
  }

  /** The effect at position `j` comes after what it needs. */
  predicate OrderedAt(log: seq<Action>, j: nat, c: Config)
    requires j < |log|
  {
    && (log[j].ReadRegion? ==> 2 <= j && log[j - 2..j] == [Hover(c.gear), Sleep(TooltipDelayMs)])
    && (log[j].PollF5? ==> 2 <= j && log[j - 2..j] == [Click(c.button), Sleep(c.intervalMs)])
  }

  lemma OrderedAtLeft(a: seq<Action>, b: seq<Action>, j: nat, c: Config)
    requires j < |a| && OrderedAt(a, j, c)
    ensures OrderedAt(a + b, j, c)
  {
    assert (a + b)[j] == a[j];
    if j >= 2 {
      assert (a + b)[j - 2..j] == a[j - 2..j];
    }
  }

  lemma OrderedAtRight(a: seq<Action>, b: seq<Action>, k: nat, c: Config)
    requires k < |b| && OrderedAt(b, k, c)
    ensures OrderedAt(a + b, |a| + k, c)
  {
    var j := |a| + k;
    assert (a + b)[j] == b[k];
    if k >= 2 {
      assert (a + b)[j - 2..j] == b[k - 2..k];
    }
  }

  lemma OrderedAppend(a: seq<Action>, b: seq<Action>, c: Config)
    requires Ordered(a, c) && Ordered(b, c)
    ensures Ordered(a + b, c)
  {
    forall j | 0 <= j < |a + b|
      ensures OrderedAt(a + b, j, c)
    {
      if j >= |a| {
        OrderedAtRight(a, b, j - |a|, c);
      } else {
        OrderedAtLeft(a, b, j, c);
      }
    }
  }

  /** The effects of an attempt that ends at the read or at the message box. */
  lemma ReadOrdered(c: Config, tail: seq<Action>)
    requires tail == [] || tail == [BringToFront, Alert(c.rule)]
    ensures Ordered([Hover(c.gear), Sleep(TooltipDelayMs), ReadRegion(c.region)] + tail, c)
  {
    var log := [Hover(c.gear), Sleep(TooltipDelayMs), ReadRegion(c.region)] + tail;
    assert log[0..2] == [Hover(c.gear), Sleep(TooltipDelayMs)];
  }

  /** The effects of an attempt that clicks, waits and, with the keyboard module, polls F5. */
  lemma ClickOrdered(c: Config, poll: seq<Action>)
    requires poll == [] || poll == [PollF5]
    ensures Ordered([Hover(c.gear), Sleep(TooltipDelayMs), ReadRegion(c.region), Click(c.button), Sleep(c.intervalMs)] + poll, c)
  {
    var log := [Hover(c.gear), Sleep(TooltipDelayMs), ReadRegion(c.region), Click(c.button), Sleep(c.intervalMs)] + poll;
    assert log[0..2] == [Hover(c.gear), Sleep(TooltipDelayMs)];
    assert log[3..5] == [Click(c.button), Sleep(c.intervalMs)];
  }

  lemma AttemptOrdered(c: Config, w: World, i: nat)
    ensures Ordered(AttemptLog(c, w, i), c)
  {
    var head := [Hover(c.gear), Sleep(TooltipDelayMs), ReadRegion(c.region)];
    var poll: seq<Action> := if w.hasKeyboard then [PollF5] else [];
    if FailsAt(c, w, i) {
      ReadOrdered(c, []);
      assert AttemptLog(c, w, i) == head + [];
    } else if MatchesAt(c, w, i) {
      ReadOrdered(c, [BringToFront, Alert(c.rule)]);
    } else {
      ClickOrdered(c, poll);
      assert AttemptLog(c, w, i) == head + [Click(c.button), Sleep(c.intervalMs)] + poll;
      assert head + [Click(c.button), Sleep(c.intervalMs)] + poll
          == [Hover(c.gear), Sleep(TooltipDelayMs), ReadRegion(c.region), Click(c.button), Sleep(c.intervalMs)] + poll;
    }
  }

  lemma {:induction false} LogFromOrdered(c: Config, w: World, i: nat)
    ensures Ordered(LogFrom(c, w, i), c)
    decreases c.attempts - i
  {
    if i < c.attempts {
      AttemptOrdered(c, w, i);
      if !EndsAt(c, w, i) {
        LogFromOrdered(c, w, i + 1);
        OrderedAppend(AttemptLog(c, w, i), LogFrom(c, w, i + 1), c);
      }
    }
  }

  /** A run that F5 stopped ends with a click, the interval wait and the poll, in that order. */
  lemma {:induction false} StoppedEndsAfterClick(c: Config, w: World, k: nat)
    requires OutcomeFrom(c, w, 0) == Stopped(k)
    ensures var log := LogFrom(c, w, 0);
      |log| >= 3 && log[|log| - 1] == PollF5 && log[|log| - 3] == Click(c.button)
      && log[|log| - 2] == Sleep(c.intervalMs)
  {
    StoppedTail(c, w, 0, k);
  }

  lemma {:induction false} StoppedTail(c: Config, w: World, i: nat, k: nat)
    requires OutcomeFrom(c, w, i) == Stopped(k)
    ensures var log := LogFrom(c, w, i);
      |log| >= 3 && log[|log| - 1] == PollF5 && log[|log| - 3] == Click(c.button)
      && log[|log| - 2] == Sleep(c.intervalMs)
    decreases c.attempts - i
  {
    if i < c.attempts && !EndsAt(c, w, i) {
      assert OutcomeFrom(c, w, i) == OutcomeFrom(c, w, i + 1);
      StoppedTail(c, w, i + 1, k);
      var head, rest := AttemptLog(c, w, i), LogFrom(c, w, i + 1);
      assert LogFrom(c, w, i) == head + rest;
      assert (head + rest)[|head + rest| - 1] == rest[|rest| - 1];
      assert (head + rest)[|head + rest| - 2] == rest[|rest| - 2];
      assert (head + rest)[|head + rest| - 3] == rest[|rest| - 3];
    }
  }

  /** A matching run ends with bringing the console to the front and the message box, right after the read that matched. */
  lemma {:induction false} MatchedEndsWithAlert(c: Config, w: World, k: nat)
    requires OutcomeFrom(c, w, 0) == Matched(k)
    ensures var log := LogFrom(c, w, 0);
      |log| >= 3 && log[|log| - 1] == Alert(c.rule) && log[|log| - 2] == BringToFront
      && log[|log| - 3] == ReadRegion(c.region)
  {
    MatchedTail(c, w, 0, k);
  }

  lemma {:induction false} MatchedTail(c: Config, w: World, i: nat, k: nat)
    requires OutcomeFrom(c, w, i) == Matched(k)
    ensures var log := LogFrom(c, w, i);
      |log| >= 3 && log[|log| - 1] == Alert(c.rule) && log[|log| - 2] == BringToFront
      && log[|log| - 3] == ReadRegion(c.region)
    decreases c.attempts - i
  {
    if i < c.attempts && !EndsAt(c, w, i) {
      assert OutcomeFrom(c, w, i) == OutcomeFrom(c, w, i + 1);
      MatchedTail(c, w, i + 1, k);
      var head, rest := AttemptLog(c, w, i), LogFrom(c, w, i + 1);
      assert LogFrom(c, w, i) == head + rest;
      assert (head + rest)[|head + rest| - 1] == rest[|rest| - 1];
      assert (head + rest)[|head + rest| - 2] == rest[|rest| - 2];
      assert (head + rest)[|head + rest| - 3] == rest[|rest| - 3];
    }
  }
}
