/**
 * GearWasher: the reroll loop. Once configured, it hovers over the gear, reads
 * the affix region, and either stops on a match or clicks the reroll button,
 * waits, and polls F5, for at most `max_attempts` attempts.
 *
 * The mouse, the screen reader, the clock, the keyboard and the message box are
 * not modelled. What the screen reader returns at attempt `i` is `ocr(i)`,
 * whether F5 is held after attempt `i` is `f5(i)`, and every effect the loop
 * issues is appended to the ghost action log `log`.
 */
module Washer {
  import opened Wrappers
  import opened Text
  import opened Geometry
  import opened Matcher

  /** One effect of the loop on the outside world. */
  datatype Action =
    | Sleep(ms: nat)
      /** `pyautogui.moveTo` onto the gear, which brings up its tooltip. */
    | Hover(at: Point)
      /** `ScreenReader.read_text` over the affix region. */
    | ReadRegion(region: Rect)
      /**
       * `SwitchToThisWindow` on the console window before the message box; a
       * failure of that call is swallowed by its bare `except`.
       */
    | BringToFront
      /** The message box announcing the matched rule. */
    | Alert(rule: Condition)
    | Click(at: Point)
      /** `keyboard.is_pressed('f5')`. */
    | PollF5

  /**
   * How `run` ends: not configured, matched at an attempt, stopped by F5 at an
   * attempt, out of attempts, or ended by the exception the screen reader
   * raised at an attempt.
   */
  datatype Outcome = NotConfigured | Matched(attempt: nat) | Stopped(attempt: nat) | Exhausted | Failed(attempt: nat)

  /** The rule the setup wizard falls back to. */
  const DefaultRule: string := "冰霜抗性"
  const DefaultMaxAttempts: int := 1000
  /** `interval`, 1.0 s, in milliseconds. */
  const DefaultIntervalMs: nat := 1000
  /** The pause before the first attempt, to switch to the game window. */
  const StartDelayMs: nat := 3000
  /** The pause that lets the gear's tooltip appear. */
  const TooltipDelayMs: nat := 500

  /** What the loop reads from the washer's fields once they are all set. */
  datatype Config = Config(
    gear: Point, region: Rect, button: Point, rule: Condition, intervalMs: nat, attempts: nat)

  /**
   * What the outside world answers: the text read at each attempt (None where
   * the capture or the OCR engine raises), F5 after each attempt, and whether
   * the keyboard module is available.
   */
  datatype World = World(ocr: nat -> Option<string>, f5: nat -> bool, hasKeyboard: bool)

  /** `range(max_attempts)` has no element when `max_attempts` is negative. */
  function AttemptCount(maxAttempts: int): (n: nat)
    ensures maxAttempts >= 0 ==> n == maxAttempts
    ensures maxAttempts < 0 ==> n == 0
  {
    if maxAttempts < 0 then 0 else maxAttempts
  }

  /** The read of attempt `i` raised; nothing in `run` catches it. */
  predicate FailsAt(c: Config, w: World, i: nat) {
    w.ocr(i).None?
  }

  predicate MatchesAt(c: Config, w: World, i: nat) {
    w.ocr(i).Some? && Check(w.ocr(i).value, c.rule)
  }

  /** Attempt `i` read a text that did not match, and F5 was found pressed after its click. */
  predicate StopsAt(c: Config, w: World, i: nat) {
    w.ocr(i).Some? && !MatchesAt(c, w, i) && w.hasKeyboard && w.f5(i)
  }

  /** Attempt `i` is the last one. */
  predicate EndsAt(c: Config, w: World, i: nat) {
    FailsAt(c, w, i) || MatchesAt(c, w, i) || StopsAt(c, w, i)
  }

  /** The effects of attempt `i`. */
  function AttemptLog(c: Config, w: World, i: nat): seq<Action> {
    [Hover(c.gear), Sleep(TooltipDelayMs), ReadRegion(c.region)]
    + if FailsAt(c, w, i) then []
      else if MatchesAt(c, w, i) then [BringToFront, Alert(c.rule)]
      else [Click(c.button), Sleep(c.intervalMs)] + if w.hasKeyboard then [PollF5] else []
  }

  /** How the loop ends when it reaches attempt `i`. */
  function OutcomeFrom(c: Config, w: World, i: nat): Outcome
    decreases c.attempts - i
  {
    if i >= c.attempts then Exhausted
    else if FailsAt(c, w, i) then Failed(i)
    else if MatchesAt(c, w, i) then Matched(i)
    else if StopsAt(c, w, i) then Stopped(i)
    else OutcomeFrom(c, w, i + 1)
  }

  /** The effects of the loop from attempt `i` on. */
  function LogFrom(c: Config, w: World, i: nat): seq<Action>
    decreases c.attempts - i
  {
    if i >= c.attempts then []
    else if EndsAt(c, w, i) then AttemptLog(c, w, i)
    else AttemptLog(c, w, i) + LogFrom(c, w, i + 1)
  }

  /** The effects of attempts `0 .. i - 1`. */
  function LogUpTo(c: Config, w: World, i: nat): seq<Action> {
    if i == 0 then [] else LogUpTo(c, w, i - 1) + AttemptLog(c, w, i - 1)
  }

  /** The effects of an attempt, in the order the loop issues them. */
  lemma AttemptLogShape(c: Config, w: World, i: nat)
    ensures FailsAt(c, w, i) ==>
      AttemptLog(c, w, i) == [Hover(c.gear), Sleep(TooltipDelayMs)] + [ReadRegion(c.region)]
    ensures MatchesAt(c, w, i) ==>
      AttemptLog(c, w, i) == [Hover(c.gear), Sleep(TooltipDelayMs)] + [ReadRegion(c.region)] + [BringToFront, Alert(c.rule)]
    ensures !FailsAt(c, w, i) && !MatchesAt(c, w, i) ==>
      AttemptLog(c, w, i)
      == [Hover(c.gear), Sleep(TooltipDelayMs)] + [ReadRegion(c.region)] + [Click(c.button), Sleep(c.intervalMs)]
         + (if w.hasKeyboard then [PollF5] else [])
  {
  }

  /** Appending the effects of attempt `i` piece by piece appends `AttemptLog(c, w, i)`. */
  lemma AppendAttempt(c: Config, w: World, i: nat, before: seq<Action>, after: seq<Action>)
    requires FailsAt(c, w, i) ==>
      after == before + [Hover(c.gear), Sleep(TooltipDelayMs)] + [ReadRegion(c.region)]
    requires MatchesAt(c, w, i) ==>
      after == before + [Hover(c.gear), Sleep(TooltipDelayMs)] + [ReadRegion(c.region)] + [BringToFront, Alert(c.rule)]
    requires !FailsAt(c, w, i) && !MatchesAt(c, w, i) ==>
      after == before + [Hover(c.gear), Sleep(TooltipDelayMs)] + [ReadRegion(c.region)]
               + [Click(c.button), Sleep(c.intervalMs)] + (if w.hasKeyboard then [PollF5] else [])
    ensures after == before + AttemptLog(c, w, i)
  {
    AttemptLogShape(c, w, i);
    var head := [Hover(c.gear), Sleep(TooltipDelayMs)] + [ReadRegion(c.region)];
    if FailsAt(c, w, i) {
      assert before + head == before + head + [];
    } else if MatchesAt(c, w, i) {
      assert before + head + [BringToFront, Alert(c.rule)] == before + (head + [BringToFront, Alert(c.rule)]);
    } else {
      var tail := [Click(c.button), Sleep(c.intervalMs)] + (if w.hasKeyboard then [PollF5] else []);
      assert before + head + [Click(c.button), Sleep(c.intervalMs)] + (if w.hasKeyboard then [PollF5] else [])
          == before + (head + tail);
    }
  }

  /** Attempts `0 .. i - 1` all ended without a match and without F5, so attempt `i` is reached. */
  predicate Reaches(c: Config, w: World, i: nat) {
    i == 0 || (Reaches(c, w, i - 1) && !EndsAt(c, w, i - 1))
  }

  /** Once attempt `i` is reached, the rest of the run is the run from `i`. */
  lemma {:induction false} ReachedRun(c: Config, w: World, i: nat)
    requires i <= c.attempts && Reaches(c, w, i)
    ensures OutcomeFrom(c, w, 0) == OutcomeFrom(c, w, i)
    ensures LogFrom(c, w, 0) == LogUpTo(c, w, i) + LogFrom(c, w, i)
  {
    if i > 0 {
      ReachedRun(c, w, i - 1);
      var done, current, rest := LogUpTo(c, w, i - 1), AttemptLog(c, w, i - 1), LogFrom(c, w, i);
      assert LogFrom(c, w, i - 1) == current + rest;
      ActionsAssoc(done, current, rest);
    }
  }

  /** The attempt that matched or was stopped closes the log. */
  lemma LastAttempt(c: Config, w: World, i: nat, start: seq<Action>, before: seq<Action>, after: seq<Action>)
    requires i < c.attempts && Reaches(c, w, i) && EndsAt(c, w, i)
    requires before == start + LogUpTo(c, w, i)
    requires after == before + AttemptLog(c, w, i)
    ensures OutcomeFrom(c, w, 0) == OutcomeFrom(c, w, i)
    ensures after == start + LogFrom(c, w, 0)
  {
    ReachedRun(c, w, i);
    ActionsAssoc(start, LogUpTo(c, w, i), AttemptLog(c, w, i));
  }

  /** An attempt that neither matched nor was stopped hands over to the next one. */
  lemma NextAttempt(c: Config, w: World, i: nat, start: seq<Action>, before: seq<Action>, after: seq<Action>)
    requires Reaches(c, w, i) && !EndsAt(c, w, i)
    requires before == start + LogUpTo(c, w, i)
    requires after == before + AttemptLog(c, w, i)
    ensures Reaches(c, w, i + 1)
    ensures after == start + LogUpTo(c, w, i + 1)
  {
    ActionsAssoc(start, LogUpTo(c, w, i), AttemptLog(c, w, i));
  }

  /** When every attempt was used, the `else` of the loop reports exhaustion. */
  lemma OutOfAttempts(c: Config, w: World, start: seq<Action>, log: seq<Action>)
    requires Reaches(c, w, c.attempts)
    requires log == start + LogUpTo(c, w, c.attempts)
    ensures OutcomeFrom(c, w, 0) == Exhausted
    ensures log == start + LogFrom(c, w, 0)
  {
    ReachedRun(c, w, c.attempts);
    assert LogUpTo(c, w, c.attempts) + [] == LogUpTo(c, w, c.attempts);
  }

  lemma ActionsAssoc(a: seq<Action>, b: seq<Action>, c: seq<Action>)
    ensures a + (b + c) == (a + b) + c
  {
  }

  class GearWasher {
    var gearPos: Option<Point>
    var affixRegion: Option<Rect>
    var washButtonPos: Option<Point>
    var conditions: Condition
    var maxAttempts: int
    var intervalMs: nat
    /** Every effect issued so far. */
    ghost var log: seq<Action>

    constructor()
      ensures gearPos == None && affixRegion == None && washButtonPos == None
      ensures conditions == Null
      ensures maxAttempts == DefaultMaxAttempts && intervalMs == DefaultIntervalMs
      ensures log == []
    {
      gearPos := None;
      affixRegion := None;
      washButtonPos := None;
      conditions := Null;
      maxAttempts := DefaultMaxAttempts;
      intervalMs := DefaultIntervalMs;
      log := [];
    }

    /** The three positions `run` needs are set; the rule is not checked. */
    predicate Configured()
      reads this
    {
      gearPos.Some? && affixRegion.Some? && washButtonPos.Some?
    }

    function Snapshot(): Config
      reads this
      requires Configured()
    {
      Config(gearPos.value, affixRegion.value, washButtonPos.value, conditions, intervalMs,
             AttemptCount(maxAttempts))
    }

    /**
     * `setup_wizard` with the four recorded mouse positions and the typed rule
     * as parameters: the region is normalized from the two corners, and the
     * rule is replaced only by a non-blank input.
     */
    method SetupWizard(gear: Point, corner1: Point, corner2: Point, button: Point, typed: string)
      modifies this
      ensures gearPos == Some(gear) && washButtonPos == Some(button)
      ensures affixRegion == Some(CalculateRect(corner1, corner2))
      ensures Strip(typed) != [] ==> conditions == Str(Strip(typed))
      ensures Strip(typed) == [] && IsTruthy(old(conditions)) ==> conditions == old(conditions)
      ensures Strip(typed) == [] && !IsTruthy(old(conditions)) ==> conditions == Str(DefaultRule)
      ensures Configured() && IsTruthy(conditions)
      ensures maxAttempts == old(maxAttempts) && intervalMs == old(intervalMs) && log == old(log)
    {
      gearPos := Some(gear);
      var x := Min(corner1.x, corner2.x);
      var y := Min(corner1.y, corner2.y);
      var width := Abs(corner2.x - corner1.x);
      var height := Abs(corner2.y - corner1.y);
      affixRegion := Some(Rect(x, y, width, height));
      washButtonPos := Some(button);
      var input := Strip(typed);
      if input != [] {
        conditions := Str(input);
      } else if !IsTruthy(conditions) {
        conditions := Str(DefaultRule);
      }
    }

    /** `run`: the bounded reroll loop. */
    method Run(w: World) returns (outcome: Outcome)
      modifies this`log
      ensures !old(Configured()) ==> outcome == NotConfigured && log == old(log)
      ensures old(Configured()) ==>
        outcome == OutcomeFrom(old(Snapshot()), w, 0)
        && log == old(log) + [Sleep(StartDelayMs)] + LogFrom(old(Snapshot()), w, 0)
    {
      if !(affixRegion.Some? && washButtonPos.Some? && gearPos.Some?) {
        return NotConfigured;
      }
      var c := Config(gearPos.value, affixRegion.value, washButtonPos.value, conditions, intervalMs,
                      AttemptCount(maxAttempts));
      log := log + [Sleep(StartDelayMs)];
      outcome := Attempts(c, w);
    }

    /**
     * One pass of the loop body: hover, wait for the tooltip, read, and either
     * announce the match or click, wait the interval and poll F5. A read that
     * raises ends the run there. `last` says whether the loop ends after it.
     */
    method Attempt(c: Config, w: World, i: nat) returns (last: bool, outcome: Outcome)
      requires i < c.attempts
      modifies this`log
      ensures last == EndsAt(c, w, i)
      ensures last ==> outcome == OutcomeFrom(c, w, i)
      ensures log == old(log) + AttemptLog(c, w, i)
    {
      ghost var before := log;
      log := log + [Hover(c.gear), Sleep(TooltipDelayMs)];
      var text := w.ocr(i);
      log := log + [ReadRegion(c.region)];
      if text.None? {
        AppendAttempt(c, w, i, before, log);
        return true, Failed(i);
      }
      if Check(text.value, c.rule) {
        log := log + [BringToFront, Alert(c.rule)];
        AppendAttempt(c, w, i, before, log);
        return true, Matched(i);
      }
      log := log + [Click(c.button), Sleep(c.intervalMs)];
      last, outcome := false, Exhausted;
      if w.hasKeyboard {
        log := log + [PollF5];
        if w.f5(i) {
          last, outcome := true, Stopped(i);
        }
      }
      AppendAttempt(c, w, i, before, log);
    }

    /** The `for i in range(max_attempts)` loop of `run`, with `for ... else` reporting exhaustion. */
    method Attempts(c: Config, w: World) returns (outcome: Outcome)
      modifies this`log
      ensures log == old(log) + LogFrom(c, w, 0)
      ensures outcome == OutcomeFrom(c, w, 0)
    {
      ghost var start := log;
      var i := 0;
      while i < c.attempts
        invariant 0 <= i <= c.attempts
        invariant Reaches(c, w, i)
        invariant log == start + LogUpTo(c, w, i)
        decreases c.attempts - i
      {
        ghost var before := log;
        var last;
        last, outcome := Attempt(c, w, i);
        if last {
          LastAttempt(c, w, i, start, before, log);
          return outcome;
        }
        NextAttempt(c, w, i, start, before, log);
        i := i + 1;
      }
      OutOfAttempts(c, w, start, log);
      return Exhausted;
    }
  }
}
