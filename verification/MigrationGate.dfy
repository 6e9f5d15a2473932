/** The worker's migration gate: poll the migration plan with exponential backoff until it is empty
    or the time is up.

    The clock, the database and the scheduler are a World: how long each check takes and what it
    sees, and by how much each sleep overshoots. Time is measured from the start of the wait. */
module MigrationGate {

  const MAX_NAMED_PENDING: nat := 20

  /** What one check of the plan sees. Failing is any error other than an unreachable database. */
  datatype Plan = Empty | Pending(names: seq<string>) | Unreachable | Failing

  datatype World = World(plan: nat -> Plan, took: nat -> real, over: nat -> real)

  function Sees(w: World, i: nat): (plan: Plan)
    ensures plan.Pending? ==> plan.names != []
  {
    if w.plan(i).Pending? && w.plan(i).names == [] then Empty else w.plan(i)
  }

  /** A check takes some time, and no sleep ends early. */
  function Took(w: World, i: nat): (t: real)
    ensures t >= 0.0
  {
    if w.took(i) < 0.0 then 0.0 else w.took(i)
  }

  function Over(w: World, i: nat): (t: real)
    ensures t >= 0.0
  {
    if w.over(i) < 0.0 then 0.0 else w.over(i)
  }

  /** TimedOut carries the migrations named in the log; none when the last check saw no database. */
  datatype Outcome = Skipped | Passed | TimedOut(named: seq<string>) | Escaped

  function Min(a: real, b: real): (m: real)
    ensures m <= a && m <= b && (m == a || m == b)
  {
    if a <= b then a else b
  }

  function Sum(s: seq<real>): real {
    if s == [] then 0.0 else Sum(s[..|s| - 1]) + s[|s| - 1]
  }

  /** The delay before retry i. */
  function Delay(initial: real, max: real, i: nat): real {
    if i == 0 then initial else Min(Delay(initial, max, i - 1) * 2.0, max)
  }

  /** 2^i as a number of delays. */
  function Doubled(initial: real, i: nat): real {
    if i == 0 then initial else Doubled(initial, i - 1) + Doubled(initial, i - 1)
  }

  /** Every retry waits twice as long as the one before, up to the longest delay. */
  lemma {:induction false} DelayDoubles(initial: real, max: real, i: nat)
    requires initial > 0.0 && max > 0.0
    ensures Delay(initial, max, 0) == initial
    ensures i > 0 ==> Delay(initial, max, i) == if Doubled(initial, i) <= max then Doubled(initial, i) else max
    ensures Doubled(initial, i) >= initial
  {
    if i > 0 {
      DelayDoubles(initial, max, i - 1);
    }
  }

  /** The number of whole backoff delays, starting with `delay`, that fit into `left` one after the
      other. */
  function FullDelays(delay: real, max: real, left: real, step: real): nat
    requires 0.0 < step <= delay && step <= max
    decreases if left < 0.0 then 0 else (left / step).Floor + 1
  {
    if delay > left then 0
    else
      StepsShrink(left, delay, step);
      1 + FullDelays(Min(delay * 2.0, max), max, left - delay, step)
  }

  lemma StepsShrink(left: real, delay: real, step: real)
    requires 0.0 < step <= delay <= left
    ensures 0 <= ((left - delay) / step).Floor < (left / step).Floor
  {
    var a, b, c := left / step, (left - delay) / step, delay / step;
    assert a * step == left && b * step == left - delay && c * step == delay;
    QuotientAtLeast(c, step, 1.0);
    QuotientAtLeast(b, step, 0.0);
    assert a == b + c by {
      assert (a - b - c) * step == 0.0;
    }
  }

  lemma QuotientAtLeast(q: real, step: real, bound: real)
    requires step > 0.0 && q * step >= bound * step
    ensures q >= bound
  {
    assert (bound - q) * step == bound * step - q * step;
  }

  /** One more delay fits: it is counted and the rest continues from the next delay. */
  lemma OneMoreFits(delay: real, max: real, left: real, step: real)
    requires 0.0 < step <= delay <= left && step <= max
    ensures FullDelays(delay, max, left, step) == 1 + FullDelays(Min(delay * 2.0, max), max, left - delay, step)
  {
  }

  /** The first n backoff delays together, starting with `delay`. */
  function DelaySum(delay: real, max: real, n: nat): real
    decreases n
  {
    if n == 0 then 0.0 else delay + DelaySum(Min(delay * 2.0, max), max, n - 1)
  }

  /** FullDelays is the exact count: n delays fit into the time left if and only if n is at most it. */
  lemma {:induction false} FullDelaysIsExact(delay: real, max: real, left: real, step: real, n: nat)
    requires 0.0 < step <= delay && step <= max && left >= 0.0
    ensures DelaySum(delay, max, n) <= left <==> n <= FullDelays(delay, max, left, step)
    decreases n
  {
    if n > 0 {
      if delay <= left {
        OneMoreFits(delay, max, left, step);
        FullDelaysIsExact(Min(delay * 2.0, max), max, left - delay, step, n - 1);
      } else {
        DelaySumNonNegative(Min(delay * 2.0, max), max, step, n - 1);
      }
    }
  }

  lemma {:induction false} DelaySumNonNegative(delay: real, max: real, step: real, n: nat)
    requires 0.0 < step <= delay && step <= max
    ensures DelaySum(delay, max, n) >= 0.0
    decreases n
  {
    if n > 0 {
      DelaySumNonNegative(Min(delay * 2.0, max), max, step, n - 1);
    }
  }

  /** The times at which the checks end, one per check, given the sleeps between them. */
  ghost predicate Timeline(w: World, ends: seq<real>, sleeps: seq<real>) {
    && (|ends| > 0 ==> ends[0] == Took(w, 0))
    && forall i :: 0 <= i < |sleeps| && i + 1 < |ends| ==>
        ends[i + 1] == ends[i] + sleeps[i] + Over(w, i) + Took(w, i + 1)
  }

  /** Every sleep is the backoff delay, cut short at the deadline, after a check that saw work to
      wait for and ended before the deadline. */
  ghost predicate Backoff(w: World, timeout: real, initial: real, max: real, ends: seq<real>, sleeps: seq<real>) {
    && |sleeps| <= |ends|
    && forall i :: 0 <= i < |sleeps| ==>
      && (Sees(w, i).Pending? || Sees(w, i).Unreachable?) && ends[i] < timeout
      && sleeps[i] == Min(Delay(initial, max, i), timeout - ends[i]) > 0.0
  }

  /** A check ends: its end goes on the timeline. */
  lemma CheckEnds(w: World, timeout: real, initial: real, max: real, ends: seq<real>, sleeps: seq<real>, now: real)
    requires Timeline(w, ends, sleeps) && Backoff(w, timeout, initial, max, ends, sleeps) && |ends| == |sleeps|
    requires now == Woken(w, ends, sleeps) + Took(w, |ends|)
    ensures Timeline(w, ends + [now], sleeps) && Backoff(w, timeout, initial, max, ends + [now], sleeps)
  {
  }

  /** A sleep follows a check that saw work before the deadline. */
  lemma SleepFollows(w: World, timeout: real, initial: real, max: real, ends: seq<real>, sleeps: seq<real>, sleep: real)
    requires Timeline(w, ends, sleeps) && Backoff(w, timeout, initial, max, ends, sleeps) && |ends| == |sleeps| + 1
    requires Sees(w, |sleeps|).Pending? || Sees(w, |sleeps|).Unreachable?
    requires ends[|sleeps|] < timeout && sleep == Min(Delay(initial, max, |sleeps|), timeout - ends[|sleeps|]) > 0.0
    ensures Timeline(w, ends, sleeps + [sleep]) && Backoff(w, timeout, initial, max, ends, sleeps + [sleep])
    ensures Sum(sleeps + [sleep]) == Sum(sleeps) + sleep
    ensures Woken(w, ends, sleeps + [sleep]) == ends[|sleeps|] + sleep + Over(w, |sleeps|)
  {
    hide Delay, Min, Sees, Took, Over;
    assert (sleeps + [sleep])[..|sleeps|] == sleeps;
  }

  /** The time at which the next check starts. */
  ghost function Woken(w: World, ends: seq<real>, sleeps: seq<real>): real
    requires |ends| == |sleeps|
  {
    var n := |ends|;
    if n == 0 then 0.0 else ends[n - 1] + sleeps[n - 1] + Over(w, n - 1)
  }

  /** Where the wait stands when a check starts: `slept` seconds asked for so far, and the whole
      delays still to come accounted for. */
  ghost predicate Progress(timeout: real, initial: real, max: real, attempts: nat, delay: real, now: real,
      slept: real) {
    && initial > 0.0 && max > 0.0 && 0.0 <= slept <= now && slept <= timeout
    && var step := Min(initial, max);
    && step <= delay && delay == Delay(initial, max, attempts)
    && (now < timeout ==>
      FullDelays(initial, max, timeout, step) == attempts + FullDelays(delay, max, timeout - slept, step))
    && (now >= timeout ==> attempts <= FullDelays(initial, max, timeout, step) + 1)
  }

  /** The termination measure: delays still to come. */
  ghost function Left(timeout: real, initial: real, max: real, delay: real, now: real, slept: real): nat {
    var step := Min(initial, max);
    if now < timeout && 0.0 < step <= delay then 1 + FullDelays(delay, max, timeout - slept, step) else 0
  }

  /** A check and a sleep, whole or cut short at the deadline, make progress. */
  lemma SleepProgresses(timeout: real, initial: real, max: real, attempts: nat, delay: real, now: real, slept: real,
                        ended: real, woken: real)
    requires Progress(timeout, initial, max, attempts, delay, now, slept)
    requires now <= ended < timeout && ended + Min(delay, timeout - ended) <= woken
    ensures var sleep := Min(delay, timeout - ended);
      && sleep > 0.0
      && Progress(timeout, initial, max, attempts + 1, Min(delay * 2.0, max), woken, slept + sleep)
      && Left(timeout, initial, max, Min(delay * 2.0, max), woken, slept + sleep)
          < Left(timeout, initial, max, delay, now, slept)
  {
    if Min(delay, timeout - ended) == delay {
      OneMoreFits(delay, max, timeout - slept, Min(initial, max));
    }
    hide FullDelays;
  }

  /** What the log names after the last check: at most the first twenty. */
  function Named(plan: Plan): (named: seq<string>)
    ensures plan.Pending? ==>
      named <= plan.names && (|named| == |plan.names| || |named| == MAX_NAMED_PENDING < |plan.names|)
    ensures !plan.Pending? ==> named == []
  {
    if !plan.Pending? then []
    else if |plan.names| <= MAX_NAMED_PENDING then plan.names
    else plan.names[..MAX_NAMED_PENDING]
  }

  /** What the last check has to have seen: an empty plan to pass, an error of another kind to
      escape, and work still to do at or past the deadline to give up. */
  predicate Verdict(outcome: Outcome, last: Plan, late: bool) {
    match outcome
    case Skipped => false
    case Passed => last.Empty?
    case Escaped => last.Failing?
    case TimedOut(named) => (last.Pending? || last.Unreachable?) && late && named == Named(last)
  }

  /** A check is about to start at `now`. */
  ghost predicate Checking(w: World, timeout: real, initial: real, max: real, delay: real, now: real,
                           ends: seq<real>, sleeps: seq<real>) {
    && |ends| == |sleeps| && now == Woken(w, ends, sleeps)
    && Progress(timeout, initial, max, |ends|, delay, now, Sum(sleeps))
    && Timeline(w, ends, sleeps) && Backoff(w, timeout, initial, max, ends, sleeps)
  }

  /** What the whole wait satisfies when it is over. */
  ghost predicate Waited(w: World, timeout: real, initial: real, max: real, ends: seq<real>, sleeps: seq<real>,
                         outcome: Outcome) {
    && |ends| == |sleeps| + 1 && Sum(sleeps) <= timeout
    && Verdict(outcome, Sees(w, |sleeps|), ends[|sleeps|] >= timeout)
    && Timeline(w, ends, sleeps) && Backoff(w, timeout, initial, max, ends, sleeps)
    && initial > 0.0 && max > 0.0
    && |ends| <= FullDelays(initial, max, timeout, Min(initial, max)) + 2
  }

  lemma WaitStarts(w: World, timeout: real, initial: real, max: real)
    requires timeout > 0.0 && initial > 0.0 && max > 0.0
    ensures Checking(w, timeout, initial, max, initial, 0.0, [], [])
  {
    hide FullDelays;
  }

  lemma CheckOver(w: World, timeout: real, initial: real, max: real, delay: real, now: real, ends: seq<real>,
                  sleeps: seq<real>, outcome: Outcome)
    requires Checking(w, timeout, initial, max, delay, now, ends, sleeps)
    requires Verdict(outcome, Sees(w, |ends|), now + Took(w, |ends|) >= timeout)
    ensures Waited(w, timeout, initial, max, ends + [now + Took(w, |ends|)], sleeps, outcome)
  {
    hide FullDelays, Delay, Sum;
    CheckEnds(w, timeout, initial, max, ends, sleeps, now + Took(w, |ends|));
  }

  lemma DelayIsBackoff(timeout: real, initial: real, max: real, attempts: nat, delay: real, now: real, slept: real)
    requires Progress(timeout, initial, max, attempts, delay, now, slept)
    ensures delay == Delay(initial, max, attempts)
  {
  }

  /** The trace grows by one check and one sleep. */
  lemma TraceGrows(w: World, timeout: real, initial: real, max: real, delay: real, now: real, ends: seq<real>,
                   sleeps: seq<real>, ended: real, sleep: real)
    requires Checking(w, timeout, initial, max, delay, now, ends, sleeps) && ended == now + Took(w, |ends|) < timeout
    requires Sees(w, |ends|).Pending? || Sees(w, |ends|).Unreachable?
    requires sleep == Min(delay, timeout - ended) > 0.0
    ensures var ended', sleeps' := ends + [ended], sleeps + [sleep];
      && Timeline(w, ended', sleeps') && Backoff(w, timeout, initial, max, ended', sleeps')
      && Woken(w, ended', sleeps') == ended + sleep + Over(w, |ends|) && Sum(sleeps') == Sum(sleeps) + sleep
  {
    hide Timeline, Backoff, Sum, FullDelays, Delay, Sees, Took, Over, Min, Progress, Woken;
    assert delay == Delay(initial, max, |ends|) by {
      DelayIsBackoff(timeout, initial, max, |ends|, delay, now, Sum(sleeps));
    }
    CheckEnds(w, timeout, initial, max, ends, sleeps, ended);
    assert (ends + [ended])[|sleeps|] == ended;
    SleepFollows(w, timeout, initial, max, ends + [ended], sleeps, sleep);
  }

  lemma WaitsOn(w: World, timeout: real, initial: real, max: real, delay: real, now: real, ends: seq<real>,
                sleeps: seq<real>, ended: real, sleep: real, woken: real)
    requires Checking(w, timeout, initial, max, delay, now, ends, sleeps) && ended == now + Took(w, |ends|) < timeout
    requires Sees(w, |ends|).Pending? || Sees(w, |ends|).Unreachable?
    requires sleep == Min(delay, timeout - ended) && woken == ended + sleep + Over(w, |ends|)
    ensures Checking(w, timeout, initial, max, Min(delay * 2.0, max), woken, ends + [ended], sleeps + [sleep])
    ensures Left(timeout, initial, max, Min(delay * 2.0, max), woken, Sum(sleeps + [sleep]))
      < Left(timeout, initial, max, delay, now, Sum(sleeps))
  {
    hide Timeline, Backoff, Sum, FullDelays, Left, Delay, Sees, Took, Over, Woken, Progress, Min;
    SleepProgresses(timeout, initial, max, |ends|, delay, now, Sum(sleeps), ended, woken);
    TraceGrows(w, timeout, initial, max, delay, now, ends, sleeps, ended, sleep);
  }

  /** The wait ends for any positive delays. It sleeps at most `timeout` in total and checks at most
      twice more than the whole backoff delays that fit; it passes only on an empty plan, and gives
      up only after a check that still saw work and ended at or after the deadline. */
  method WaitForMigrations(timeout: real, initial: real, max: real, w: World)
    returns (outcome: Outcome, attempts: nat, sleeps: seq<real>, ends: seq<real>)
    requires initial > 0.0 && max > 0.0
    ensures timeout <= 0.0 <==> outcome == Skipped
    ensures attempts == |ends| && (timeout <= 0.0 ==> attempts == 0 && sleeps == [])
    ensures timeout > 0.0 ==> Waited(w, timeout, initial, max, ends, sleeps, outcome)
  {
    attempts, sleeps, ends := 0, [], [];
    if timeout <= 0.0 {
      return Skipped, 0, [], [];
    }
    var now := 0.0;
    var delay := initial;
    WaitStarts(w, timeout, initial, max);
    hide Checking, Waited, Left, Sum, Named, Min, Sees, Took, Over;
    while true
      invariant |ends| == |sleeps| == attempts && Checking(w, timeout, initial, max, delay, now, ends, sleeps)
      decreases Left(timeout, initial, max, delay, now, Sum(sleeps))
    {
      var plan := Sees(w, attempts);
      var ended := now + Took(w, attempts);
      outcome := if plan.Empty? then Passed else if plan.Failing? then Escaped else TimedOut(Named(plan));
      if plan.Empty? || plan.Failing? || ended >= timeout {
        CheckOver(w, timeout, initial, max, delay, now, ends, sleeps, outcome);
        ends := ends + [ended];
        return outcome, attempts + 1, sleeps, ends;
      }
      var sleepFor := Min(delay, timeout - ended);
      var woken := ended + sleepFor + Over(w, attempts);
      WaitsOn(w, timeout, initial, max, delay, now, ends, sleeps, ended, sleepFor, woken);
      attempts := attempts + 1;
      ends := ends + [ended];
      sleeps := sleeps + [sleepFor];
      now, delay := woken, Min(delay * 2.0, max);
    }
  }
}
