/** Interaction batches against a deadline, on a virtual clock counted in nanoseconds. Only evaluations and
    sleeps take time: an evaluation at most its timeout, a sleep exactly its length. */
module Deadline {
  import opened FrameShrink

  const MILLISECOND: nat := 1_000_000
  const POLL_INTERVAL: nat := 100 * MILLISECOND
  const CALLBACK_TIMEOUT_CAP: nat := 3_000 * MILLISECOND

  datatype ActionKind =
    | Click | Fill | PressKey | WaitForSelector | WaitForText | CheckSelector | CheckText

  /** What the web view does with one evaluation: answer after `delay`, or fail after it. */
  datatype Answer = Replied(ok: bool, code: StepCode) | EvaluationFailed
  datatype Evaluation = Evaluation(delay: nat, answer: Answer)

  /** The evaluations of a batch, in order. */
  type Page = nat -> Evaluation

  datatype Verdict = Verdict(ok: bool, code: StepCode)
  datatype Step = Step(index: nat, kind: ActionKind, verdict: Verdict, elapsedMs: nat)
  datatype Execution = Execution(completed: bool, actions: seq<Step>)

  const TIMEOUT := Verdict(false, TimedOut)

  /** `sanitize_script_result`: an answer whose flag and code disagree is a script error. */
  function Sanitized(a: Answer): (v: Verdict)
    ensures v.ok <==> a.Replied? && a.ok && a.code.StepOk?
    ensures v.ok <==> v.code.StepOk?
    ensures a.Replied? && (a.ok <==> a.code.StepOk?) ==> v == Verdict(a.ok, a.code)
  {
    if a.EvaluationFailed? || (a.ok != a.code.StepOk?) then Verdict(false, ScriptError) else Verdict(a.ok, a.code)
  }

  /** What an evaluation started with this much time reports. */
  function Reported(e: Evaluation, timeout: nat): Verdict {
    if e.delay > timeout then TIMEOUT else Sanitized(e.answer)
  }

  function Min(a: nat, b: nat): nat { if a <= b then a else b }

  predicate Waits(kind: ActionKind) { kind.WaitForSelector? || kind.WaitForText? }

  /** A wait goes on only after these. */
  predicate NotYet(v: Verdict) { v.code.SelectorNotFound? || v.code.TextNotFound? }

  /** The web view, the clock and the evaluations done so far. */
  datatype Clock = Clock(now: nat, evaluations: nat)

  // ---- what the page, the clock and the deadline determine ----

  function Evaluated(page: Page, c: Clock, timeout: nat): (Verdict, Clock) {
    var e := page(c.evaluations);
    (Reported(e, timeout), Clock(c.now + Min(e.delay, timeout), c.evaluations + 1))
  }

  function ForAction(page: Page, c: Clock, deadline: nat): (r: (Verdict, Clock))
    requires c.now <= deadline
    ensures c.now <= r.1.now <= deadline
  {
    if c.now == deadline then (TIMEOUT, c) else Evaluated(page, c, Min(CALLBACK_TIMEOUT_CAP, deadline - c.now))
  }

  /** A wait: poll at once; on "not yet" sleep 100 ms, or to the deadline, and poll again. */
  function Waited(page: Page, c: Clock, deadline: nat): (r: (Verdict, Clock))
    requires c.now <= deadline
    ensures c.now <= r.1.now <= deadline
    decreases deadline - c.now
  {
    if c.now == deadline then (TIMEOUT, c)
    else
      var (v, c1) := ForAction(page, c, deadline);
      if v.ok || !NotYet(v) then (v, c1)
      else if c1.now == deadline then (TIMEOUT, c1)
      else Waited(page, c1.(now := c1.now + Min(POLL_INTERVAL, deadline - c1.now)), deadline)
  }

  function Performed(page: Page, kind: ActionKind, c: Clock, deadline: nat): (r: (Verdict, Clock))
    requires c.now <= deadline
    ensures c.now <= r.1.now <= deadline
  {
    if c.now == deadline then (TIMEOUT, c)
    else if Waits(kind) then Waited(page, c, deadline)
    else ForAction(page, c, deadline)
  }

  /** The steps of the batch from action `index` on; the first failure is the last step. */
  function Batch(page: Page, actions: seq<ActionKind>, index: nat, c: Clock, deadline: nat): (seq<Step>, Clock)
    requires index <= |actions| && c.now <= deadline
    decreases |actions| - index
  {
    if index == |actions| then ([], c)
    else
      var (v, c1) := Performed(page, actions[index], c, deadline);
      var step := Step(index, actions[index], v, (c1.now - c.now) / MILLISECOND);
      if !v.ok then ([step], c1)
      else
        var (rest, c2) := Batch(page, actions, index + 1, c1, deadline);
        ([step] + rest, c2)
  }

  // ---- the loops ----

  method Evaluate(page: Page, c: Clock, timeout: nat) returns (v: Verdict, c1: Clock)
    ensures (v, c1) == Evaluated(page, c, timeout)
    ensures v == Reported(page(c.evaluations), timeout)
    ensures c.now <= c1.now <= c.now + timeout && c1.evaluations == c.evaluations + 1
  {
    var e := page(c.evaluations);
    v := if e.delay <= timeout then Sanitized(e.answer) else TIMEOUT;
    c1 := Clock(c.now + Min(e.delay, timeout), c.evaluations + 1);
  }

  method EvaluateForAction(page: Page, c: Clock, deadline: nat) returns (v: Verdict, c1: Clock)
    requires c.now <= deadline
    ensures (v, c1) == ForAction(page, c, deadline)
    ensures c.now <= c1.now <= deadline
    ensures c.now == deadline ==> v == TIMEOUT && c1 == c
    ensures c.now < deadline ==>
              c1.evaluations == c.evaluations + 1
              && v == Reported(page(c.evaluations), Min(CALLBACK_TIMEOUT_CAP, deadline - c.now))
    ensures v.ok <==> v.code.StepOk?
  {
    var remaining := deadline - c.now;
    if remaining == 0 {
      return TIMEOUT, c;
    }
    v, c1 := Evaluate(page, c, Min(CALLBACK_TIMEOUT_CAP, remaining));
  }

  /** Evaluation `k`, given some time, reports `v`. */
  ghost predicate EndedBy(page: Page, k: nat, v: Verdict) {
    exists timeout: nat :: timeout <= CALLBACK_TIMEOUT_CAP && v == Reported(page(k), timeout)
  }

  ghost predicate PollsSayNotYet(page: Page, from: nat, to: nat) {
    forall k :: from <= k < to ==> NotYet(Sanitized(page(k).answer))
  }

  /** All polls of a wait but the last said "not yet"; a wait that ends with anything but a timeout reports its last
      poll, and one that ends with a timeout is at the deadline or its last evaluation timed out. */
  ghost predicate WaitEnds(page: Page, c: Clock, deadline: nat, v: Verdict, c1: Clock) {
    && c.evaluations <= c1.evaluations && (v.ok <==> v.code.StepOk?)
    && (c.now < deadline ==> c1.evaluations > c.evaluations)
    && (c1.evaluations > c.evaluations ==> PollsSayNotYet(page, c.evaluations, c1.evaluations - 1))
    && (v != TIMEOUT ==> c1.evaluations > c.evaluations && !NotYet(v) && EndedBy(page, c1.evaluations - 1, v))
    && (v == TIMEOUT ==>
          c1.now == deadline || (c1.evaluations > c.evaluations && EndedBy(page, c1.evaluations - 1, TIMEOUT)))
  }

  /** One poll starts at least 100 ms after the one before it, and before the deadline. */
  ghost predicate PollsApart(c: Clock, deadline: nat, c1: Clock) {
    c1.evaluations > c.evaluations ==>
      && (c1.evaluations - c.evaluations - 1) * POLL_INTERVAL <= c1.now - c.now
      && (c1.evaluations - c.evaluations - 1) * POLL_INTERVAL < deadline - c.now
  }

  lemma {:induction false} WaitedEnds(page: Page, c: Clock, deadline: nat)
    requires c.now <= deadline
    ensures var (v, c1) := Waited(page, c, deadline); WaitEnds(page, c, deadline, v, c1)
    decreases deadline - c.now
  {
    if c.now < deadline {
      var (v, c1) := ForAction(page, c, deadline);
      assert EndedBy(page, c.evaluations, v);
      if !v.ok && NotYet(v) && c1.now < deadline {
        WaitedEnds(page, c1.(now := c1.now + Min(POLL_INTERVAL, deadline - c1.now)), deadline);
      }
    }
  }

  lemma OnePollMore(c: Clock, c2: Clock, c1: Clock, deadline: nat)
    requires c.now < deadline && c.now <= c2.now <= deadline && c2.evaluations == c.evaluations + 1 <= c1.evaluations
    requires if c2.now == deadline then c1 == c2 else c2.now >= c.now + POLL_INTERVAL
    requires PollsApart(c2, deadline, c1) && c2.now <= c1.now
    ensures PollsApart(c, deadline, c1)
  {
  }

  lemma {:induction false} WaitedApart(page: Page, c: Clock, deadline: nat)
    requires c.now <= deadline
    ensures var (v, c1) := Waited(page, c, deadline);
            PollsApart(c, deadline, c1) && c.evaluations <= c1.evaluations
    decreases deadline - c.now
  {
    hide Reported, Sanitized;
    if c.now < deadline {
      var (v, c1) := ForAction(page, c, deadline);
      if !v.ok && NotYet(v) && c1.now < deadline {
        var c2 := c1.(now := c1.now + Min(POLL_INTERVAL, deadline - c1.now));
        WaitedApart(page, c2, deadline);
        assert c2.now == deadline ==> Waited(page, c2, deadline).1 == c2;
        hide PollsApart;
        OnePollMore(c, c2, Waited(page, c2, deadline).1, deadline);
      }
    }
  }

  // ---- when a wait polls, and what it answers ----

  /** The answers after which a wait polls again. */
  predicate SaysNotYet(a: Answer) {
    a.Replied? && !a.ok && (a.code == SelectorNotFound || a.code == TextNotFound)
  }

  /** When poll `k` starts, if every poll before it says "not yet" in its time. */
  function PollTime(page: Page, c: Clock, k: nat): nat {
    if k == 0 then c.now else PollTime(page, c, k - 1) + page(c.evaluations + k - 1).delay + POLL_INTERVAL
  }

  /** The time poll `k` is given. */
  function TimeFor(page: Page, c: Clock, deadline: nat, k: nat): nat
    requires PollTime(page, c, k) <= deadline
  {
    Min(CALLBACK_TIMEOUT_CAP, deadline - PollTime(page, c, k))
  }

  /** Poll `k` is due before the deadline and says "not yet" in its time. */
  predicate PollsAgain(page: Page, c: Clock, deadline: nat, k: nat) {
    && PollTime(page, c, k) < deadline
    && page(c.evaluations + k).delay <= TimeFor(page, c, deadline, k)
    && SaysNotYet(page(c.evaluations + k).answer)
  }

  /** Every poll before poll `k` says "not yet", and poll `k` is due before the deadline. */
  ghost predicate ReachesPoll(page: Page, c: Clock, deadline: nat, k: nat) {
    PollTime(page, c, k) < deadline && forall i :: 0 <= i < k ==> PollsAgain(page, c, deadline, i)
  }

  /** Poll `k` is the last: it says something else, or no other is due before the deadline. */
  ghost predicate IsLastPoll(page: Page, c: Clock, deadline: nat, k: nat) {
    ReachesPoll(page, c, deadline, k) && (PollsAgain(page, c, deadline, k) ==> PollTime(page, c, k + 1) >= deadline)
  }

  /** What the wait makes of its last poll: it answers it as reported, when it is, and a timeout at the deadline if it
      still says "not yet". */
  ghost predicate AnswersPoll(page: Page, c: Clock, deadline: nat, k: nat, v: Verdict, c1: Clock)
    requires PollTime(page, c, k) < deadline
  {
    var e, time := page(c.evaluations + k), TimeFor(page, c, deadline, k);
    && c1.evaluations == c.evaluations + k + 1
    && if PollsAgain(page, c, deadline, k) then v == TIMEOUT && c1.now == deadline
       else v == Reported(e, time) && c1.now == PollTime(page, c, k) + Min(e.delay, time)
  }

  /** A wait started before the deadline has a last poll and answers that one. */
  ghost predicate AnswersLastPoll(page: Page, c: Clock, deadline: nat, v: Verdict, c1: Clock) {
    if c.now >= deadline then v == TIMEOUT && c1 == c
    else
      && (exists k :: IsLastPoll(page, c, deadline, k))
      && (forall k: nat :: IsLastPoll(page, c, deadline, k) ==> AnswersPoll(page, c, deadline, k, v, c1))
  }

  /** The first poll of a wait. */
  lemma {:induction false} WaitedStep(page: Page, c: Clock, deadline: nat)
    requires c.now < deadline
    ensures var e, time := page(c.evaluations), Min(CALLBACK_TIMEOUT_CAP, deadline - c.now);
            var next := Clock(c.now + e.delay + POLL_INTERVAL, c.evaluations + 1);
            Waited(page, c, deadline)
            == if !(e.delay <= time && SaysNotYet(e.answer))
               then (Reported(e, time), Clock(c.now + Min(e.delay, time), c.evaluations + 1))
               else if next.now >= deadline then (TIMEOUT, Clock(deadline, c.evaluations + 1))
               else Waited(page, next, deadline)
  {
  }

  /** A poll that is reached starts at its time: the wait goes on from there. */
  lemma {:induction false} WaitedFromPoll(page: Page, c: Clock, deadline: nat, k: nat)
    requires ReachesPoll(page, c, deadline, k)
    ensures c.now < deadline
    ensures Waited(page, c, deadline) == Waited(page, Clock(PollTime(page, c, k), c.evaluations + k), deadline)
  {
    hide Waited, SaysNotYet, Reported;
    if k > 0 {
      assert PollsAgain(page, c, deadline, k - 1);
      WaitedStep(page, Clock(PollTime(page, c, k - 1), c.evaluations + k - 1), deadline);
      WaitedFromPoll(page, c, deadline, k - 1);
      assert PollTime(page, c, k)
          == PollTime(page, c, k - 1) + page(c.evaluations + (k - 1)).delay + POLL_INTERVAL;
    }
  }

  lemma {:induction false} SomeLastPoll(page: Page, c: Clock, deadline: nat, k: nat)
    requires ReachesPoll(page, c, deadline, k)
    ensures exists m :: IsLastPoll(page, c, deadline, m)
    decreases deadline - PollTime(page, c, k)
  {
    if !IsLastPoll(page, c, deadline, k) {
      SomeLastPoll(page, c, deadline, k + 1);
    }
  }

  lemma {:induction false} AnsweredByPoll(page: Page, c: Clock, deadline: nat, k: nat)
    requires c.now <= deadline && IsLastPoll(page, c, deadline, k)
    ensures var (v, c1) := Waited(page, c, deadline); AnswersPoll(page, c, deadline, k, v, c1)
  {
    hide Waited, SaysNotYet, Reported;
    WaitedFromPoll(page, c, deadline, k);
    WaitedStep(page, Clock(PollTime(page, c, k), c.evaluations + k), deadline);
  }

  lemma {:induction false} WaitedAnswers(page: Page, c: Clock, deadline: nat)
    requires c.now <= deadline
    ensures var (v, c1) := Waited(page, c, deadline); AnswersLastPoll(page, c, deadline, v, c1)
  {
    if c.now < deadline {
      SomeLastPoll(page, c, deadline, 0);
      var (v, c1) := Waited(page, c, deadline);
      hide Waited, IsLastPoll, AnswersPoll;
      forall k: nat | IsLastPoll(page, c, deadline, k)
        ensures PollTime(page, c, k) < deadline && AnswersPoll(page, c, deadline, k, v, c1)
      {
        AnsweredByPoll(page, c, deadline, k);
        assert PollTime(page, c, k) < deadline by { LastPollIsDue(page, c, deadline, k); }
      }
    }
  }

  lemma LastPollIsDue(page: Page, c: Clock, deadline: nat, k: nat)
    requires IsLastPoll(page, c, deadline, k)
    ensures PollTime(page, c, k) < deadline
  {
  }

  /** Poll `k` is reached and says in its time that the condition holds. */
  ghost predicate SucceedsAt(page: Page, c: Clock, deadline: nat, k: nat) {
    && ReachesPoll(page, c, deadline, k)
    && page(c.evaluations + k).delay <= TimeFor(page, c, deadline, k)
    && page(c.evaluations + k).answer == Replied(true, StepOk)
  }

  /** The wait is successful if and only if the first poll that does not say "not yet" is. */
  lemma {:induction false} WaitSucceedsIff(page: Page, c: Clock, deadline: nat)
    requires c.now <= deadline
    ensures Waited(page, c, deadline).0.ok <==> exists k: nat :: SucceedsAt(page, c, deadline, k)
  {
    WaitedAnswers(page, c, deadline);
    hide Waited;
    if k: nat :| SucceedsAt(page, c, deadline, k) {
      AnsweredByPoll(page, c, deadline, k);
      assert Waited(page, c, deadline).0.ok;
    }
    if Waited(page, c, deadline).0.ok {
      var k :| IsLastPoll(page, c, deadline, k);
      assert SucceedsAt(page, c, deadline, k);
    }
  }

  function CeilingOfPolls(t: nat): nat { (t + POLL_INTERVAL - 1) / POLL_INTERVAL }

  lemma {:induction false} InstantPollTime(page: Page, c: Clock, k: nat)
    requires forall i :: page(i).delay == 0
    ensures PollTime(page, c, k) == c.now + k * POLL_INTERVAL
  {
    if k > 0 {
      InstantPollTime(page, c, k - 1);
    }
  }

  lemma {:induction false} InstantLastPoll(page: Page, c: Clock, deadline: nat, k: nat)
    requires forall i :: page(i).delay == 0 && SaysNotYet(page(i).answer)
    requires c.now + k * POLL_INTERVAL < deadline <= c.now + (k + 1) * POLL_INTERVAL
    ensures IsLastPoll(page, c, deadline, k) && PollsAgain(page, c, deadline, k)
  {
    forall i: nat
      ensures PollTime(page, c, i) == c.now + i * POLL_INTERVAL
    {
      InstantPollTime(page, c, i);
    }
    hide PollTime;
    assert PollTime(page, c, k + 1) >= deadline;
    forall i | 0 <= i <= k
      ensures PollsAgain(page, c, deadline, i)
    {
      assert PollTime(page, c, i) <= c.now + k * POLL_INTERVAL;
    }
  }

  /** A wait that is told "not yet" at once every time polls ceil(time / 100 ms) times and ends at the deadline. */
  lemma {:induction false} InstantPolls(page: Page, c: Clock, deadline: nat)
    requires c.now <= deadline && forall i :: page(i).delay == 0 && SaysNotYet(page(i).answer)
    ensures Waited(page, c, deadline)
            == (TIMEOUT, Clock(deadline, c.evaluations + CeilingOfPolls(deadline - c.now)))
  {
    if c.now < deadline {
      var k := CeilingOfPolls(deadline - c.now) - 1;
      InstantLastPoll(page, c, deadline, k);
      AnsweredByPoll(page, c, deadline, k);
      hide Waited, PollTime;
    }
  }

  ghost predicate IsWait(page: Page, c: Clock, deadline: nat, v: Verdict, c1: Clock) {
    && AnswersLastPoll(page, c, deadline, v, c1)
    && WaitEnds(page, c, deadline, v, c1)
    && PollsApart(c, deadline, c1)
  }

  lemma {:induction false} WaitedIsWait(page: Page, c: Clock, deadline: nat)
    requires c.now <= deadline
    ensures var (v, c1) := Waited(page, c, deadline); IsWait(page, c, deadline, v, c1)
  {
    WaitedAnswers(page, c, deadline);
    WaitedEnds(page, c, deadline);
    WaitedApart(page, c, deadline);
    hide Waited, AnswersLastPoll, WaitEnds, PollsApart;
  }

  /** Polls until the condition holds, something else goes wrong, or the deadline passes, exactly as the page and
      the clock determine. */
  method ExecuteWait(page: Page, c: Clock, deadline: nat) returns (v: Verdict, c1: Clock)
    requires c.now <= deadline
    ensures (v, c1) == Waited(page, c, deadline)
    ensures c.now <= c1.now <= deadline
    ensures IsWait(page, c, deadline, v, c1)
  {
    WaitedIsWait(page, c, deadline);
    hide IsWait, ForAction, Evaluated, Reported, Sanitized;
    c1 := c;
    while true
      invariant c1.now <= deadline
      invariant Waited(page, c1, deadline) == Waited(page, c, deadline)
      decreases deadline - c1.now
    {
      if c1.now >= deadline {
        return TIMEOUT, c1;
      }
      ghost var before := c1;
      v, c1 := EvaluateForAction(page, c1, deadline);
      if v.ok {
        return;
      }
      if !NotYet(v) {
        return;
      }
      var remaining := deadline - c1.now;
      if remaining == 0 {
        return TIMEOUT, c1;
      }
      c1 := c1.(now := c1.now + Min(POLL_INTERVAL, remaining));
      assert before.now < c1.now;
    }
  }

  /** What one action does to the clock, and what its success means. */
  ghost predicate ActionEnds(page: Page, kind: ActionKind, c: Clock, deadline: nat, v: Verdict, c1: Clock) {
    && c.evaluations <= c1.evaluations && (v.ok <==> v.code.StepOk?)
    && (c.now == deadline ==> v == TIMEOUT && c1 == c)
    && (c1.evaluations > c.evaluations ==>
          (c1.evaluations - c.evaluations - 1) * POLL_INTERVAL <= c1.now - c.now)
    && (Waits(kind) ==> IsWait(page, c, deadline, v, c1))
    && (!Waits(kind) && c.now < deadline ==>
          && c1.evaluations == c.evaluations + 1
          && v == Reported(page(c.evaluations), Min(CALLBACK_TIMEOUT_CAP, deadline - c.now)))
    && (v.ok ==> c1.evaluations > c.evaluations && Sanitized(page(c1.evaluations - 1).answer).ok)
  }

  lemma PerformedEnds(page: Page, kind: ActionKind, c: Clock, deadline: nat)
    requires c.now <= deadline
    ensures var (v, c1) := Performed(page, kind, c, deadline); ActionEnds(page, kind, c, deadline, v, c1)
  {
    hide AnswersLastPoll;
    if Waits(kind) {
      WaitedIsWait(page, c, deadline);
    }
  }

  method ExecuteAction(page: Page, kind: ActionKind, c: Clock, deadline: nat) returns (v: Verdict, c1: Clock)
    requires c.now <= deadline
    ensures (v, c1) == Performed(page, kind, c, deadline)
    ensures c.now <= c1.now <= deadline
    ensures ActionEnds(page, kind, c, deadline, v, c1)
  {
    PerformedEnds(page, kind, c, deadline);
    hide ActionEnds;
    if c.now >= deadline {
      return TIMEOUT, c;
    }
    if Waits(kind) {
      v, c1 := ExecuteWait(page, c, deadline);
    } else {
      v, c1 := EvaluateForAction(page, c, deadline);
    }
  }

  // ---- the batch ----

  /** The steps done from action `from` on: in order, one per action, all but the last successful. */
  ghost predicate StepsInOrder(steps: seq<Step>, actions: seq<ActionKind>, from: nat) {
    && from + |steps| <= |actions|
    && (forall i :: 0 <= i < |steps| ==> steps[i].index == from + i && steps[i].kind == actions[from + i])
    && (forall i :: 0 <= i < |steps| ==> (steps[i].verdict.ok <==> steps[i].verdict.code.StepOk?))
    && (forall i :: 0 <= i < |steps| - 1 ==> steps[i].verdict.ok)
    && (from + |steps| < |actions| ==> steps != [] && !steps[|steps| - 1].verdict.ok)
  }

  function Elapsed(steps: seq<Step>): nat {
    if steps == [] then 0 else steps[0].elapsedMs + Elapsed(steps[1..])
  }

  lemma {:induction false} BatchInOrder(page: Page, actions: seq<ActionKind>, index: nat, c: Clock, deadline: nat)
    requires index <= |actions| && c.now <= deadline
    ensures StepsInOrder(Batch(page, actions, index, c, deadline).0, actions, index)
    decreases |actions| - index
  {
    if index < |actions| {
      var (v, c1) := Performed(page, actions[index], c, deadline);
      PerformedEnds(page, actions[index], c, deadline);
      hide Performed, IsWait, Reported, Sanitized;
      if v.ok {
        BatchInOrder(page, actions, index + 1, c1, deadline);
      }
    }
  }

  /** The reported times fit the time the batch took, and evaluations the steps and the 100 ms polls. */
  ghost predicate InTime(steps: seq<Step>, c: Clock, c1: Clock, deadline: nat) {
    && c.now <= c1.now <= deadline && c.evaluations <= c1.evaluations
    && Elapsed(steps) * MILLISECOND <= c1.now - c.now
    && (c1.evaluations - c.evaluations) * POLL_INTERVAL <= |steps| * POLL_INTERVAL + (c1.now - c.now)
  }

  lemma OneStepInTime(page: Page, kind: ActionKind, step: Step, steps: seq<Step>, c: Clock, c1: Clock, c2: Clock,
                      deadline: nat)
    requires c.now <= c1.now <= deadline && step.elapsedMs == (c1.now - c.now) / MILLISECOND
    requires ActionEnds(page, kind, c, deadline, step.verdict, c1) && InTime(steps, c1, c2, deadline)
    ensures InTime([step] + steps, c, c2, deadline)
  {
    hide IsWait, Reported, Sanitized;
    assert ([step] + steps)[1..] == steps;
  }

  lemma {:induction false} BatchInTime(page: Page, actions: seq<ActionKind>, index: nat, c: Clock, deadline: nat)
    requires index <= |actions| && c.now <= deadline
    ensures var (steps, c1) := Batch(page, actions, index, c, deadline); InTime(steps, c, c1, deadline)
    decreases |actions| - index
  {
    if index < |actions| {
      var (v, c1) := Performed(page, actions[index], c, deadline);
      PerformedEnds(page, actions[index], c, deadline);
      hide Performed, ActionEnds, InTime;
      var step := Step(index, actions[index], v, (c1.now - c.now) / MILLISECOND);
      if v.ok {
        BatchInTime(page, actions, index + 1, c1, deadline);
        var (rest, c2) := Batch(page, actions, index + 1, c1, deadline);
        OneStepInTime(page, actions[index], step, rest, c, c1, c2, deadline);
      } else {
        NothingInTime(c1, deadline);
        OneStepInTime(page, actions[index], step, [], c, c1, c1, deadline);
        assert [step] + [] == [step];
      }
    } else {
      NothingInTime(c, deadline);
    }
  }

  lemma NothingInTime(c: Clock, deadline: nat)
    requires c.now <= deadline
    ensures InTime([], c, c, deadline)
  {
  }

  /** The step starts at `c`, reports what its action then answers, and ends at `c1`. */
  ghost predicate IsStep(page: Page, kind: ActionKind, deadline: nat, step: Step, c: Clock, c1: Clock) {
    && c.now <= deadline && c.now <= c1.now
    && (step.verdict, c1) == Performed(page, kind, c, deadline)
    && step.elapsedMs == (c1.now - c.now) / MILLISECOND
  }

  /** Each step starts where the one before it ended: `clocks` are the moments between the steps. */
  ghost predicate IsTrace(page: Page, actions: seq<ActionKind>, index: nat, deadline: nat, steps: seq<Step>,
                          clocks: seq<Clock>, c: Clock, c1: Clock)
  {
    && index + |steps| <= |actions| && |clocks| == |steps| + 1 && clocks[0] == c && clocks[|steps|] == c1
    && forall i :: 0 <= i < |steps| ==>
         IsStep(page, actions[index + i], deadline, steps[i], clocks[i], clocks[i + 1])
  }

  lemma TraceBegins(page: Page, actions: seq<ActionKind>, index: nat, deadline: nat, step: Step, steps: seq<Step>,
                    clocks: seq<Clock>, c: Clock, c1: Clock, c2: Clock)
    requires index < |actions| && IsStep(page, actions[index], deadline, step, c, c1)
    requires IsTrace(page, actions, index + 1, deadline, steps, clocks, c1, c2)
    ensures IsTrace(page, actions, index, deadline, [step] + steps, [c] + clocks, c, c2)
  {
    hide IsStep;
    forall i | 0 <= i < |[step] + steps|
      ensures IsStep(page, actions[index + i], deadline, ([step] + steps)[i], ([c] + clocks)[i], ([c] + clocks)[i + 1])
    {
      if i > 0 {
        assert IsStep(page, actions[index + 1 + (i - 1)], deadline, steps[i - 1], clocks[i - 1], clocks[i - 1 + 1]);
      }
    }
  }

  lemma {:induction false} BatchTraced(page: Page, actions: seq<ActionKind>, index: nat, c: Clock, deadline: nat)
    returns (clocks: seq<Clock>)
    requires index <= |actions| && c.now <= deadline
    ensures var (steps, c1) := Batch(page, actions, index, c, deadline);
            IsTrace(page, actions, index, deadline, steps, clocks, c, c1)
    decreases |actions| - index
  {
    hide Performed, IsTrace;
    if index == |actions| {
      clocks := [c];
      NoTrace(page, actions, index, deadline, c);
    } else {
      var (v, c1) := Performed(page, actions[index], c, deadline);
      var step := Step(index, actions[index], v, (c1.now - c.now) / MILLISECOND);
      if v.ok {
        var later := BatchTraced(page, actions, index + 1, c1, deadline);
        var (rest, c2) := Batch(page, actions, index + 1, c1, deadline);
        TraceBegins(page, actions, index, deadline, step, rest, later, c, c1, c2);
        clocks := [c] + later;
      } else {
        NoTrace(page, actions, index + 1, deadline, c1);
        TraceBegins(page, actions, index, deadline, step, [], [c1], c, c1, c1);
        clocks := [c] + [c1];
        assert [step] + [] == [step];
      }
    }
  }

  lemma NoTrace(page: Page, actions: seq<ActionKind>, index: nat, deadline: nat, c: Clock)
    requires index <= |actions|
    ensures IsTrace(page, actions, index, deadline, [], [c], c, c)
  {
  }

  lemma BatchBounds(elapsed: nat, took: nat, timeoutMs: nat, evaluations: nat, steps: nat)
    requires elapsed * MILLISECOND <= took <= timeoutMs * MILLISECOND
    requires evaluations * POLL_INTERVAL <= steps * POLL_INTERVAL + took
    ensures elapsed <= timeoutMs && evaluations <= steps + timeoutMs / 100
  {
  }

  /** The loop of `execute`. */
  method RunBatch(page: Page, actions: seq<ActionKind>, c: Clock, deadline: nat) returns (results: seq<Step>, c1: Clock)
    requires c.now <= deadline
    ensures (results, c1) == Batch(page, actions, 0, c, deadline)
  {
    hide Performed, ActionEnds;
    ghost var batch := Batch(page, actions, 0, c, deadline);
    results, c1 := [], c;
    var index := 0;
    var stop := false;
    assert [] + batch.0 == batch.0;
    while index < |actions| && !stop
      invariant 0 <= index <= |actions| && c1.now <= deadline
      invariant stop ==> batch == (results, c1)
      invariant !stop ==>
                  batch.0 == results + Batch(page, actions, index, c1, deadline).0
                  && batch.1 == Batch(page, actions, index, c1, deadline).1
    {
      var started := c1;
      var v;
      v, c1 := ExecuteAction(page, actions[index], c1, deadline);
      var elapsedMs := (c1.now - started.now) / MILLISECOND;
      var step := Step(index, actions[index], v, elapsedMs);
      assert v.ok ==> results + ([step] + Batch(page, actions, index + 1, c1, deadline).0)
                      == results + [step] + Batch(page, actions, index + 1, c1, deadline).0;
      results := results + [step];
      index := index + 1;
      stop := !v.ok;
    }
    assert results + [] == results;
  }

  /** `execute`: the batch is the one the page and the clock determine. It ends by its deadline; the steps are an
      ordered prefix of the actions, all but the last successful, cut short only by a failure; `completed` says
      every action succeeded; the reported times add up to no more than the batch took; and there are at most as
      many evaluations as steps and 100 ms polls. */
  method Execute(page: Page, actions: seq<ActionKind>, timeoutMs: nat, c: Clock) returns (r: Execution, c1: Clock)
    ensures (r.actions, c1) == Batch(page, actions, 0, c, c.now + timeoutMs * MILLISECOND)
    ensures c.now <= c1.now <= c.now + timeoutMs * MILLISECOND
    ensures StepsInOrder(r.actions, actions, 0)
    ensures var deadline := c.now + timeoutMs * MILLISECOND;
            exists clocks :: IsTrace(page, actions, 0, deadline, r.actions, clocks, c, c1)
    ensures r.completed <==> |r.actions| == |actions| && forall i :: 0 <= i < |actions| ==> r.actions[i].verdict.ok
    ensures Elapsed(r.actions) <= timeoutMs
    ensures c.evaluations <= c1.evaluations <= c.evaluations + |r.actions| + timeoutMs / 100
  {
    var deadline := c.now + timeoutMs * MILLISECOND;
    var results;
    results, c1 := RunBatch(page, actions, c, deadline);
    BatchInOrder(page, actions, 0, c, deadline);
    BatchInTime(page, actions, 0, c, deadline);
    ghost var clocks := BatchTraced(page, actions, 0, c, deadline);
    hide Batch, Elapsed, IsTrace, IsWait, Performed;
    assert IsTrace(page, actions, 0, deadline, results, clocks, c, c1);
    BatchBounds(Elapsed(results), c1.now - c.now, timeoutMs, c1.evaluations - c.evaluations, |results|);
    r := Execution(|results| == |actions| && forall i :: 0 <= i < |results| ==> results[i].verdict.ok, results);
  }
}
