/** throttledInvalidate of ui/window.go as a protocol: callers and timers under one mutex, every step of
    any of them interleaved with the others and with the clock. */
module Throttles {
  import opened Basics

  /** reloadMinInterval, in milliseconds. */
  const INTERVAL: int := 50

  /** Where a goroutine is.  The first six are places of a caller, the others of a timer. */
  datatype Place =
    | Calling                    // about to lock
    | Locked                     // holds the mutex, about to test pending
    | Measured(wait: int)        // holds the mutex, has read the clock
    | Granted                    // has set last and unlocked, about to invalidate
    | Arming(wait: int)          // has set pending and unlocked, about to start the timer
    | Finished
    | Armed(deadline: int)       // the timer runs
    | Fired                      // the timer has gone off, about to lock
    | TimerLocked                // holds the mutex, about to set last
    | TimerStamped               // holds the mutex, about to clear pending and unlock
    | TimerReleased              // has unlocked, about to invalidate

  /** Places of a goroutine that will call invalidate, or start one that will. */
  predicate WillInvalidate(p: Place) {
    p.Granted? || p.Arming? || p.Armed? || p.Fired? || p.TimerLocked? || p.TimerStamped? || p.TimerReleased?
  }

  predicate HoldsMutex(p: Place) {
    p.Locked? || p.Measured? || p.TimerLocked? || p.TimerStamped?
  }

  /** Places between setting pending and clearing it. */
  predicate IsPending(p: Place) {
    p.Arming? || p.Armed? || p.Fired? || p.TimerLocked? || p.TimerStamped?
  }

  /** A call of the throttled function: when it was made, by which goroutine, and how many invalidations
      had started by then. */
  datatype Req = Req(time: int, task: nat, seen: nat)

  /** `last` and `pending` are the captured variables; goroutines are numbered in order of appearance.
      The rest is history: the times of the grants (assignments of last), the requests, and the times at
      which invalidations start. */
  datatype State = State(now: int, last: int, pending: bool, tasks: seq<Place>,
                         grants: seq<int>, requests: seq<Req>, invalidations: seq<int>)

  /** The zero time is longer ago than any interval. */
  predicate Initial(s: State) {
    && s.last + INTERVAL <= s.now && !s.pending && s.tasks == []
    && s.grants == [] && s.requests == [] && s.invalidations == []
  }

  predicate MutexFree(s: State) {
    forall i :: 0 <= i < |s.tasks| ==> !HoldsMutex(s.tasks[i])
  }

  datatype Step =
    | Tick(elapsed: nat)   // time passes
    | Request              // someone calls the throttled function
    | Run(i: nat)          // goroutine i takes its next step

  /** Goroutine `i` can move: the mutex is free if it needs it, and a running timer is due. */
  predicate Enabled(s: State, step: Step) {
    match step
    case Tick(_) => true
    case Request => true
    case Run(i) =>
      && i < |s.tasks| && s.tasks[i] != Finished
      && (s.tasks[i].Calling? || s.tasks[i].Fired? ==> MutexFree(s))
      && (s.tasks[i].Armed? ==> s.tasks[i].deadline <= s.now)
  }

  function At(s: State, i: nat, p: Place): State
    requires i < |s.tasks|
  {
    s.(tasks := s.tasks[i := p])
  }

  function Next(s: State, step: Step): State
    requires Enabled(s, step)
  {
    match step
    case Tick(elapsed) => s.(now := s.now + elapsed)
    case Request =>
      s.(tasks := s.tasks + [Calling], requests := s.requests + [Req(s.now, |s.tasks|, |s.invalidations|)])
    case Run(i) =>
      match s.tasks[i]
      case Calling => At(s, i, Locked)
      case Locked => if s.pending then At(s, i, Finished) else At(s, i, Measured(INTERVAL - (s.now - s.last)))
      case Measured(wait) =>
        if wait <= 0 then
          At(s, i, Granted).(last := s.now, grants := s.grants + [s.now])
        else
          At(s, i, Arming(wait)).(pending := true)
      case Granted => At(s, i, Finished).(invalidations := s.invalidations + [s.now])
      case Arming(wait) => s.(tasks := s.tasks[i := Finished] + [Armed(s.now + wait)])
      case Armed(_) => At(s, i, Fired)
      case Fired => At(s, i, TimerLocked)
      case TimerLocked => At(s, i, TimerStamped).(last := s.now, grants := s.grants + [s.now])
      case TimerStamped => At(s, i, TimerReleased).(pending := false)
      case TimerReleased => At(s, i, Finished).(invalidations := s.invalidations + [s.now])
      case Finished => s
  }

  // ---------------------------------------------------------------- what every step keeps

  /** No two goroutines hold the mutex. */
  ghost predicate Exclusive(s: State) {
    forall i, j :: 0 <= i < j < |s.tasks| ==> !(HoldsMutex(s.tasks[i]) && HoldsMutex(s.tasks[j]))
  }

  /** pending is set exactly while one goroutine is between setting and clearing it, and there is never
      a second one. */
  ghost predicate OneTimer(s: State) {
    && (s.pending <==> exists i :: 0 <= i < |s.tasks| && IsPending(s.tasks[i]))
    && (forall i, j :: 0 <= i < j < |s.tasks| ==> !(IsPending(s.tasks[i]) && IsPending(s.tasks[j])))
  }

  /** What each place knows about the time of the last grant. */
  ghost predicate Timed(s: State) {
    && s.last <= s.now
    && forall i :: 0 <= i < |s.tasks| ==> TimedAt(s, s.tasks[i])
  }

  predicate TimedAt(s: State, p: Place) {
    match p
    case Measured(wait) => !s.pending && s.last + INTERVAL <= s.now + wait
    case Arming(wait) => s.last + INTERVAL <= s.now + wait
    case Armed(deadline) => s.last + INTERVAL <= deadline
    case Fired => s.last + INTERVAL <= s.now
    case TimerLocked => s.last + INTERVAL <= s.now
    case _ => true
  }

  /** Grants come in order, each at least the interval after the one before; the newest is last. */
  ghost predicate Spaced(s: State) {
    && (forall k :: 0 < k < |s.grants| ==> s.grants[k - 1] + INTERVAL <= s.grants[k])
    && (s.grants != [] ==> s.last == s.grants[|s.grants| - 1])
  }

  predicate Undecided(p: Place) {
    p.Calling? || p.Locked? || p.Measured?
  }

  /** An invalidation has started after the request was made. */
  ghost predicate Served(s: State, r: Req) {
    exists n :: r.seen <= n < |s.invalidations| && r.time <= s.invalidations[n]
  }

  ghost predicate InvalidationUnderway(s: State) {
    exists i :: 0 <= i < |s.tasks| && WillInvalidate(s.tasks[i])
  }

  /** What is recorded of a request lies in the past. */
  predicate Recorded(s: State, r: Req) {
    r.time <= s.now && r.task < |s.tasks| && r.seen <= |s.invalidations|
  }

  /** Every request has been served by an invalidation that started after it, is still being made, or some
      goroutine is on its way to an invalidation. */
  ghost predicate Answered(s: State) {
    forall k :: 0 <= k < |s.requests| ==>
      && Recorded(s, s.requests[k])
      && (Served(s, s.requests[k]) || Undecided(s.tasks[s.requests[k].task]) || InvalidationUnderway(s))
  }

  ghost predicate Inv(s: State) {
    Exclusive(s) && OneTimer(s) && Timed(s) && Spaced(s) && Answered(s)
  }

  /** The mutex is handed to nobody but a goroutine that finds it free. */
  lemma HolderBefore(s: State, step: Step, i: nat)
    requires Enabled(s, step) && i < |Next(s, step).tasks|
    ensures HoldsMutex(Next(s, step).tasks[i]) ==>
              i < |s.tasks| && (HoldsMutex(s.tasks[i]) || (step == Run(i) && MutexFree(s)))
  {
  }

  lemma ExclusiveStep(s: State, step: Step)
    requires Exclusive(s) && Enabled(s, step)
    ensures Exclusive(Next(s, step))
  {
    var s' := Next(s, step);
    hide Next;
    forall i, j | 0 <= i < j < |s'.tasks|
      ensures !(HoldsMutex(s'.tasks[i]) && HoldsMutex(s'.tasks[j]))
    {
      HolderBefore(s, step, i);
      HolderBefore(s, step, j);
    }
  }

  /** A goroutine comes between setting pending and clearing it from a test that found it clear, or as
      the timer that takes over from the caller. */
  lemma PendingBefore(s: State, step: Step, i: nat)
    requires Timed(s) && Enabled(s, step) && i < |Next(s, step).tasks|
    ensures IsPending(Next(s, step).tasks[i]) ==>
              || (i < |s.tasks| && IsPending(s.tasks[i]) && !(step == Run(i) && s.tasks[i].Arming?))
              || (i < |s.tasks| && step == Run(i) && !s.pending)
              || (i == |s.tasks| && step.Run? && s.tasks[step.i].Arming?)
  {
    if step.Run? {
      assert TimedAt(s, s.tasks[step.i]);
    }
  }

  lemma AtMostOneTimer(s: State, step: Step)
    requires OneTimer(s) && Timed(s) && Enabled(s, step)
    ensures var s' := Next(s, step);
            forall i, j :: 0 <= i < j < |s'.tasks| ==> !(IsPending(s'.tasks[i]) && IsPending(s'.tasks[j]))
  {
    var s' := Next(s, step);
    hide Next;
    forall i, j | 0 <= i < j < |s'.tasks|
      ensures !(IsPending(s'.tasks[i]) && IsPending(s'.tasks[j]))
    {
      PendingBefore(s, step, i);
      PendingBefore(s, step, j);
    }
  }

  lemma OneTimerStep(s: State, step: Step)
    requires Exclusive(s) && OneTimer(s) && Timed(s) && Enabled(s, step)
    ensures OneTimer(Next(s, step))
  {
    AtMostOneTimer(s, step);
    var s' := Next(s, step);
    match step {
      case Tick(_) =>
      case Request =>
        if i :| 0 <= i < |s.tasks| && IsPending(s.tasks[i]) {
          assert IsPending(s'.tasks[i]);
        }
      case Run(i) =>
        if s.pending {
          var j :| 0 <= j < |s.tasks| && IsPending(s.tasks[j]);
          if s.tasks[i].Arming? {
            assert IsPending(s'.tasks[|s.tasks|]);
          } else if !s.tasks[i].TimerStamped? {
            assert IsPending(s'.tasks[j]);
          }
        } else if s'.pending {
          assert IsPending(s'.tasks[i]);
        }
    }
  }

  lemma TimedStep(s: State, step: Step)
    requires Exclusive(s) && OneTimer(s) && Timed(s) && Enabled(s, step)
    ensures Timed(Next(s, step))
  {
    var s' := Next(s, step);
    forall j | 0 <= j < |s'.tasks|
      ensures TimedAt(s', s'.tasks[j])
    {
      if j < |s.tasks| {
        assert TimedAt(s, s.tasks[j]);
      }
      if step.Run? {
        assert TimedAt(s, s.tasks[step.i]);
      }
    }
  }

  lemma SpacedStep(s: State, step: Step)
    requires Timed(s) && Spaced(s) && Enabled(s, step)
    ensures Spaced(Next(s, step))
  {
    if step.Run? {
      assert TimedAt(s, s.tasks[step.i]);
    }
  }

  lemma AnsweredStep(s: State, step: Step)
    requires OneTimer(s) && Answered(s) && Enabled(s, step)
    ensures Answered(Next(s, step))
  {
    var s' := Next(s, step);
    forall k | 0 <= k < |s'.requests|
      ensures && Recorded(s', s'.requests[k])
              && (Served(s', s'.requests[k]) || Undecided(s'.tasks[s'.requests[k].task]) || InvalidationUnderway(s'))
    {
      if k < |s.requests| {
        AnsweredStaysAnswered(s, step, s.requests[k]);
      }
    }
  }

  lemma PendingIsUnderway(s: State)
    requires OneTimer(s) && s.pending
    ensures InvalidationUnderway(s)
  {
    var j :| 0 <= j < |s.tasks| && IsPending(s.tasks[j]);
    assert WillInvalidate(s.tasks[j]);
  }

  lemma AnsweredStaysAnswered(s: State, step: Step, r: Req)
    requires OneTimer(s) && Enabled(s, step) && Recorded(s, r)
    requires Served(s, r) || Undecided(s.tasks[r.task]) || InvalidationUnderway(s)
    ensures var s' := Next(s, step);
            Recorded(s', r) && (Served(s', r) || Undecided(s'.tasks[r.task]) || InvalidationUnderway(s'))
  {
    var s' := Next(s, step);
    if s.pending {
      PendingIsUnderway(s);
    }
    if Served(s, r) {
      var n :| r.seen <= n < |s.invalidations| && r.time <= s.invalidations[n];
      assert s'.invalidations[n] == s.invalidations[n];
    } else if step.Run? && |s'.invalidations| > |s.invalidations| {
      assert s'.invalidations[|s.invalidations|] == s.now;
    } else if InvalidationUnderway(s) {
      UnderwayStaysUnderway(s, step);
    } else if step.Run? && step.i == r.task && s.tasks[r.task].Measured? {
      assert WillInvalidate(s'.tasks[r.task]);
    }
  }

  lemma UnderwayStaysUnderway(s: State, step: Step)
    requires Enabled(s, step) && InvalidationUnderway(s)
    requires |Next(s, step).invalidations| == |s.invalidations|
    ensures InvalidationUnderway(Next(s, step))
  {
    var s' := Next(s, step);
    var j :| 0 <= j < |s.tasks| && WillInvalidate(s.tasks[j]);
    if step.Run? && s.tasks[step.i].Arming? {
      assert WillInvalidate(s'.tasks[|s.tasks|]);
    } else {
      assert WillInvalidate(s'.tasks[j]);
    }
  }

  lemma InvStep(s: State, step: Step)
    requires Inv(s) && Enabled(s, step)
    ensures Inv(Next(s, step))
  {
    ExclusiveStep(s, step);
    OneTimerStep(s, step);
    TimedStep(s, step);
    SpacedStep(s, step);
    AnsweredStep(s, step);
  }

  // ---------------------------------------------------------------- whole runs

  /** Every step of the run is possible when its turn comes. */
  predicate Possible(s: State, steps: seq<Step>)
    decreases |steps|
  {
    steps == [] || (Enabled(s, steps[0]) && Possible(Next(s, steps[0]), steps[1..]))
  }

  function After(s: State, steps: seq<Step>): State
    requires Possible(s, steps)
    decreases |steps|
  {
    if steps == [] then s else After(Next(s, steps[0]), steps[1..])
  }

  lemma {:induction false} InvAlways(s: State, steps: seq<Step>)
    requires Inv(s) && Possible(s, steps)
    ensures Inv(After(s, steps))
    decreases |steps|
  {
    if steps != [] {
      InvStep(s, steps[0]);
      InvAlways(Next(s, steps[0]), steps[1..]);
    }
  }

  /** However callers, timers and clock interleave: granted redraws are at least the interval apart, and
      at most one timer is outstanding. */
  lemma ThrottleIsSafe(s: State, steps: seq<Step>)
    requires Initial(s) && Possible(s, steps)
    ensures var e := After(s, steps);
            && (forall k :: 0 < k < |e.grants| ==> e.grants[k - 1] + INTERVAL <= e.grants[k])
            && (forall i, j :: 0 <= i < j < |e.tasks| ==> !(IsPending(e.tasks[i]) && IsPending(e.tasks[j])))
            && (forall i, j :: 0 <= i < j < |e.tasks| ==> !(HoldsMutex(e.tasks[i]) && HoldsMutex(e.tasks[j])))
  {
    InvAlways(s, steps);
  }

  predicate Quiescent(s: State) {
    forall i :: 0 <= i < |s.tasks| ==> s.tasks[i] == Finished
  }

  /** A run can be cut at any step, and its history only grows. */
  lemma {:induction false} CutAt(s: State, steps: seq<Step>, n: nat)
    requires Possible(s, steps) && n <= |steps|
    ensures Possible(s, steps[..n]) && Possible(After(s, steps[..n]), steps[n..])
    ensures After(After(s, steps[..n]), steps[n..]) == After(s, steps)
    ensures After(s, steps[..n]).requests <= After(s, steps).requests
    ensures After(s, steps[..n]).invalidations <= After(s, steps).invalidations
    decreases |steps|
  {
    if n == 0 {
      assert steps[..0] == [] && steps[0..] == steps;
      HistoryGrows(s, steps);
    } else {
      assert steps[..n][1..] == steps[1..][..n - 1] && steps[1..][n - 1..] == steps[n..];
      CutAt(Next(s, steps[0]), steps[1..], n - 1);
    }
  }

  lemma {:induction false} HistoryGrows(s: State, steps: seq<Step>)
    requires Possible(s, steps)
    ensures s.requests <= After(s, steps).requests && s.invalidations <= After(s, steps).invalidations
    decreases |steps|
  {
    if steps != [] {
      HistoryGrows(Next(s, steps[0]), steps[1..]);
    }
  }

  /** When everything has come to rest, every request made in the run, at whatever step, has been followed
      by an invalidation: one that starts after that step, and no earlier than the clock then read. */
  lemma NoRequestIsLost(s: State, steps: seq<Step>, n: nat)
    requires Initial(s) && Possible(s, steps) && Quiescent(After(s, steps))
    requires n < |steps| && steps[n] == Request
    ensures Possible(s, steps[..n]) && After(s, steps[..n]).invalidations <= After(s, steps).invalidations
    ensures var asked, end := After(s, steps[..n]), After(s, steps);
            exists m :: |asked.invalidations| <= m < |end.invalidations| && asked.now <= end.invalidations[m]
  {
    CutAt(s, steps, n);
    var asked, end := After(s, steps[..n]), After(s, steps);
    var made := Next(asked, Request);
    assert steps[n..][0] == Request;
    HistoryGrows(made, steps[n..][1..]);
    InvAlways(s, steps);
    var k := |asked.requests|;
    assert end.requests[k] == made.requests[k] == Req(asked.now, |asked.tasks|, |asked.invalidations|);
    assert Served(end, end.requests[k]);
  }

  // ---------------------------------------------------------------- how long a request waits

  function Times(step: Step, n: nat): seq<Step> {
    if n == 0 then [] else [step] + Times(step, n - 1)
  }

  lemma TimesMore(s: State, step: Step, n: nat)
    requires Enabled(s, step) && Possible(Next(s, step), Times(step, n))
    ensures Possible(s, Times(step, n + 1)) && After(s, Times(step, n + 1)) == After(Next(s, step), Times(step, n))
  {
    StepFirst(s, step, Times(step, n));
  }

  /** A caller that nobody holds up: in the quiet it is granted and invalidates at once, otherwise it leaves a timer
      that goes off exactly the interval after the last grant. */
  lemma CallerRuns(s: State, i: nat)
    requires i < |s.tasks| && s.tasks[i] == Calling && MutexFree(s) && !s.pending
    ensures Possible(s, Times(Run(i), 4))
    ensures After(s, Times(Run(i), 4))
         == if s.last + INTERVAL <= s.now then
              s.(tasks := s.tasks[i := Finished], last := s.now, grants := s.grants + [s.now],
                 invalidations := s.invalidations + [s.now])
            else
              s.(tasks := s.tasks[i := Finished] + [Armed(s.last + INTERVAL)], pending := true)
  {
    var s1 := Next(s, Run(i));
    var s2 := Next(s1, Run(i));
    var s3 := Next(s2, Run(i));
    var s4 := Next(s3, Run(i));
    assert s1.tasks[i] == Locked && s2.tasks[i] == Measured(INTERVAL - (s.now - s.last));
    assert s4.tasks[..|s.tasks|] == s.tasks[i := Finished];
    FourTimes(s, Run(i));
  }

  lemma FourTimes(s: State, step: Step)
    requires Enabled(s, step) && Enabled(Next(s, step), step) && Enabled(Next(Next(s, step), step), step)
    requires Enabled(Next(Next(Next(s, step), step), step), step)
    ensures Possible(s, Times(step, 4))
    ensures After(s, Times(step, 4)) == Next(Next(Next(Next(s, step), step), step), step)
  {
    hide Next, Enabled;
    var s1 := Next(s, step);
    var s2 := Next(s1, step);
    var s3 := Next(s2, step);
    var s4 := Next(s3, step);
    assert Possible(s4, Times(step, 0)) && After(s4, Times(step, 0)) == s4;
    TimesMore(s3, step, 0);
    TimesMore(s2, step, 1);
    TimesMore(s1, step, 2);
    TimesMore(s, step, 3);
  }

  /** A timer that is due and that nobody holds up invalidates at once. */
  lemma TimerRuns(s: State, i: nat)
    requires i < |s.tasks| && s.tasks[i].Armed? && s.tasks[i].deadline <= s.now && MutexFree(s)
    ensures Possible(s, Times(Run(i), 5))
    ensures After(s, Times(Run(i), 5))
         == s.(tasks := s.tasks[i := Finished], last := s.now, pending := false, grants := s.grants + [s.now],
               invalidations := s.invalidations + [s.now])
  {
    var s1 := Next(s, Run(i));
    var s2 := Next(s1, Run(i));
    var s3 := Next(s2, Run(i));
    var s4 := Next(s3, Run(i));
    assert s1.tasks == s.tasks[i := Fired] && s4.tasks == s.tasks[i := TimerReleased];
    FourTimes(s1, Run(i));
    TimesMore(s, Run(i), 4);
  }

  /** The steps of a request alone: the caller's, and the timer's as soon as it is due. */
  function Alone(s: State): seq<Step> {
    [Request] + Times(Run(|s.tasks|), 4)
    + if s.last + INTERVAL <= s.now then []
      else [Tick(s.last + INTERVAL - s.now)] + Times(Run(|s.tasks| + 1), 5)
  }

  /** A request alone is served at once when the interval has passed since the last grant, otherwise exactly when it
      has, and by one invalidation. */
  lemma ServedOnTime(s: State)
    requires Quiescent(s) && !s.pending
    ensures Possible(s, Alone(s))
    ensures var end := After(s, Alone(s));
            && end.now == end.last == Max(s.now, s.last + INTERVAL) && !end.pending && Quiescent(end)
            && end.invalidations == s.invalidations + [Max(s.now, s.last + INTERVAL)]
  {
    var n, asked := |s.tasks|, Next(s, Request);
    CallerRuns(asked, n);
    StepFirst(s, Request, Times(Run(n), 4));
    var first := [Request] + Times(Run(n), 4);
    var waiting := After(s, first);
    hide Times, Possible, After;
    if s.last + INTERVAL <= s.now {
      assert Alone(s) == first;
    } else {
      var tick := Tick(s.last + INTERVAL - s.now);
      assert waiting.tasks == asked.tasks[n := Finished] + [Armed(s.last + INTERVAL)];
      TimerRuns(Next(waiting, tick), n + 1);
      StepFirst(waiting, tick, Times(Run(n + 1), 5));
      RunGoesOn(s, first, [tick] + Times(Run(n + 1), 5));
    }
  }

  lemma RunSplits(s: State, a: seq<Step>, b: seq<Step>)
    requires Possible(s, a + b)
    ensures Possible(s, a) && Possible(After(s, a), b) && After(s, a + b) == After(After(s, a), b)
  {
    CutAt(s, a + b, |a|);
    assert (a + b)[..|a|] == a && (a + b)[|a|..] == b;
  }

  /** Steps of others leave a goroutine where it is, and the last grant as well while it decides or arms. */
  lemma {:induction false} OthersStep(s: State, i: nat, steps: seq<Step>)
    requires Inv(s) && i < |s.tasks| && Possible(s, steps) && Run(i) !in steps
    ensures i < |After(s, steps).tasks| && After(s, steps).tasks[i] == s.tasks[i]
    ensures s.tasks[i].Measured? || s.tasks[i].Arming? ==> After(s, steps).last == s.last
    ensures Inv(After(s, steps))
    decreases |steps|
  {
    if steps != [] {
      assert steps[0] in steps;
      OtherStep(s, i, steps[0]);
      InvStep(s, steps[0]);
      hide Inv, Next, Enabled;
      OthersStep(Next(s, steps[0]), i, steps[1..]);
    }
  }

  lemma OtherStep(s: State, i: nat, step: Step)
    requires Inv(s) && i < |s.tasks| && Enabled(s, step) && step != Run(i)
    ensures i < |Next(s, step).tasks| && Next(s, step).tasks[i] == s.tasks[i]
    ensures s.tasks[i].Measured? || s.tasks[i].Arming? ==> Next(s, step).last == s.last
  {
    if step.Run? {
      assert TimedAt(s, s.tasks[step.i]);
      assert s.tasks[i].Arming? ==> IsPending(s.tasks[i]);
    }
  }

  /** Whatever else happens between its steps, a caller that finds no timer pending makes the invalidation itself if
      the interval has passed, and otherwise starts a timer that goes off the interval after the last grant and as
      much later as it took from reading the clock to starting it. */
  lemma WaitIsExact(s: State, i: nat, a: seq<Step>, b: seq<Step>)
    requires Inv(s) && i < |s.tasks| && s.tasks[i] == Locked && !s.pending && Run(i) !in a + b
    requires Possible(s, [Run(i)] + (a + ([Run(i)] + (b + [Run(i)]))))
    ensures var end := After(s, [Run(i)] + (a + ([Run(i)] + (b + [Run(i)]))));
            if s.last + INTERVAL <= s.now then
              end.invalidations != [] && Last(end.invalidations) == end.now
            else
              && end.tasks != [] && Last(end.tasks) == Armed(s.last + INTERVAL + (end.now - s.now))
              && end.last == s.last && end.pending
  {
    hide Next, Enabled, Inv;
    var s1 := DoesNext(s, i, a + ([Run(i)] + (b + [Run(i)])));
    Measures(s, i);
    InvStep(s, Run(i));
    RunSplits(s1, a, [Run(i)] + (b + [Run(i)]));
    OthersStep(s1, i, a);
    var s2 := After(s1, a);
    var s3 := DoesNext(s2, i, b + [Run(i)]);
    Decides(s2, i);
    InvStep(s2, Run(i));
    RunSplits(s3, b, [Run(i)]);
    OthersStep(s3, i, b);
    var s4 := After(s3, b);
    assert [Run(i)] == [Run(i)] + [];
    var end := DoesNext(s4, i, []);
    Acts(s4, i);
  }

  lemma Measures(s: State, i: nat)
    requires Enabled(s, Run(i)) && s.tasks[i] == Locked && !s.pending
    ensures var s' := Next(s, Run(i));
            i < |s'.tasks| && s'.tasks[i] == Measured(INTERVAL - (s.now - s.last)) && s'.last == s.last
  {
  }

  lemma Decides(s: State, i: nat)
    requires Enabled(s, Run(i)) && s.tasks[i].Measured?
    ensures var s', wait := Next(s, Run(i)), s.tasks[i].wait;
            && i < |s'.tasks| && s'.tasks[i] == (if wait <= 0 then Granted else Arming(wait))
            && (wait > 0 ==> s'.last == s.last)
  {
  }

  lemma Acts(s: State, i: nat)
    requires Inv(s) && Enabled(s, Run(i)) && (s.tasks[i].Granted? || s.tasks[i].Arming?)
    ensures var s' := Next(s, Run(i));
            match s.tasks[i]
            case Granted => s'.invalidations != [] && Last(s'.invalidations) == s'.now
            case Arming(wait) =>
              s'.tasks != [] && Last(s'.tasks) == Armed(s'.now + wait) && s'.last == s.last && s'.pending
  {
    assert s.tasks[i].Arming? ==> IsPending(s.tasks[i]);
  }

  lemma DoesNext(s: State, i: nat, more: seq<Step>) returns (s': State)
    requires Possible(s, [Run(i)] + more)
    ensures Enabled(s, Run(i)) && s' == Next(s, Run(i)) && Possible(s', more)
    ensures After(s, [Run(i)] + more) == After(s', more)
  {
    s' := Next(s, Run(i));
    assert ([Run(i)] + more)[1..] == more;
  }

  // ---------------------------------------------------------------- everything does come to rest

  /** The most steps a goroutine, and the timer it may start, still have to take. */
  function Rank(p: Place): nat {
    match p
    case Calling => 9
    case Locked => 8
    case Measured(_) => 7
    case Arming(_) => 6
    case Armed(_) => 5
    case Fired => 4
    case TimerLocked => 3
    case TimerStamped => 2
    case TimerReleased => 1
    case Granted => 1
    case Finished => 0
  }

  function Left(tasks: seq<Place>): nat {
    if tasks == [] then 0 else Left(tasks[..|tasks| - 1]) + Rank(tasks[|tasks| - 1])
  }

  lemma {:induction false} LeftOfUpdate(tasks: seq<Place>, i: nat, p: Place)
    requires i < |tasks|
    ensures Left(tasks[i := p]) == Left(tasks) - Rank(tasks[i]) + Rank(p)
    decreases |tasks|
  {
    var n := |tasks| - 1;
    if i < n {
      assert tasks[i := p][..n] == tasks[..n][i := p];
      LeftOfUpdate(tasks[..n], i, p);
    } else {
      assert tasks[i := p][..n] == tasks[..n];
    }
  }

  /** Every step of a goroutine uses up what is left; time does not add to it. */
  lemma RunsUseUp(s: State, step: Step)
    requires Enabled(s, step) && !step.Request?
    ensures Left(Next(s, step).tasks) <= Left(s.tasks) - (if step.Run? then 1 else 0)
  {
    if step.Run? {
      hide Next;
      var s' := Next(s, step);
      TasksAfterRun(s, step.i);
      if s.tasks[step.i].Arming? {
        var start := s.tasks[step.i := Finished];
        assert s'.tasks == start + [Last(s'.tasks)] && s'.tasks[..|s.tasks|] == start;
        LeftOfUpdate(s.tasks, step.i, Finished);
      } else {
        LeftOfUpdate(s.tasks, step.i, s'.tasks[step.i]);
      }
    }
  }

  /** A step of a goroutine moves it on, and arming starts the timer's. */
  lemma TasksAfterRun(s: State, i: nat)
    requires Enabled(s, Run(i))
    ensures var tasks := Next(s, Run(i)).tasks;
            if s.tasks[i].Arming? then
              tasks != [] && Last(tasks).Armed? && tasks == s.tasks[i := Finished] + [Last(tasks)]
            else
              i < |tasks| && tasks == s.tasks[i := tasks[i]] && Rank(tasks[i]) < Rank(s.tasks[i])
  {
  }

  function Runs(steps: seq<Step>): nat {
    if steps == [] then 0 else (if steps[0].Run? then 1 else 0) + Runs(steps[1..])
  }

  /** Without new requests only so many steps can follow, whatever the schedule. */
  lemma {:induction false} RunsAreBounded(s: State, steps: seq<Step>)
    requires Possible(s, steps) && Request !in steps
    ensures Left(After(s, steps).tasks) + Runs(steps) <= Left(s.tasks)
    decreases |steps|
  {
    if steps != [] {
      assert steps[0] in steps;
      RunsUseUp(s, steps[0]);
      RunsAreBounded(Next(s, steps[0]), steps[1..]);
    }
  }

  /** Nobody waits forever: unless all is at rest, some goroutine can move once enough time has passed. */
  lemma NoDeadlock(s: State)
    requires !Quiescent(s)
    ensures exists elapsed: nat, i: nat ::
              Enabled(s, Tick(elapsed)) && Enabled(Next(s, Tick(elapsed)), Run(i))
  {
    var j :| 0 <= j < |s.tasks| && s.tasks[j] != Finished;
    if m :| 0 <= m < |s.tasks| && HoldsMutex(s.tasks[m]) {
      CanMove(s, 0, m);
    } else {
      CanMove(s, if s.tasks[j].Armed? && s.tasks[j].deadline > s.now then s.tasks[j].deadline - s.now else 0, j);
    }
  }

  /** From any state everything comes to rest if time passes, the runnable goroutines are let run and nobody
      asks again. */
  lemma {:induction false} ComesToRest(s: State) returns (steps: seq<Step>)
    ensures Possible(s, steps) && Request !in steps && Quiescent(After(s, steps))
    decreases Left(s.tasks)
  {
    hide Next, Enabled, Left;
    if Quiescent(s) {
      return [];
    }
    NoDeadlock(s);
    var elapsed: nat, i: nat :| Enabled(s, Tick(elapsed)) && Enabled(Next(s, Tick(elapsed)), Run(i));
    var later := Next(s, Tick(elapsed));
    RunsUseUp(s, Tick(elapsed));
    RunsUseUp(later, Run(i));
    steps := ComesToRest(Next(later, Run(i)));
    StepFirst(later, Run(i), steps);
    StepFirst(s, Tick(elapsed), [Run(i)] + steps);
    steps := [Tick(elapsed)] + ([Run(i)] + steps);
  }

  lemma StepFirst(s: State, step: Step, steps: seq<Step>)
    requires Enabled(s, step) && Possible(Next(s, step), steps)
    ensures Possible(s, [step] + steps) && After(s, [step] + steps) == After(Next(s, step), steps)
  {
    assert ([step] + steps)[1..] == steps;
  }

  lemma {:induction false} RunGoesOn(s: State, steps: seq<Step>, more: seq<Step>)
    requires Possible(s, steps) && Possible(After(s, steps), more)
    ensures Possible(s, steps + more) && After(s, steps + more) == After(After(s, steps), more)
    decreases |steps|
  {
    if steps == [] {
      assert steps + more == more;
    } else {
      RunGoesOn(Next(s, steps[0]), steps[1..], more);
      StepFirst(s, steps[0], steps[1..] + more);
      assert steps + more == [steps[0]] + (steps[1..] + more);
    }
  }

  /** Whatever has happened, no request is ever beyond help: any run can go on, without further requests, until
      all is at rest and an invalidation has started after the request. */
  lemma EveryRequestCanBeServed(s: State, steps: seq<Step>, n: nat) returns (more: seq<Step>)
    requires Initial(s) && Possible(s, steps) && n < |steps| && steps[n] == Request
    ensures Request !in more && Possible(s, steps + more) && Quiescent(After(s, steps + more))
    ensures Possible(s, steps[..n])
    ensures var asked, end := After(s, steps[..n]), After(s, steps + more);
            exists m :: |asked.invalidations| <= m < |end.invalidations| && asked.now <= end.invalidations[m]
  {
    more := ComesToRest(After(s, steps));
    RunGoesOn(s, steps, more);
    assert (steps + more)[..n] == steps[..n] && (steps + more)[n] == Request;
    NoRequestIsLost(s, steps + more, n);
  }

  lemma CanMove(s: State, elapsed: nat, i: nat)
    requires i < |s.tasks| && s.tasks[i] != Finished
    requires HoldsMutex(s.tasks[i]) || MutexFree(s)
    requires s.tasks[i].Armed? ==> s.tasks[i].deadline <= s.now + elapsed
    ensures Enabled(s, Tick(elapsed)) && Enabled(Next(s, Tick(elapsed)), Run(i))
  {
  }
}
