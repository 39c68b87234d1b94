/** What the logs of module Dispatch promise: barrier lock-step, conservation of coroutines, and an
    exact partition of the workgroup grid among the threads. */
module Scheduling {
  import opened Basics
  import opened Dispatch

  // ---------------------------------------------------------------- lock-step

  function Awaits(log: seq<Event>, r: nat): nat {
    if log == [] then 0 else (if log[0].Await? && log[0].r == r then 1 else 0) + Awaits(log[1..], r)
  }

  predicate Completed(log: seq<Event>, r: nat) {
    Await(r, false) in log
  }

  predicate Queued(q: seq<Job>, r: nat) {
    exists k :: 0 <= k < |q| && q[k].r == r
  }

  /** Rounds a queued coroutine is ahead of the front of the queue. */
  function Ahead(front: seq<Job>, r: nat): nat {
    if Queued(front, r) then 0 else 1
  }

  lemma {:induction false} AwaitsOfConcat(a: seq<Event>, b: seq<Event>, r: nat)
    ensures Awaits(a + b, r) == Awaits(a, r) + Awaits(b, r)
  {
    if a == [] {
      assert a + b == b;
    } else {
      assert (a + b)[1..] == a[1..] + b;
      AwaitsOfConcat(a[1..], b, r);
    }
  }

  /** Draining calls nothing but await and destroy, and only on queued coroutines. */
  lemma {:induction false} DrainTouchesQueued(q: seq<Job>, n: nat)
    requires n < |Drain(q)|
    ensures !Drain(q)[n].Begin? && Queued(q, Drain(q)[n].r)
    decreases Work(q)
  {
    var events := AwaitEvents(q[0]);
    AwaitIsWork(q);
    if n < |events| {
      assert Drain(q)[n] == events[n];
      assert Queued(q, q[0].r);
    } else {
      var q' := AfterAwait(q);
      DrainTouchesQueued(q', n - |events|);
      var r := Drain(q')[n - |events|].r;
      var k :| 0 <= k < |q'| && q'[k].r == r;
      assert r == if k < |q| - 1 then q[k + 1].r else q[0].r;
    }
  }

  lemma DrainStep(q: seq<Job>)
    requires q != []
    ensures Drain(q) == AwaitEvents(q[0]) + Drain(AfterAwait(q))
  {
    AwaitIsWork(q);
  }

  lemma DrainAwaitsHead(q: seq<Job>)
    requires q != []
    ensures |Drain(q)| >= 1 && Drain(q)[0].Await? && Drain(q)[0].r == q[0].r
  {
  }

  /** At event `n` of `log`, unfinished `a` is at most one await ahead of unfinished `b`, and `a` is
      awaited next only if it is not ahead of `b` at all.  Coroutines outside `front` start one await
      ahead. */
  ghost predicate InStep(front: seq<Job>, log: seq<Event>, n: nat, a: nat, b: nat)
    requires n <= |log|
  {
    var lead := Ahead(front, a) + Awaits(log[..n], a) - Ahead(front, b) - Awaits(log[..n], b);
    && (!Completed(log[..n], a) && !Completed(log[..n], b) ==> lead <= 1)
    && (n < |log| && log[n].Await? && log[n].r == a ==> Completed(log[..n], b) || lead <= 0)
  }

  /** Lock-step seen from the middle of a round: `front` is still to be awaited in this round and
      `back` already has been. */
  lemma {:induction false} LockStepFrom(front: seq<Job>, back: seq<Job>, n: nat, a: nat, b: nat)
    requires Distinct(front + back) && Queued(front + back, a) && Queued(front + back, b)
    requires n <= |Drain(front + back)|
    ensures InStep(front, Drain(front + back), n, a, b)
    decreases Work(front + back), if front == [] then 2 else 1
  {
    hide InStep, Drain;
    var q := front + back;
    if front == [] {
      assert back + [] == back == q;
      LockStepFrom(back, [], n, a, b);
      InStepNextRound(back, Drain(q), n, a, b);
    } else if n == 0 {
      DrainAwaitsHead(q);
      InStepAtStart(front, Drain(q), a, b);
    } else if front[0].left != 0 {
      LockStepYield(front, back, n, a, b);
    } else {
      LockStepCompletion(front, back, n, a, b);
    }
  }

  /** What an awaited coroutine leaves at the back of the queue. */
  function Requeued(j: Job, back: seq<Job>): seq<Job> {
    if j.left == 0 then back else back + [j.(left := j.left - 1)]
  }

  /** One await, seen from the middle of a round. */
  lemma FrontStep(front: seq<Job>, back: seq<Job>)
    requires front != [] && Distinct(front + back)
    ensures var q, q' := front + back, front[1..] + Requeued(front[0], back);
            Drain(q) == AwaitEvents(front[0]) + Drain(q') && Work(q') < Work(q) && Distinct(q')
  {
    hide Drain, Work, Distinct;
    var q := front + back;
    assert q[0] == front[0] && AfterAwait(q) == front[1..] + Requeued(front[0], back);
    DrainStep(q);
    AwaitIsWork(q);
    AfterAwaitDistinct(q);
  }

  lemma FrontLeaves(front: seq<Job>, back: seq<Job>)
    requires front != [] && Distinct(front + back)
    ensures !Queued(front[1..] + back, front[0].r) && Queued(front + back, front[0].r)
  {
    var q, q' := front + back, front[1..] + back;
    assert q[0] == front[0];
    forall k | 0 <= k < |q'|
      ensures q'[k].r != front[0].r
    {
      assert q'[k] == q[k + 1];
    }
  }

  /** The front coroutine has yielded and gone to the back. */
  lemma {:induction false} LockStepYield(front: seq<Job>, back: seq<Job>, n: nat, a: nat, b: nat)
    requires Distinct(front + back) && Queued(front + back, a) && Queued(front + back, b)
    requires 0 < n <= |Drain(front + back)| && front != [] && front[0].left != 0
    ensures InStep(front, Drain(front + back), n, a, b)
    decreases Work(front + back), 0
  {
    hide InStep, Drain, Distinct, Queued, Ahead, Work;
    var back' := Requeued(front[0], back);
    FrontStep(front, back);
    StillQueued(front, back, back', a);
    StillQueued(front, back, back', b);
    LockStepFrom(front[1..], back', n - 1, a, b);
    InStepAfterYield(front, front[0].r, Drain(front[1..] + back'), n, a, b);
  }

  /** The front coroutine has completed and left the queue. */
  lemma {:induction false} LockStepCompletion(front: seq<Job>, back: seq<Job>, n: nat, a: nat, b: nat)
    requires Distinct(front + back) && Queued(front + back, a) && Queued(front + back, b)
    requires 0 < n <= |Drain(front + back)| && front != [] && front[0].left == 0
    ensures InStep(front, Drain(front + back), n, a, b)
    decreases Work(front + back), 0
  {
    hide InStep, Drain, Distinct, Queued, Ahead, Work;
    var q' := front[1..] + back;
    FrontStep(front, back);
    FrontLeaves(front, back);
    StillQueued(front, back, back, a);
    StillQueued(front, back, back, b);
    if n == 1 {
      InStepAtCompletion(front, front[0].r, Drain(q'), a, b);
    } else {
      if a != front[0].r && b != front[0].r {
        LockStepFrom(front[1..], back, n - 2, a, b);
      }
      if n - 2 < |Drain(q')| {
        DrainTouchesQueued(q', n - 2);
      }
      InStepAfterCompletion(front, front[0].r, Drain(q'), n, a, b);
    }
  }

  lemma InStepNextRound(back: seq<Job>, log: seq<Event>, n: nat, a: nat, b: nat)
    requires n <= |log| && Queued(back, a) && Queued(back, b) && InStep(back, log, n, a, b)
    ensures InStep([], log, n, a, b)
  {
    assert !Queued([], a) && !Queued([], b);
  }

  lemma InStepAtStart(front: seq<Job>, log: seq<Event>, a: nat, b: nat)
    requires front != [] && log != [] && log[0].Await? && log[0].r == front[0].r
    ensures InStep(front, log, 0, a, b)
  {
    assert Queued(front, front[0].r);
  }

  lemma InStepAtCompletion(front: seq<Job>, r: nat, rest: seq<Event>, a: nat, b: nat)
    ensures InStep(front, [Await(r, false), Destroy(r)] + rest, 1, a, b)
  {
    var log := [Await(r, false), Destroy(r)] + rest;
    assert log[..1] == [Await(r, false)];
    assert Completed(log[..1], r);
    assert Awaits([Await(r, false)], a) == if a == r then 1 else 0;
    assert Awaits([Await(r, false)], b) == if b == r then 1 else 0;
  }

  lemma InStepAfterYield(front: seq<Job>, r: nat, rest: seq<Event>, n: nat, a: nat, b: nat)
    requires front != [] && front[0].r == r && 0 < n <= |rest| + 1
    requires InStep(front[1..], rest, n - 1, a, b)
    requires Ahead(front[1..], a) == if a == r then 1 else Ahead(front, a)
    requires Ahead(front[1..], b) == if b == r then 1 else Ahead(front, b)
    ensures InStep(front, [Await(r, true)] + rest, n, a, b)
  {
    assert Queued(front, front[0].r);
    var log := [Await(r, true)] + rest;
    assert log[..n] == [Await(r, true)] + rest[..n - 1];
    assert Awaits([Await(r, true)], a) == if a == r then 1 else 0;
    assert Awaits([Await(r, true)], b) == if b == r then 1 else 0;
    AwaitsOfConcat([Await(r, true)], rest[..n - 1], a);
    AwaitsOfConcat([Await(r, true)], rest[..n - 1], b);
  }

  lemma InStepAfterCompletion(front: seq<Job>, r: nat, rest: seq<Event>, n: nat, a: nat, b: nat)
    requires front != [] && front[0].r == r && 2 <= n <= |rest| + 2
    requires a != r && b != r ==> InStep(front[1..], rest, n - 2, a, b)
    requires n - 2 < |rest| ==> rest[n - 2].r != r
    requires a != r ==> Ahead(front[1..], a) == Ahead(front, a)
    requires b != r ==> Ahead(front[1..], b) == Ahead(front, b)
    ensures InStep(front, [Await(r, false), Destroy(r)] + rest, n, a, b)
  {
    var events := [Await(r, false), Destroy(r)];
    var log := events + rest;
    assert log[..n] == events + rest[..n - 2];
    assert Completed(log[..n], r);
    if a != r && b != r {
      assert events[1..] == [Destroy(r)];
      assert Awaits(events[1..], a) == 0 && Awaits(events[1..], b) == 0;
      AwaitsOfConcat(events, rest[..n - 2], a);
      AwaitsOfConcat(events, rest[..n - 2], b);
    }
  }

  /** One await moves the front coroutine to the back or out, and no other. */
  lemma StillQueued(front: seq<Job>, back: seq<Job>, back': seq<Job>, r: nat)
    requires front != [] && Distinct(front + back) && Queued(front + back, r)
    requires back' == Requeued(front[0], back)
    ensures Queued(front[1..] + back', r) <==> r != front[0].r || front[0].left != 0
    ensures r != front[0].r ==> Ahead(front[1..], r) == Ahead(front, r)
    ensures r == front[0].r ==> Ahead(front, r) == 0 && Ahead(front[1..], r) == 1
  {
    var q, q' := front + back, front[1..] + back';
    assert q[0] == front[0];
    var k :| 0 <= k < |q| && q[k].r == r;
    if k == 0 {
      assert forall m :: 0 < m < |q| ==> q[m].r != r;
      assert forall m :: 0 <= m < |front| - 1 ==> front[1..][m] == q[m + 1];
      assert Queued(front, r) && !Queued(front[1..], r);
      if front[0].left == 0 {
        assert forall m :: 0 <= m < |q'| ==> q'[m] == q[m + 1];
      } else {
        assert q'[|q'| - 1].r == r;
      }
    } else {
      assert q'[k - 1] == q[k];
      if k < |front| {
        assert front[1..][k - 1].r == r && front[k].r == r;
      } else {
        assert forall m :: 0 <= m < |front| ==> front[m] == q[m] && q[m].r != r;
      }
    }
  }

  lemma JobsAreDistinct(h: nat, n: nat, yieldsOf: nat -> nat)
    ensures Distinct(Jobs(h, n, yieldsOf))
    ensures forall r: nat :: Queued(Jobs(h, n, yieldsOf), r) <==> h <= r < h + n
  {
    var q := Jobs(h, n, yieldsOf);
    forall r: nat
      ensures Queued(q, r) <==> h <= r < h + n
    {
      if h <= r < h + n {
        assert q[r - h].r == r;
      }
    }
  }

  /** While a workgroup runs, the await counts of two unfinished coroutines differ by at most one,
      and no coroutine is awaited again before every other one has caught up or completed. */
  lemma BarrierLockStep(c: Counts, cells: seq<Cell>, i: nat, h: nat, yieldsOf: nat -> nat, n: nat, a: nat, b: nat)
    requires i < |cells| && n <= |GroupLog(c, cells, i, h, yieldsOf)|
    requires h <= a < h + c.PerGroup() && h <= b < h + c.PerGroup()
    ensures var log := GroupLog(c, cells, i, h, yieldsOf);
            !Completed(log[..n], a) && !Completed(log[..n], b) ==> Awaits(log[..n], a) <= Awaits(log[..n], b) + 1
    ensures var log := GroupLog(c, cells, i, h, yieldsOf);
            n < |log| && log[n].Await? && log[n].r == a ==>
              Completed(log[..n], b) || Awaits(log[..n], a) <= Awaits(log[..n], b)
  {
    hide Drain;
    var begins, jobs := BeginLog(c, cells[i], h), Jobs(h, c.PerGroup(), yieldsOf);
    var log := GroupLog(c, cells, i, h, yieldsOf);
    if n < |begins| {
      assert log[..n] == begins[..n];
      BeginsAwaitNothing(begins[..n], a);
      BeginsAwaitNothing(begins[..n], b);
    } else {
      var m := n - |begins|;
      assert log[..n] == begins + Drain(jobs)[..m];
      BeginsAwaitNothing(begins, a);
      BeginsAwaitNothing(begins, b);
      AwaitsOfConcat(begins, Drain(jobs)[..m], a);
      AwaitsOfConcat(begins, Drain(jobs)[..m], b);
      JobsAreDistinct(h, c.PerGroup(), yieldsOf);
      assert jobs + [] == jobs;
      LockStepFrom(jobs, [], m, a, b);
    }
  }

  lemma {:induction false} BeginsAwaitNothing(log: seq<Event>, r: nat)
    requires forall e :: e in log ==> e.Begin?
    ensures Awaits(log, r) == 0
  {
    if log != [] {
      assert log[0] in log;
      BeginsAwaitNothing(log[1..], r);
    }
  }

  // ---------------------------------------------------------------- conservation

  /** The calls on coroutine `r`, in order. */
  function CallsOn(log: seq<Event>, r: nat): seq<Event> {
    if log == [] then [] else (if log[0].r == r then [log[0]] else []) + CallsOn(log[1..], r)
  }

  lemma {:induction false} CallsOnConcat(a: seq<Event>, b: seq<Event>, r: nat)
    ensures CallsOn(a + b, r) == CallsOn(a, r) + CallsOn(b, r)
  {
    if a == [] {
      assert a + b == b;
    } else {
      assert (a + b)[1..] == a[1..] + b;
      CallsOnConcat(a[1..], b, r);
      Associative(if a[0].r == r then [a[0]] else [], CallsOn(a[1..], r), CallsOn(b, r));
    }
  }

  lemma {:induction false} CallsOnKeeps(log: seq<Event>, k: nat)
    requires k < |log|
    ensures log[k] in CallsOn(log, log[k].r)
  {
    if k > 0 {
      CallsOnKeeps(log[1..], k - 1);
    }
  }

  /** The rest of the life of a begun coroutine that yields `left` more times: it is awaited until it
      reports completion, and then destroyed. */
  function Life(r: nat, left: nat): seq<Event> {
    seq(left, _ => Await(r, true)) + [Await(r, false), Destroy(r)]
  }

  lemma LifeStep(r: nat, left: nat)
    requires left != 0
    ensures Life(r, left) == [Await(r, true)] + Life(r, left - 1)
  {
  }

  /** Times a job's coroutine is still going to yield; none if it is not queued. */
  function LeftOf(q: seq<Job>, r: nat): nat {
    if q == [] then 0 else if q[0].r == r then q[0].left else LeftOf(q[1..], r)
  }

  lemma {:induction false} LeftOfAt(q: seq<Job>, k: nat)
    requires k < |q| && Distinct(q)
    ensures LeftOf(q, q[k].r) == q[k].left
  {
    if k > 0 {
      LeftOfAt(q[1..], k - 1);
    }
  }

  lemma StillQueuedAfterAwait(q: seq<Job>, r: nat)
    requires q != [] && Distinct(q)
    ensures r == q[0].r ==> Queued(q, r) && LeftOf(q, r) == q[0].left
    ensures r == q[0].r && q[0].left == 0 ==> !Queued(AfterAwait(q), r)
    ensures r == q[0].r && q[0].left != 0 ==> Queued(AfterAwait(q), r) && LeftOf(AfterAwait(q), r) == q[0].left - 1
    ensures r != q[0].r ==> (Queued(q, r) <==> Queued(AfterAwait(q), r))
    ensures r != q[0].r && Queued(q, r) ==> LeftOf(AfterAwait(q), r) == LeftOf(q, r)
  {
    var q' := AfterAwait(q);
    AfterAwaitDistinct(q);
    assert forall k :: 0 < k < |q| ==> q'[k - 1] == q[k];
    if r == q[0].r {
      if q[0].left != 0 {
        LeftOfAt(q', |q'| - 1);
      } else {
        assert forall k :: 0 <= k < |q'| ==> q'[k] == q[k + 1];
      }
    } else if Queued(q, r) {
      var k :| 0 <= k < |q| && q[k].r == r;
      LeftOfAt(q, k);
      LeftOfAt(q', k - 1);
    }
  }

  lemma CallsOnAwaited(j: Job, r: nat)
    ensures CallsOn(AwaitEvents(j), r) == if r == j.r then AwaitEvents(j) else []
  {
    assert CallsOn(AwaitEvents(j)[1..], r) == if r == j.r then AwaitEvents(j)[1..] else [];
  }

  lemma {:induction false} LifeInDrain(q: seq<Job>, r: nat)
    requires Distinct(q)
    ensures CallsOn(Drain(q), r) == if Queued(q, r) then Life(r, LeftOf(q, r)) else []
    decreases Work(q)
  {
    if q != [] {
      var q' := AfterAwait(q);
      AwaitIsWork(q);
      AfterAwaitDistinct(q);
      LifeInDrain(q', r);
      CallsOnConcat(AwaitEvents(q[0]), Drain(q'), r);
      CallsOnAwaited(q[0], r);
      StillQueuedAfterAwait(q, r);
      if q[0].left != 0 {
        LifeStep(q[0].r, q[0].left);
      }
    }
  }

  lemma {:induction false} CallsOnBegins(log: seq<Event>, h: nat, r: nat)
    requires forall k :: 0 <= k < |log| ==> log[k].Begin? && log[k].r == h + k
    ensures CallsOn(log, r) == if h <= r < h + |log| then [log[r - h]] else []
  {
    if log != [] {
      CallsOnBegins(log[1..], h + 1, r);
    }
  }

  lemma LifeInGroup(c: Counts, cells: seq<Cell>, i: nat, h: nat, yieldsOf: nat -> nat, r: nat)
    requires i < |cells|
    ensures |BeginLog(c, cells[i], h)| == c.PerGroup()
    ensures CallsOn(GroupLog(c, cells, i, h, yieldsOf), r)
         == if h <= r < h + c.PerGroup() then [BeginLog(c, cells[i], h)[r - h]] + Life(r, yieldsOf(r)) else []
  {
    hide Drain, CallsOn, Life, Queued, LeftOf, Distinct, Jobs, BeginLog;
    var begins, jobs := BeginLog(c, cells[i], h), Jobs(h, c.PerGroup(), yieldsOf);
    BeginsInOrder(c, cells[i], h);
    CallsOnBegins(begins, h, r);
    JobsAreDistinct(h, c.PerGroup(), yieldsOf);
    LifeInDrain(jobs, r);
    CallsOnConcat(begins, Drain(jobs), r);
    if h <= r < h + c.PerGroup() {
      LeftOfJob(h, c.PerGroup(), yieldsOf, r);
    }
  }

  lemma BeginsInOrder(c: Counts, cell: Cell, h: nat)
    ensures var begins := BeginLog(c, cell, h);
            |begins| == c.PerGroup() && forall k :: 0 <= k < |begins| ==> begins[k].Begin? && begins[k].r == h + k
  {
  }

  lemma LeftOfJob(h: nat, n: nat, yieldsOf: nat -> nat, r: nat)
    requires h <= r < h + n
    ensures LeftOf(Jobs(h, n, yieldsOf), r) == yieldsOf(r)
  {
    JobsAreDistinct(h, n, yieldsOf);
    LeftOfAt(Jobs(h, n, yieldsOf), r - h);
  }

  /** The call that begins coroutine `r` of a thread: it names a workgroup of the grid and subgroups of
      that workgroup. */
  function BeginOf(c: Counts, cells: seq<Cell>, i: nat, nthreads: nat, h: nat, r: nat): (e: Event)
    requires 0 < nthreads && h <= r < h + HandlesFrom(c, cells, i, nthreads)
    ensures e.Begin? && e.r == r && (e.x, e.y, e.z) in cells && e.firstSubgroup + e.subgroupCount <= c.subgroups
    decreases |cells| - i
  {
    if r < h + c.PerGroup() then
      BeginLog(c, cells[i], h)[r - h]
    else
      BeginOf(c, cells, i + nthreads, nthreads, h + c.PerGroup(), r)
  }

  /** Every coroutine a thread begins is begun once, yields as often as it wants to, is awaited until it
      completes and no more, and is destroyed once; no other handle is ever touched. */
  lemma {:induction false} Conservation(c: Counts, cells: seq<Cell>, i: nat, nthreads: nat, h: nat,
                                        yieldsOf: nat -> nat, r: nat)
    requires 0 < nthreads
    ensures CallsOn(ThreadLog(c, cells, i, nthreads, h, yieldsOf), r)
         == if h <= r < h + HandlesFrom(c, cells, i, nthreads)
            then [BeginOf(c, cells, i, nthreads, h, r)] + Life(r, yieldsOf(r))
            else []
    decreases |cells| - i
  {
    hide GroupLog, BeginLog, Life;
    if i < |cells| {
      hide CallsOn;
      var rest := ThreadLog(c, cells, i + nthreads, nthreads, h + c.PerGroup(), yieldsOf);
      LifeInGroup(c, cells, i, h, yieldsOf, r);
      Conservation(c, cells, i + nthreads, nthreads, h + c.PerGroup(), yieldsOf, r);
      CallsOnConcat(GroupLog(c, cells, i, h, yieldsOf), rest, r);
    }
  }

  /** Nothing outside the grid or beyond the subgroup count is ever begun. */
  lemma BeginsInGrid(c: Counts, i: nat, nthreads: nat, h: nat, yieldsOf: nat -> nat, k: nat)
    requires 0 < nthreads && k < |ThreadLog(c, Cells(c), i, nthreads, h, yieldsOf)|
    requires ThreadLog(c, Cells(c), i, nthreads, h, yieldsOf)[k].Begin?
    ensures var e := ThreadLog(c, Cells(c), i, nthreads, h, yieldsOf)[k];
            InGrid(c, e.x, e.y, e.z) && e.firstSubgroup + e.subgroupCount <= c.subgroups
  {
    var log := ThreadLog(c, Cells(c), i, nthreads, h, yieldsOf);
    CallsOnKeeps(log, k);
    Conservation(c, Cells(c), i, nthreads, h, yieldsOf, log[k].r);
    BeginIsBeginOf(c, i, nthreads, h, log[k], yieldsOf(log[k].r));
  }

  lemma BeginIsBeginOf(c: Counts, i: nat, nthreads: nat, h: nat, e: Event, left: nat)
    requires 0 < nthreads && h <= e.r < h + HandlesFrom(c, Cells(c), i, nthreads)
    requires e.Begin? && e in [BeginOf(c, Cells(c), i, nthreads, h, e.r)] + Life(e.r, left)
    ensures InGrid(c, e.x, e.y, e.z) && e.firstSubgroup + e.subgroupCount <= c.subgroups
  {
    assert e == BeginOf(c, Cells(c), i, nthreads, h, e.r);
    var k :| 0 <= k < c.Groups() && Cells(c)[k] == (e.x, e.y, e.z);
    GroupIndexOfDecode(c, k);
  }

  // ---------------------------------------------------------------- partition of the work

  /** `e` begins the coroutine that runs subgroup `s` of the workgroup at `cell`. */
  predicate Covers(e: Event, cell: Cell, s: nat) {
    e.Begin? && (e.x, e.y, e.z) == cell && e.firstSubgroup <= s < e.firstSubgroup + e.subgroupCount
  }

  function Covering(log: seq<Event>, cell: Cell, s: nat): nat {
    if log == [] then 0 else (if Covers(log[0], cell, s) then 1 else 0) + Covering(log[1..], cell, s)
  }

  lemma {:induction false} CoveringOfConcat(a: seq<Event>, b: seq<Event>, cell: Cell, s: nat)
    ensures Covering(a + b, cell, s) == Covering(a, cell, s) + Covering(b, cell, s)
  {
    if a == [] {
      assert a + b == b;
    } else {
      assert (a + b)[1..] == a[1..] + b;
      CoveringOfConcat(a[1..], b, cell, s);
    }
  }

  /** A log covers a subgroup once if exactly one event does. */
  lemma {:induction false} CoveringOnce(log: seq<Event>, cell: Cell, s: nat, at: nat)
    requires forall k :: 0 <= k < |log| ==> (Covers(log[k], cell, s) <==> k == at)
    ensures Covering(log, cell, s) == if at < |log| then 1 else 0
  {
    if log != [] {
      if at == 0 {
        CoveringNever(log[1..], cell, s);
      } else {
        CoveringOnce(log[1..], cell, s, at - 1);
      }
    }
  }

  lemma {:induction false} CoveringNever(log: seq<Event>, cell: Cell, s: nat)
    requires forall k :: 0 <= k < |log| ==> !Covers(log[k], cell, s)
    ensures Covering(log, cell, s) == 0
  {
    if log != [] {
      CoveringNever(log[1..], cell, s);
    }
  }

  /** In both barrier modes a workgroup's begin calls cover each of its subgroups once. */
  lemma CoveringInGroup(c: Counts, cells: seq<Cell>, i: nat, h: nat, yieldsOf: nat -> nat, cell: Cell, s: nat)
    requires i < |cells| && s < c.subgroups
    ensures Covering(GroupLog(c, cells, i, h, yieldsOf), cell, s) == if cells[i] == cell then 1 else 0
  {
    var begins, jobs := BeginLog(c, cells[i], h), Jobs(h, c.PerGroup(), yieldsOf);
    forall k | 0 <= k < |Drain(jobs)|
      ensures !Covers(Drain(jobs)[k], cell, s)
    {
      DrainTouchesQueued(jobs, k);
    }
    CoveringNever(Drain(jobs), cell, s);
    CoveringOfConcat(begins, Drain(jobs), cell, s);
    if cells[i] == cell {
      CoveringOnce(begins, cell, s, if c.hasCbarriers then s else 0);
    } else {
      CoveringNever(begins, cell, s);
    }
  }

  /** Workgroup `g` is among those a thread visits from `i` on. */
  predicate Visits(i: nat, nthreads: nat, g: nat)
    requires 0 < nthreads
  {
    i <= g && (g - i) % nthreads == 0
  }

  lemma {:induction false} CoveringInThread(c: Counts, i: nat, nthreads: nat, h: nat, yieldsOf: nat -> nat,
                                            cell: Cell, s: nat)
    requires 0 < nthreads && s < c.subgroups && InGrid(c, cell.0, cell.1, cell.2)
    ensures Covering(ThreadLog(c, Cells(c), i, nthreads, h, yieldsOf), cell, s)
         == if Visits(i, nthreads, GroupIndex(c, cell.0, cell.1, cell.2)) then 1 else 0
    decreases c.Groups() - i
  {
    hide GroupLog, Covering;
    var g := GroupIndex(c, cell.0, cell.1, cell.2);
    DecodeOfGroupIndex(c, cell.0, cell.1, cell.2);
    if c.Groups() <= i {
      CoveringNever([], cell, s);
    } else {
      var rest := ThreadLog(c, Cells(c), i + nthreads, nthreads, h + c.PerGroup(), yieldsOf);
      CoveringInGroup(c, Cells(c), i, h, yieldsOf, cell, s);
      CoveringInThread(c, i + nthreads, nthreads, h + c.PerGroup(), yieldsOf, cell, s);
      CoveringOfConcat(GroupLog(c, Cells(c), i, h, yieldsOf), rest, cell, s);
      GroupIndexOfDecode(c, i);
      assert Cells(c)[i] == cell <==> i == g;
      NextVisit(i, nthreads, g);
    }
  }

  lemma NextVisit(i: nat, nthreads: nat, g: nat)
    requires 0 < nthreads
    ensures Visits(i, nthreads, g) <==> i == g || Visits(i + nthreads, nthreads, g)
    ensures !(i == g && Visits(i + nthreads, nthreads, g))
  {
    if i < g {
      ModShift(g - i, nthreads);
    }
  }

  lemma ModShift(a: int, n: int)
    requires 0 < n
    ensures (a - n) % n == a % n
    ensures 0 < a < n ==> a % n != 0
  {
    assert a == a / n * n + a % n;
    assert a - n == (a / n - 1) * n + a % n;
    DivUnique(a - n, n, a / n - 1, a % n);
  }

  /** How often the threads `0`, ..., `threads - 1` of `nthreads` together cover a subgroup; thread
      `t` gives out handles from `h(t)`. */
  ghost function CoveringByAll(c: Counts, threads: nat, nthreads: nat, h: nat -> nat, yieldsOf: nat -> nat,
                               cell: Cell, s: nat): nat
    requires 0 < nthreads
  {
    if threads == 0 then
      0
    else
      CoveringByAll(c, threads - 1, nthreads, h, yieldsOf, cell, s)
      + Covering(ThreadLog(c, Cells(c), threads - 1, nthreads, h(threads - 1), yieldsOf), cell, s)
  }

  /** All threads together begin every subgroup of every workgroup of the grid exactly once. */
  lemma ExactPartition(c: Counts, nthreads: nat, h: nat -> nat, yieldsOf: nat -> nat, cell: Cell, s: nat)
    requires 0 < nthreads && s < c.subgroups && InGrid(c, cell.0, cell.1, cell.2)
    ensures CoveringByAll(c, nthreads, nthreads, h, yieldsOf, cell, s) == 1
  {
    CoveredByResidue(c, nthreads, nthreads, h, yieldsOf, cell, s);
  }

  lemma {:induction false} CoveredByResidue(c: Counts, threads: nat, nthreads: nat, h: nat -> nat,
                                            yieldsOf: nat -> nat, cell: Cell, s: nat)
    requires 0 < nthreads && threads <= nthreads && s < c.subgroups && InGrid(c, cell.0, cell.1, cell.2)
    ensures CoveringByAll(c, threads, nthreads, h, yieldsOf, cell, s)
         == if GroupIndex(c, cell.0, cell.1, cell.2) % nthreads < threads then 1 else 0
  {
    if threads > 0 {
      var g := GroupIndex(c, cell.0, cell.1, cell.2);
      CoveredByResidue(c, threads - 1, nthreads, h, yieldsOf, cell, s);
      CoveringInThread(c, threads - 1, nthreads, h(threads - 1), yieldsOf, cell, s);
      VisitedByResidue(threads - 1, nthreads, g);
    }
  }

  lemma VisitedByResidue(t: nat, nthreads: nat, g: nat)
    requires 0 < nthreads && t < nthreads
    ensures Visits(t, nthreads, g) <==> g % nthreads == t
  {
    if Visits(t, nthreads, g) {
      var k := (g - t) / nthreads;
      assert g - t == k * nthreads + (g - t) % nthreads;
      DivUnique(g, nthreads, k, t);
    } else if g % nthreads == t {
      var k := g / nthreads;
      assert g - t == k * nthreads;
      assert 0 <= k * nthreads;
      DivUnique(g - t, nthreads, k, 0);
    }
  }
}
