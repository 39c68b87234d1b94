/** dispatch_thread of _vendored/gioui-cpu/runtime.c: its log as a function of the dispatch, and the loop
    itself over the real queue. */
module Dispatch {
  import opened Basics
  import opened Coroutines

  const SIMD_WIDTH: nat := 4

  /** Calls into the shader program, in order; `r` is the handle of a coroutine. */
  datatype Event =
    | Begin(r: nat, x: nat, y: nat, z: nat, firstSubgroup: nat, subgroupCount: nat)
    | Await(r: nat, more: bool)
    | Destroy(r: nat)

  /** The counts prepare_dispatch leaves in the context. */
  datatype Counts = Counts(sx: nat, sy: nat, sz: nat, subgroups: nat, hasCbarriers: bool) {
    function Groups(): nat {
      sx * sy * sz
    }

    /** Coroutines begun for one workgroup. */
    function PerGroup(): nat {
      if hasCbarriers then subgroups else 1
    }
  }

  // ---------------------------------------------------------------- subgroup counts

  function SubgroupsPerWorkgroup(invocations: nat): nat {
    (invocations + SIMD_WIDTH - 1) / SIMD_WIDTH
  }

  /** Every invocation lies in exactly one subgroup and no subgroup is empty. */
  lemma SubgroupsCover(invocations: nat)
    ensures forall i: nat :: i < invocations ==> i / SIMD_WIDTH < SubgroupsPerWorkgroup(invocations)
    ensures forall s: nat :: s < SubgroupsPerWorkgroup(invocations) ==> s * SIMD_WIDTH < invocations
  {
  }

  // ---------------------------------------------------------------- decoding a group index

  function GroupIndex(c: Counts, x: nat, y: nat, z: nat): nat {
    x + c.sx * (y + c.sy * z)
  }

  predicate InGrid(c: Counts, x: nat, y: nat, z: nat) {
    x < c.sx && y < c.sy && z < c.sz
  }

  /** The index arithmetic of the strided loop. */
  function Decode(c: Counts, i: nat): (cell: (int, int, int))
    requires c.sx * c.sy != 0 && c.sx != 0
  {
    var z := i / (c.sx * c.sy);
    var rest := i - z * c.sx * c.sy;
    var y := rest / c.sx;
    (rest - y * c.sx, y, z)
  }

  lemma DivUnique(n: int, d: int, q: int, r: int)
    requires 0 < d && 0 <= r < d && n == q * d + r
    ensures n / d == q
  {
    if n / d < q {
      MulMono(n / d + 1, q, d);
    } else if n / d > q {
      MulMono(q + 1, n / d, d);
    }
  }

  lemma MulMono(a: int, b: int, d: int)
    requires a <= b && 0 <= d
    ensures a * d <= b * d
  {
  }

  /** Decoding inverts encoding... */
  lemma DecodeOfGroupIndex(c: Counts, x: nat, y: nat, z: nat)
    requires InGrid(c, x, y, z)
    ensures c.sx * c.sy != 0
    ensures GroupIndex(c, x, y, z) < c.Groups()
    ensures Decode(c, GroupIndex(c, x, y, z)) == (x, y, z)
  {
    var i := GroupIndex(c, x, y, z);
    var plane := c.sx * c.sy;
    var rest := x + y * c.sx;
    Regroup(c, x, y, z);
    MulMono(y + 1, c.sy, c.sx);
    assert (y + 1) * c.sx == y * c.sx + c.sx;
    assert c.sy * c.sx == plane;
    DivUnique(i, plane, z, rest);
    assert z * c.sx * c.sy == z * plane;
    DivUnique(rest, c.sx, y, x);
    MulMono(z + 1, c.sz, plane);
    assert (z + 1) * plane == z * plane + plane;
    assert c.sz * plane == c.Groups();
  }

  lemma DivBounds(n: nat, d: nat, m: nat)
    requires 0 < d && n < m * d
    ensures 0 <= n / d < m
    ensures 0 <= n - n / d * d < d
  {
    assert n == n / d * d + n % d;
    if m <= n / d {
      MulMono(m, n / d, d);
    }
  }

  /** ... and encoding inverts decoding, which stays inside the grid. */
  lemma GroupIndexOfDecode(c: Counts, i: nat)
    requires i < c.Groups()
    ensures c.sx != 0 && c.sx * c.sy != 0
    ensures var (x, y, z) := Decode(c, i);
            0 <= x && 0 <= y && 0 <= z && InGrid(c, x, y, z) && GroupIndex(c, x, y, z) == i
  {
    var plane := c.sx * c.sy;
    NonZeroFactors(c);
    assert c.Groups() == c.sz * plane;
    DivBounds(i, plane, c.sz);
    var z := i / plane;
    var rest := i - z * plane;
    assert z * c.sx * c.sy == z * plane;
    assert plane == c.sy * c.sx;
    DivBounds(rest, c.sx, c.sy);
    var y := rest / c.sx;
    Regroup(c, rest - y * c.sx, y, z);
  }

  lemma NonZeroFactors(c: Counts)
    requires 0 < c.Groups()
    ensures 0 < c.sx && 0 < c.sx * c.sy
  {
    assert c.Groups() == c.sx * c.sy * c.sz;
  }

  lemma Regroup(c: Counts, x: int, y: int, z: int)
    ensures x + c.sx * (y + c.sy * z) == x + y * c.sx + z * (c.sx * c.sy)
  {
    assert c.sx * (y + c.sy * z) == c.sx * y + c.sx * (c.sy * z);
    assert c.sx * (c.sy * z) == z * (c.sx * c.sy);
  }

  // ---------------------------------------------------------------- the log of a thread

  /** A begun coroutine and how many more times it will yield before it completes. */
  datatype Job = Job(r: nat, left: nat)

  /** Awaits still to come. */
  ghost function Work(q: seq<Job>): nat {
    if q == [] then 0 else q[0].left + 1 + Work(q[1..])
  }

  lemma {:induction false} WorkOfConcat(a: seq<Job>, b: seq<Job>)
    ensures Work(a + b) == Work(a) + Work(b)
  {
    if a == [] {
      assert a + b == b;
    } else {
      assert (a + b)[1..] == a[1..] + b;
      WorkOfConcat(a[1..], b);
    }
  }

  /** What awaiting the front job leaves in the queue. */
  function AfterAwait(q: seq<Job>): seq<Job>
    requires q != []
  {
    if q[0].left == 0 then q[1..] else q[1..] + [q[0].(left := q[0].left - 1)]
  }

  lemma AwaitIsWork(q: seq<Job>)
    requires q != []
    ensures Work(AfterAwait(q)) == Work(q) - 1
  {
    if q[0].left != 0 {
      WorkOfConcat(q[1..], [q[0].(left := q[0].left - 1)]);
    }
  }

  /** The round-robin loop run to the empty queue. */
  ghost function Drain(q: seq<Job>): seq<Event>
    decreases Work(q)
  {
    if q == [] then
      []
    else
      AwaitIsWork(q);
      AwaitEvents(q[0]) + Drain(AfterAwait(q))
  }

  function AwaitEvents(j: Job): seq<Event> {
    if j.left == 0 then [Await(j.r, false), Destroy(j.r)] else [Await(j.r, true)]
  }

  /** The grid position of workgroup `i`. */
  function CellOf(c: Counts, i: nat): (nat, nat, nat)
    requires i < c.Groups()
  {
    GroupIndexOfDecode(c, i);
    Decode(c, i)
  }

  type Cell = (nat, nat, nat)

  /** The grid positions in the order of their indices. */
  function Cells(c: Counts): seq<Cell> {
    seq(c.Groups(), i requires 0 <= i < c.Groups() => CellOf(c, i))
  }

  lemma CellsFill(c: Counts)
    ensures |Cells(c)| == c.Groups()
  {
  }

  /** The begin calls of one workgroup, with handles from `h`. */
  function BeginLog(c: Counts, cell: Cell, h: nat): seq<Event> {
    if c.hasCbarriers then
      seq(c.subgroups, (s: nat) => Begin(h + s, cell.0, cell.1, cell.2, s, 1))
    else
      [Begin(h, cell.0, cell.1, cell.2, 0, c.subgroups)]
  }

  /** The jobs of handles `h`, `h + 1`, ..., `h + n - 1`. */
  function Jobs(h: nat, n: nat, yieldsOf: nat -> nat): seq<Job> {
    seq(n, (k: nat) => Job(h + k, yieldsOf(h + k)))
  }

  ghost function GroupLog(c: Counts, cells: seq<Cell>, i: nat, h: nat, yieldsOf: nat -> nat): seq<Event>
    requires i < |cells|
  {
    BeginLog(c, cells[i], h) + Drain(Jobs(h, c.PerGroup(), yieldsOf))
  }

  /** Everything a thread does from workgroup `i` on, in strides of `nthreads`. */
  ghost function ThreadLog(c: Counts, cells: seq<Cell>, i: nat, nthreads: nat, h: nat, yieldsOf: nat -> nat): seq<Event>
    requires 0 < nthreads
    decreases |cells| - i
  {
    if i < |cells| then
      GroupLog(c, cells, i, h, yieldsOf) + ThreadLog(c, cells, i + nthreads, nthreads, h + c.PerGroup(), yieldsOf)
    else
      []
  }

  /** The number of coroutines a thread begins from workgroup `i` on. */
  function HandlesFrom(c: Counts, cells: seq<Cell>, i: nat, nthreads: nat): nat
    requires 0 < nthreads
    decreases |cells| - i
  {
    if i < |cells| then c.PerGroup() + HandlesFrom(c, cells, i + nthreads, nthreads) else 0
  }

  // ---------------------------------------------------------------- the loop itself

  /** The shader program: three entry points whose calls are logged.  `yieldsOf` fixes, for every
      handle, after how many awaits the coroutine completes. */
  class Program {
    const yieldsOf: nat -> nat
    var log: seq<Event>
    var next: nat
    var left: map<nat, nat>

    constructor (yieldsOf: nat -> nat)
      ensures this.yieldsOf == yieldsOf && log == [] && next == 0 && left == map[]
    {
      this.yieldsOf := yieldsOf;
      log, next, left := [], 0, map[];
    }

    method BeginRoutine(x: nat, y: nat, z: nat, firstSubgroup: nat, subgroupCount: nat) returns (r: nat)
      modifies this
      ensures r == old(next) && next == r + 1
      ensures left == old(left)[r := yieldsOf(r)]
      ensures log == old(log) + [Begin(r, x, y, z, firstSubgroup, subgroupCount)]
    {
      r := next;
      next := next + 1;
      left := left[r := yieldsOf(r)];
      log := log + [Begin(r, x, y, z, firstSubgroup, subgroupCount)];
    }

    method AwaitRoutine(r: nat) returns (more: bool)
      requires r in left
      modifies this`log, this`left
      ensures more <==> old(left)[r] != 0
      ensures left == if more then old(left)[r := old(left)[r] - 1] else old(left)
      ensures log == old(log) + [Await(r, more)]
    {
      more := left[r] != 0;
      if more {
        left := left[r := left[r] - 1];
      }
      log := log + [Await(r, more)];
    }

    method DestroyRoutine(r: nat)
      modifies this`log
      ensures log == old(log) + [Destroy(r)]
    {
      log := log + [Destroy(r)];
    }
  }

  predicate Holds(queue: seq<nat>, jobs: seq<Job>, left: map<nat, nat>) {
    && |queue| == |jobs|
    && (forall k :: 0 <= k < |jobs| ==> queue[k] == jobs[k].r && jobs[k].r in left && left[jobs[k].r] == jobs[k].left)
  }

  predicate Distinct(jobs: seq<Job>) {
    forall j, k :: 0 <= j < k < |jobs| ==> jobs[j].r != jobs[k].r
  }

  lemma AfterAwaitDistinct(q: seq<Job>)
    requires q != [] && Distinct(q)
    ensures Distinct(AfterAwait(q))
  {
  }

  /** Popping, awaiting and requeueing a handle is what AfterAwait does to the jobs. */
  lemma HoldsAfterAwait(r: nat, rest: seq<nat>, jobs: seq<Job>, left: map<nat, nat>)
    requires Holds([r] + rest, jobs, left) && Distinct(jobs)
    ensures r == jobs[0].r && r in left && left[r] == jobs[0].left
    ensures left[r] == 0 ==> Holds(rest, AfterAwait(jobs), left)
    ensures left[r] != 0 ==> Holds(rest + [r], AfterAwait(jobs), left[r := left[r] - 1])
  {
    var all := [r] + rest;
    assert all[0] == r;
    assert forall k :: 0 <= k < |rest| ==> rest[k] == all[k + 1];
  }

  lemma HoldsAfterBegin(queue: seq<nat>, h: nat, n: nat, yieldsOf: nat -> nat, left: map<nat, nat>)
    requires Holds(queue, Jobs(h, n, yieldsOf), left)
    ensures Holds(queue + [h + n], Jobs(h, n + 1, yieldsOf), left[h + n := yieldsOf(h + n)])
  {
    var jobs, more, queue' := Jobs(h, n, yieldsOf), Jobs(h, n + 1, yieldsOf), queue + [h + n];
    var left' := left[h + n := yieldsOf(h + n)];
    forall k | 0 <= k < |more|
      ensures queue'[k] == more[k].r && more[k].r in left' && left'[more[k].r] == more[k].left
    {
      assert more[k] == Job(h + k, yieldsOf(h + k));
      if k < n {
        assert more[k] == jobs[k];
      }
    }
  }

  // ---------------------------------------------------------------- the same log, step by step

  /** The log and the next handle a program ends with. */
  datatype Outcome = Outcome(log: seq<Event>, next: nat)

  /** Where a thread ends that has logged `log`, has `q` queued, is to begin workgroup `i` when the
      queue is empty, and gives out handles from `h`. */
  ghost function Finish(c: Counts, cells: seq<Cell>, nthreads: nat, yieldsOf: nat -> nat,
                        log: seq<Event>, q: seq<Job>, i: nat, h: nat): Outcome
    requires 0 < nthreads
    decreases |cells| - i, Work(q)
  {
    if q != [] then
      AwaitIsWork(q);
      Finish(c, cells, nthreads, yieldsOf, log + AwaitEvents(q[0]), AfterAwait(q), i, h)
    else if i < |cells| then
      Finish(c, cells, nthreads, yieldsOf, log + BeginLog(c, cells[i], h), Jobs(h, c.PerGroup(), yieldsOf),
             i + nthreads, h + c.PerGroup())
    else
      Outcome(log, h)
  }

  ghost predicate EndsAs(c: Counts, cells: seq<Cell>, nthreads: nat, yieldsOf: nat -> nat,
                         log: seq<Event>, q: seq<Job>, i: nat, h: nat, end: Outcome)
    requires 0 < nthreads
  {
    Finish(c, cells, nthreads, yieldsOf, log, q, i, h) == end
  }

  lemma FinishAwait(c: Counts, cells: seq<Cell>, nthreads: nat, yieldsOf: nat -> nat,
                    log: seq<Event>, q: seq<Job>, i: nat, h: nat, end: Outcome)
    requires 0 < nthreads && q != [] && Distinct(q) && EndsAs(c, cells, nthreads, yieldsOf, log, q, i, h, end)
    ensures EndsAs(c, cells, nthreads, yieldsOf, log + AwaitEvents(q[0]), AfterAwait(q), i, h, end)
    ensures Work(AfterAwait(q)) < Work(q) && Distinct(AfterAwait(q))
  {
    AfterAwaitDistinct(q);
    AwaitIsWork(q);
  }

  lemma FinishBegin(c: Counts, cells: seq<Cell>, nthreads: nat, yieldsOf: nat -> nat,
                    log: seq<Event>, i: nat, h: nat, end: Outcome)
    requires 0 < nthreads && i < |cells| && EndsAs(c, cells, nthreads, yieldsOf, log, [], i, h, end)
    ensures EndsAs(c, cells, nthreads, yieldsOf, log + BeginLog(c, cells[i], h), Jobs(h, c.PerGroup(), yieldsOf),
                   i + nthreads, h + c.PerGroup(), end)
    ensures Distinct(Jobs(h, c.PerGroup(), yieldsOf))
  {
  }

  lemma FinishDone(c: Counts, cells: seq<Cell>, nthreads: nat, yieldsOf: nat -> nat,
                   log: seq<Event>, i: nat, h: nat, end: Outcome)
    requires 0 < nthreads && |cells| <= i && EndsAs(c, cells, nthreads, yieldsOf, log, [], i, h, end)
    ensures end == Outcome(log, h)
  {
  }

  lemma {:induction false} FinishDrain(c: Counts, cells: seq<Cell>, nthreads: nat, yieldsOf: nat -> nat,
                                       log: seq<Event>, q: seq<Job>, i: nat, h: nat)
    requires 0 < nthreads
    ensures Finish(c, cells, nthreads, yieldsOf, log, q, i, h)
         == Finish(c, cells, nthreads, yieldsOf, log + Drain(q), [], i, h)
    decreases Work(q)
  {
    if q == [] {
      assert log + Drain(q) == log;
    } else {
      AwaitIsWork(q);
      FinishDrain(c, cells, nthreads, yieldsOf, log + AwaitEvents(q[0]), AfterAwait(q), i, h);
      Associative(log, AwaitEvents(q[0]), Drain(AfterAwait(q)));
    }
  }

  /** A thread appends its log, and its handles are the next ones. */
  lemma {:induction false} FinishIsThreadLog(c: Counts, cells: seq<Cell>, nthreads: nat, yieldsOf: nat -> nat,
                                             log: seq<Event>, i: nat, h: nat)
    requires 0 < nthreads
    ensures Finish(c, cells, nthreads, yieldsOf, log, [], i, h)
         == Outcome(log + ThreadLog(c, cells, i, nthreads, h, yieldsOf), h + HandlesFrom(c, cells, i, nthreads))
    decreases |cells| - i
  {
    hide Finish, ThreadLog, HandlesFrom, Drain, BeginLog, Jobs;
    if |cells| <= i {
      FinishNothing(c, cells, nthreads, yieldsOf, log, i, h);
    } else {
      var begins, jobs := BeginLog(c, cells[i], h), Jobs(h, c.PerGroup(), yieldsOf);
      var i', h' := i + nthreads, h + c.PerGroup();
      ThreadLogStep(c, cells, i, nthreads, h, yieldsOf);
      FinishBegins(c, cells, nthreads, yieldsOf, log, i, h);
      FinishDrain(c, cells, nthreads, yieldsOf, log + begins, jobs, i', h');
      FinishIsThreadLog(c, cells, nthreads, yieldsOf, log + begins + Drain(jobs), i', h');
      Associative4(log, begins, Drain(jobs), ThreadLog(c, cells, i', nthreads, h', yieldsOf));
    }
  }

  lemma ThreadLogStep(c: Counts, cells: seq<Cell>, i: nat, nthreads: nat, h: nat, yieldsOf: nat -> nat)
    requires 0 < nthreads && i < |cells|
    ensures ThreadLog(c, cells, i, nthreads, h, yieldsOf)
         == BeginLog(c, cells[i], h) + Drain(Jobs(h, c.PerGroup(), yieldsOf))
            + ThreadLog(c, cells, i + nthreads, nthreads, h + c.PerGroup(), yieldsOf)
    ensures HandlesFrom(c, cells, i, nthreads) == c.PerGroup() + HandlesFrom(c, cells, i + nthreads, nthreads)
  {
    hide Drain, BeginLog, Jobs;
  }

  lemma FinishNothing(c: Counts, cells: seq<Cell>, nthreads: nat, yieldsOf: nat -> nat, log: seq<Event>, i: nat, h: nat)
    requires 0 < nthreads && |cells| <= i
    ensures Finish(c, cells, nthreads, yieldsOf, log, [], i, h)
         == Outcome(log + ThreadLog(c, cells, i, nthreads, h, yieldsOf), h + HandlesFrom(c, cells, i, nthreads))
  {
    assert log + [] == log;
  }

  lemma FinishBegins(c: Counts, cells: seq<Cell>, nthreads: nat, yieldsOf: nat -> nat, log: seq<Event>, i: nat, h: nat)
    requires 0 < nthreads && i < |cells|
    ensures Finish(c, cells, nthreads, yieldsOf, log, [], i, h)
         == Finish(c, cells, nthreads, yieldsOf, log + BeginLog(c, cells[i], h), Jobs(h, c.PerGroup(), yieldsOf),
                   i + nthreads, h + c.PerGroup())
  {
    hide BeginLog, Jobs;
  }

  lemma ThreadEndsAs(c: Counts, cells: seq<Cell>, nthreads: nat, yieldsOf: nat -> nat,
                     log: seq<Event>, i: nat, h: nat)
    requires 0 < nthreads
    ensures EndsAs(c, cells, nthreads, yieldsOf, log, [], i, h,
                   Outcome(log + ThreadLog(c, cells, i, nthreads, h, yieldsOf), h + HandlesFrom(c, cells, i, nthreads)))
  {
    FinishIsThreadLog(c, cells, nthreads, yieldsOf, log, i, h);
  }

  lemma Associative4<T>(a: seq<T>, b: seq<T>, c: seq<T>, d: seq<T>)
    ensures a + b + c + d == a + (b + c + d)
  {
    Associative(a, b, c);
    Associative(a, b + c, d);
  }

  lemma BeginLogStep(c: Counts, cell: Cell, h: nat, s: nat, before: seq<Event>)
    requires c.hasCbarriers && s < c.subgroups
    ensures before + BeginLog(c, cell, h)[..s] + [Begin(h + s, cell.0, cell.1, cell.2, s, 1)]
         == before + BeginLog(c, cell, h)[..s + 1]
  {
  }

  /** Begins one coroutine and pushes it, after the `n` coroutines from handle `h` on. */
  method BeginAndPush(program: Program, queue: CoroutineQueue<nat>, x: nat, y: nat, z: nat,
                      firstSubgroup: nat, subgroupCount: nat, ghost h: nat, ghost n: nat)
    requires queue.Valid() && program.next == h + n
    requires Holds(queue.Contents(), Jobs(h, n, program.yieldsOf), program.left)
    modifies program, queue, queue.routines
    ensures queue.Valid() && (queue.routines == old(queue.routines) || fresh(queue.routines))
    ensures program.next == h + n + 1
    ensures program.log == old(program.log) + [Begin(h + n, x, y, z, firstSubgroup, subgroupCount)]
    ensures Holds(queue.Contents(), Jobs(h, n + 1, program.yieldsOf), program.left)
  {
    hide Holds, Jobs, CoroutineQueue.Contents, Shape.Push, Shape.Relocated;
    HoldsAfterBegin(queue.Contents(), h, n, program.yieldsOf, program.left);
    var r := program.BeginRoutine(x, y, z, firstSubgroup, subgroupCount);
    queue.Push(r);
  }

  /** With control barriers every subgroup of the workgroup gets a coroutine of its own. */
  method BeginSubgroups(c: Counts, program: Program, queue: CoroutineQueue<nat>, x: nat, y: nat, z: nat)
    requires c.hasCbarriers && queue.Valid() && queue.Contents() == []
    modifies program, queue, queue.routines
    ensures queue.Valid() && (queue.routines == old(queue.routines) || fresh(queue.routines))
    ensures program.log == old(program.log) + BeginLog(c, (x, y, z), old(program.next))
    ensures program.next == old(program.next) + c.subgroups
    ensures Holds(queue.Contents(), Jobs(old(program.next), c.subgroups, program.yieldsOf), program.left)
  {
    ghost var h := program.next;
    ghost var begins := BeginLog(c, (x, y, z), h);
    var subgroup := 0;
    NothingBegun(c, (x, y, z), h, program.yieldsOf, program.left);
    hide Holds, Jobs, BeginLog, CoroutineQueue.Contents;
    while subgroup < c.subgroups
      invariant subgroup <= c.subgroups
      invariant queue.Valid() && (queue.routines == old(queue.routines) || fresh(queue.routines))
      invariant program.next == h + subgroup
      invariant program.log == old(program.log) + begins[..subgroup]
      invariant Holds(queue.Contents(), Jobs(h, subgroup, program.yieldsOf), program.left)
    {
      BeginLogStep(c, (x, y, z), h, subgroup, old(program.log));
      BeginAndPush(program, queue, x, y, z, subgroup, 1, h, subgroup);
      subgroup := subgroup + 1;
    }
  }

  lemma NothingBegun(c: Counts, cell: Cell, h: nat, yieldsOf: nat -> nat, left: map<nat, nat>)
    ensures Holds([], Jobs(h, 0, yieldsOf), left)
    ensures if c.hasCbarriers then |BeginLog(c, cell, h)| == c.subgroups
            else BeginLog(c, cell, h) == [Begin(h, cell.0, cell.1, cell.2, 0, c.subgroups)]
  {
  }

  /** Begins the coroutines of one workgroup and pushes them. */
  method BeginGroup(c: Counts, program: Program, queue: CoroutineQueue<nat>, x: nat, y: nat, z: nat)
    requires queue.Valid() && queue.Contents() == []
    modifies program, queue, queue.routines
    ensures queue.Valid() && (queue.routines == old(queue.routines) || fresh(queue.routines))
    ensures program.log == old(program.log) + BeginLog(c, (x, y, z), old(program.next))
    ensures program.next == old(program.next) + c.PerGroup()
    ensures Holds(queue.Contents(), Jobs(old(program.next), c.PerGroup(), program.yieldsOf), program.left)
  {
    if c.hasCbarriers {
      BeginSubgroups(c, program, queue, x, y, z);
    } else {
      NothingBegun(c, (x, y, z), program.next, program.yieldsOf, program.left);
      hide Holds, Jobs, BeginLog;
      BeginAndPush(program, queue, x, y, z, 0, c.subgroups, program.next, 0);
    }
  }

  /** Awaits a popped coroutine and requeues or destroys it. */
  method AwaitPopped(program: Program, queue: CoroutineQueue<nat>, r: nat, ghost jobs: seq<Job>)
    requires queue.Valid() && Holds([r] + queue.Contents(), jobs, program.left) && Distinct(jobs)
    modifies program`log, program`left, queue, queue.routines
    ensures queue.Valid() && (queue.routines == old(queue.routines) || fresh(queue.routines))
    ensures Holds(queue.Contents(), AfterAwait(jobs), program.left)
    ensures program.log == old(program.log) + AwaitEvents(jobs[0])
  {
    hide Distinct, queue.Contents;
    HoldsAfterAwait(r, queue.Contents(), jobs, program.left);
    hide Holds;
    var more := program.AwaitRoutine(r);
    if more {
      queue.Push(r);
    } else {
      program.DestroyRoutine(r);
      TwoEvents(old(program.log), Await(r, false), Destroy(r));
    }
  }

  lemma TwoEvents(log: seq<Event>, a: Event, b: Event)
    ensures log + [a] + [b] == log + [a, b]
  {
  }

  /** Awaits the queued coroutines in turn until none is left. */
  method RunToCompletion(ghost c: Counts, ghost cells: seq<Cell>, ghost nthreads: nat, ghost i: nat,
                         program: Program, queue: CoroutineQueue<nat>, ghost start: seq<Job>, ghost end: Outcome)
    requires 0 < nthreads && EndsAs(c, cells, nthreads, program.yieldsOf, program.log, start, i, program.next, end)
    requires queue.Valid() && Holds(queue.Contents(), start, program.left) && Distinct(start)
    modifies program`log, program`left, queue, queue.routines
    ensures queue.Valid() && (queue.routines == old(queue.routines) || fresh(queue.routines))
    ensures queue.Contents() == []
    ensures EndsAs(c, cells, nthreads, program.yieldsOf, program.log, [], i, program.next, end)
  {
    ghost var jobs := start;
    while true
      invariant queue.Valid() && (queue.routines == old(queue.routines) || fresh(queue.routines))
      invariant Holds(queue.Contents(), jobs, program.left) && Distinct(jobs)
      invariant EndsAs(c, cells, nthreads, program.yieldsOf, program.log, jobs, i, program.next, end)
      decreases Work(jobs)
    {
      var ok, r := queue.Pop();
      if !ok {
        break;
      }
      FinishAwait(c, cells, nthreads, program.yieldsOf, program.log, jobs, i, program.next, end);
      AwaitPopped(program, queue, r, jobs);
      jobs := AfterAwait(jobs);
    }
  }

  /** The position of workgroup `i` in the grid. */
  method DecodeGroup(c: Counts, i: nat) returns (x: nat, y: nat, z: nat)
    requires i < c.Groups()
    ensures (x, y, z) == Cells(c)[i]
  {
    GroupIndexOfDecode(c, i);
    var groupId: int := i;
    var z' := groupId / (c.sx * c.sy);
    groupId := groupId - z' * c.sx * c.sy;
    var y' := groupId / c.sx;
    groupId := groupId - y' * c.sx;
    x, y, z := groupId, y', z';
  }

  /** One round of the strided loop: begins the coroutines of the workgroup at (x, y, z) and runs them. */
  method RunGroup(c: Counts, ghost cells: seq<Cell>, ghost nthreads: nat, ghost i: nat,
                  program: Program, queue: CoroutineQueue<nat>, x: nat, y: nat, z: nat, ghost end: Outcome)
    requires 0 < nthreads && i < |cells| && cells[i] == (x, y, z)
    requires queue.Valid() && queue.Contents() == []
    requires EndsAs(c, cells, nthreads, program.yieldsOf, program.log, [], i, program.next, end)
    modifies program, queue, queue.routines
    ensures queue.Valid() && (queue.routines == old(queue.routines) || fresh(queue.routines))
    ensures queue.Contents() == []
    ensures EndsAs(c, cells, nthreads, program.yieldsOf, program.log, [], i + nthreads, program.next, end)
  {
    hide EndsAs, Finish;
    ghost var jobs := Jobs(program.next, c.PerGroup(), program.yieldsOf);
    FinishBegin(c, cells, nthreads, program.yieldsOf, program.log, i, program.next, end);
    BeginGroup(c, program, queue, x, y, z);
    RunToCompletion(c, cells, nthreads, i + nthreads, program, queue, jobs, end);
  }

  /** dispatch_thread: thread `threadIdx` of `nthreads` runs its share of the workgroups. */
  method DispatchThread(c: Counts, nthreads: nat, threadIdx: nat, program: Program, queue: CoroutineQueue<nat>)
    requires 0 < nthreads
    requires queue.Valid() && queue.Contents() == []
    modifies program, queue, queue.routines
    ensures queue.Valid() && (queue.routines == old(queue.routines) || fresh(queue.routines))
    ensures queue.Contents() == []
    ensures program.log == old(program.log)
                           + ThreadLog(c, Cells(c), threadIdx, nthreads, old(program.next), program.yieldsOf)
    ensures program.next == old(program.next) + HandlesFrom(c, Cells(c), threadIdx, nthreads)
  {
    hide EndsAs, Finish, ThreadLog, HandlesFrom, Cells, Counts.Groups;
    ghost var cells := Cells(c);
    ghost var end := Outcome(program.log + ThreadLog(c, cells, threadIdx, nthreads, program.next, program.yieldsOf),
                             program.next + HandlesFrom(c, cells, threadIdx, nthreads));
    CellsFill(c);
    ThreadEndsAs(c, cells, nthreads, program.yieldsOf, program.log, threadIdx, program.next);
    var ngroups := c.Groups();
    var i := threadIdx;
    while i < ngroups
      invariant queue.Valid() && (queue.routines == old(queue.routines) || fresh(queue.routines))
      invariant queue.Contents() == []
      invariant EndsAs(c, cells, nthreads, program.yieldsOf, program.log, [], i, program.next, end)
    {
      var x, y, z := DecodeGroup(c, i);
      RunGroup(c, cells, nthreads, i, program, queue, x, y, z, end);
      i := i + nthreads;
    }
    FinishDone(c, cells, nthreads, program.yieldsOf, program.log, i, program.next, end);
  }
}
