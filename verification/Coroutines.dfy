/** The growable circular buffer of _vendored/gioui-cpu/runtime.c. */
module Coroutines {
  import opened Basics

  /** The smallest non-empty capacity. */
  const MIN_CAPACITY: nat := 10

  /** What `i % cap` is one step past the last slot at most. */
  function Wrap(i: nat, cap: nat): (r: nat) {
    if i < cap then i else i - cap
  }

  lemma ModIsWrap(i: nat, cap: nat)
    requires 0 < cap && i < 2 * cap
    ensures i % cap == Wrap(i, cap)
  {
    if i < cap {
    } else {
      assert i == 1 * cap + (i - cap);
    }
  }

  /** 10, 20, 40, ...: the capacities that growing from nothing can reach. */
  predicate Doubling(cap: nat) {
    cap == MIN_CAPACITY || (cap > MIN_CAPACITY && cap % 2 == 0 && Doubling(cap / 2))
  }

  /** The index fields of the buffer, without its slots. */
  datatype Shape = Shape(start: nat, end: nat, cap: nat) {

    predicate Valid() {
      if cap == 0 then start == end == 0 else MIN_CAPACITY <= cap && start < cap && end < cap
    }

    predicate Wrapped() {
      end < start
    }

    function Length(): nat
      requires Valid()
    {
      if Wrapped() then cap - start + end else end - start
    }

    function Next(): nat {
      if end + 1 >= cap then 0 else end + 1
    }

    /** A push grows the buffer exactly when it would make `end` meet `start`. */
    predicate MustGrow() {
      Next() == start
    }

    function GrownCapacity(): nat {
      Max(cap * 2, MIN_CAPACITY)
    }

    /** Number of slots the wrap relocation of a push moves. */
    function Relocated(): nat {
      if MustGrow() && Wrapped() then end else 0
    }

    /** The same queue in a buffer of the grown capacity, no longer wrapped. */
    function Grown(): Shape {
      Shape(start, if Wrapped() then end + cap else end, GrownCapacity())
    }

    function Push(): Shape
      requires Valid()
    {
      var room := if MustGrow() then Grown() else this;
      room.(end := room.Next())
    }

    function Pop(): Shape
      requires Valid()
    {
      if start == end then this else Shape((start + 1) % cap, end, cap)
    }
  }

  lemma GrownIsDoubling(cap: nat)
    requires cap == 0 || Doubling(cap)
    ensures Doubling(Max(cap * 2, MIN_CAPACITY))
  {
    if cap != 0 {
      assert (cap * 2) / 2 == cap;
    }
  }

  /** Growing happens only when every slot but one is taken, and then there is room to unwrap. */
  lemma GrowthIsAtFull(s: Shape)
    requires s.Valid() && s.MustGrow()
    ensures s.cap != 0 ==> s.Length() == s.cap - 1
    ensures s.Wrapped() ==> s.end <= s.GrownCapacity() - s.cap
  {
  }

  lemma GrownShape(s: Shape)
    requires s.Valid() && s.MustGrow()
    ensures s.Grown().Valid() && !s.Grown().MustGrow()
    ensures s.Grown().Length() == s.Length()
  {
    GrowthIsAtFull(s);
  }

  /** What growing computes, in the buffer's own fields. */
  lemma GrowingSteps(s: Shape)
    requires s.Valid() && s.MustGrow()
    ensures s.GrownCapacity() == if s.cap * 2 < MIN_CAPACITY then MIN_CAPACITY else s.cap * 2
    ensures s.Grown() == Shape(s.start, if s.end < s.start then s.end + s.cap else s.end, s.GrownCapacity())
    ensures s.Relocated() == if s.end < s.start then s.end else 0
    ensures s.Wrapped() <==> s.end < s.start
    ensures s.end <= s.cap && (s.Wrapped() ==> s.cap + s.end <= s.GrownCapacity())
    ensures 0 < s.GrownCapacity() && (s.Grown().end + 1) % s.GrownCapacity() == s.Grown().Next()
  {
    GrowthIsAtFull(s);
    GrownShape(s);
    ModIsWrap(s.Grown().end + 1, s.GrownCapacity());
  }

  lemma PushShape(s: Shape)
    requires s.Valid()
    ensures s.Push().Valid()
    ensures s.Push().Length() == s.Length() + 1
  {
    if s.MustGrow() {
      GrownShape(s);
    }
  }

  lemma PopShape(s: Shape)
    requires s.Valid()
    ensures s.Pop().Valid()
    ensures s.Pop().Length() == if s.Length() == 0 then 0 else s.Length() - 1
  {
    if s.start != s.end {
      ModIsWrap(s.start + 1, s.cap);
    }
  }

  // ---------------------------------------------------------------- whole runs

  datatype Op = DoPush | DoPop

  /** What a run has done so far: the indices, and the totals the bounds speak of. */
  datatype History = History(shape: Shape, pushes: nat, relocated: nat, peak: nat)

  function Run(ops: seq<Op>): (h: History)
    ensures h.shape.Valid()
  {
    if ops == [] then
      History(Shape(0, 0, 0), 0, 0, 0)
    else
      var h := Run(ops[..|ops| - 1]);
      match ops[|ops| - 1]
      case DoPush =>
        PushShape(h.shape);
        var s := h.shape.Push();
        History(s, h.pushes + 1, h.relocated + h.shape.Relocated(), Max(h.peak, s.Length()))
      case DoPop =>
        PopShape(h.shape);
        h.(shape := h.shape.Pop())
  }

  /** Over any run the capacity is zero or a doubling of ten and at most max(10, twice the peak
      length), and wrap relocation has moved at most two slots per push. */
  lemma {:induction false} GrowthBounds(ops: seq<Op>)
    ensures var h := Run(ops);
            && (h.shape.cap == 0 || Doubling(h.shape.cap))
            && h.shape.cap <= Max(MIN_CAPACITY, 2 * h.peak)
            && h.relocated <= 2 * h.pushes
            && h.shape.Length() <= h.peak <= h.pushes
  {
    GrowthInvariant(ops);
  }

  /** The inductive form: relocation is paid for by the capacity gained, and the capacity by pushes. */
  lemma {:induction false} GrowthInvariant(ops: seq<Op>)
    ensures var h := Run(ops);
            && h.shape.Length() <= h.peak <= h.pushes
            && h.shape.cap <= Max(MIN_CAPACITY, 2 * h.peak)
            && (h.shape.cap == 0 ==> h.relocated == 0)
            && (h.shape.cap == 0 || Doubling(h.shape.cap))
            && (h.shape.cap != 0 ==> h.relocated + MIN_CAPACITY <= h.shape.cap)
  {
    if ops != [] {
      var h := Run(ops[..|ops| - 1]);
      GrowthInvariant(ops[..|ops| - 1]);
      if ops[|ops| - 1] == DoPush {
        PushShape(h.shape);
        if h.shape.MustGrow() {
          GrowthIsAtFull(h.shape);
          GrownIsDoubling(h.shape.cap);
        }
      } else {
        PopShape(h.shape);
      }
    }
  }

  // ---------------------------------------------------------------- the buffer itself

  /** The occupied slots, oldest first. */
  function Occupied<T>(slots: seq<T>, s: Shape): (q: seq<T>)
    requires s.Valid() && |slots| == s.cap
    ensures |q| == s.Length()
    ensures forall k :: 0 <= k < |q| ==> q[k] == slots[Wrap(s.start + k, s.cap)]
  {
    if s.Wrapped() then
      slots[s.start..] + slots[..s.end]
    else
      slots[s.start..s.end]
  }

  lemma OccupiedAfterPush<T>(slots: seq<T>, s: Shape, r: T)
    requires s.Valid() && |slots| == s.cap && !s.MustGrow()
    ensures s.end < s.cap && s.Push().Valid()
    ensures Occupied(slots[s.end := r], s.Push()) == Occupied(slots, s) + [r]
  {
    PushShape(s);
  }

  lemma OccupiedAfterPop<T>(slots: seq<T>, s: Shape)
    requires s.Valid() && |slots| == s.cap
    ensures s.Pop().Valid() && s.Pop().cap == s.cap
    ensures s.start == s.end <==> Occupied(slots, s) == []
    ensures s.start != s.end ==> Occupied(slots, s) == [slots[s.start]] + Occupied(slots, s.Pop())
  {
    PopShape(s);
    NoneOccupied(slots, s);
    if s.start != s.end {
      OccupiedRest(slots, s);
      hide Occupied, Shape.Pop;
      if s.Wrapped() {
        SliceHead(slots, s.start, s.cap);
        WholeSlice(slots, s.start);
        Associative([slots[s.start]], slots[s.start + 1..], slots[..s.end]);
      } else {
        SliceHead(slots, s.start, s.end);
      }
      return;
    }
  }

  lemma NoneOccupied<T>(slots: seq<T>, s: Shape)
    requires s.Valid() && |slots| == s.cap
    ensures s.start == s.end <==> Occupied(slots, s) == []
  {
  }

  /** The occupied slots, and those after the oldest, by their place in the buffer. */
  lemma OccupiedRest<T>(slots: seq<T>, s: Shape)
    requires s.Valid() && |slots| == s.cap && s.start != s.end
    ensures s.Pop().Valid() && s.Pop().cap == s.cap
    ensures Occupied(slots, s) == if s.Wrapped() then slots[s.start..] + slots[..s.end] else slots[s.start..s.end]
    ensures Occupied(slots, s.Pop())
         == if s.Wrapped() then slots[s.start + 1..] + slots[..s.end] else slots[s.start + 1..s.end]
  {
    PopShape(s);
    ModIsWrap(s.start + 1, s.cap);
    if s.start + 1 == s.cap {
      assert slots[s.cap..] + slots[..s.end] == slots[..s.end] == slots[0..s.end];
    }
  }

  lemma SliceHead<T>(s: seq<T>, i: nat, j: nat)
    requires i < j <= |s|
    ensures s[i..j] == [s[i]] + s[i + 1..j]
  {
  }

  lemma WholeSlice<T>(s: seq<T>, i: nat)
    requires i < |s|
    ensures s[i..] == s[i..|s|] && s[i + 1..] == s[i + 1..|s|]
  {
  }

  lemma OccupiedAfterGrow<T>(slots: seq<T>, grown: seq<T>, s: Shape)
    requires s.Valid() && |slots| == s.cap && s.MustGrow() && s.Grown().Valid()
    requires |grown| == s.GrownCapacity() && s.cap <= |grown| && grown[..s.cap] == slots
    requires s.Wrapped() ==> s.cap + s.end <= |grown| && grown[s.cap..s.cap + s.end] == grown[..s.end]
    ensures Occupied(grown, s.Grown()) == Occupied(slots, s)
  {
    if s.Wrapped() {
      assert grown[s.start..s.cap] == grown[..s.cap][s.start..] && grown[..s.end] == grown[..s.cap][..s.end];
      assert grown[s.start..s.cap + s.end] == grown[s.start..s.cap] + grown[s.cap..s.cap + s.end];
    } else {
      assert grown[s.start..s.end] == grown[..s.cap][s.start..s.end];
    }
  }

  class CoroutineQueue<T(0)> {
    var routines: array<T>
    var start: nat
    var end: nat
    var cap: nat
    /** Total number of slots moved by wrap relocation. */
    ghost var relocated: nat

    ghost predicate Valid()
      reads this
    {
      IndexShape().Valid() && routines.Length == cap
    }

    ghost function IndexShape(): Shape
      reads this
    {
      Shape(start, end, cap)
    }

    ghost function Contents(): (q: seq<T>)
      reads this, routines
      requires Valid()
    {
      Occupied(routines[..], IndexShape())
    }

    constructor ()
      ensures Valid() && fresh(routines)
      ensures Contents() == [] && IndexShape() == Shape(0, 0, 0) && relocated == 0
    {
      routines := new T[0];
      start, end, cap, relocated := 0, 0, 0, 0;
    }

    /** Adds `r` at the back, growing the buffer first when it is full. */
    method Push(r: T)
      requires Valid()
      modifies this, routines
      ensures Valid() && (routines == old(routines) || fresh(routines))
      ensures Contents() == old(Contents()) + [r]
      ensures IndexShape() == old(IndexShape()).Push()
      ensures relocated == old(relocated) + old(IndexShape()).Relocated()
    {
      var next := end + 1;
      if next >= cap {
        next := 0;
      }
      if next == start {
        next := Grow();
      }
      hide Occupied;
      OccupiedAfterPush(routines[..], IndexShape(), r);
      routines[end] := r;
      end := next;
    }

    /** Reallocates and moves the wrapped elements behind the old capacity; the queue itself is
        unchanged.  Returns the index after the new `end`. */
    method Grow() returns (next: nat)
      requires Valid() && IndexShape().MustGrow()
      modifies this
      ensures Valid() && fresh(routines)
      ensures IndexShape() == old(IndexShape()).Grown() && !IndexShape().MustGrow()
      ensures next == IndexShape().Next()
      ensures Contents() == old(Contents())
      ensures relocated == old(relocated) + old(IndexShape()).Relocated()
    {
      hide Occupied, Shape.Valid, Shape.GrownCapacity, Shape.MustGrow, Shape.Next, Shape.Grown, Shape.Wrapped;
      ghost var s := IndexShape();
      GrownShape(s);
      GrowingSteps(s);
      var newcap := cap * 2;
      if newcap < MIN_CAPACITY {
        newcap := MIN_CAPACITY;
      }
      var grown := Realloc(routines, newcap);
      Unwrap(grown);
      routines := grown;
      cap := newcap;
      next := (end + 1) % cap;
    }

    /** Moves the elements wrapped around the old capacity to the new space of `grown`. */
    method Unwrap(grown: array<T>)
      requires Valid() && IndexShape().MustGrow() && grown != routines
      requires grown.Length == IndexShape().GrownCapacity() && cap <= grown.Length && grown[..cap] == routines[..]
      modifies this`end, this`relocated, grown
      ensures IndexShape().(cap := grown.Length) == old(IndexShape()).Grown()
      ensures old(IndexShape()).Grown().Valid()
      ensures Occupied(grown[..], old(IndexShape()).Grown()) == old(Contents())
      ensures relocated == old(relocated) + old(IndexShape()).Relocated()
    {
      ghost var s := IndexShape();
      GrownShape(s);
      GrowingSteps(s);
      hide Occupied, Shape.Valid, Shape.GrownCapacity, Shape.MustGrow, Shape.Next, Shape.Grown, Shape.Wrapped;
      if end < start {
        var nelems := end;
        var max := grown.Length - cap;
        assert nelems <= max && nelems <= cap;
        MemMove(grown, cap, nelems);
        relocated := relocated + nelems;
        end := end + cap;
      }
      OccupiedAfterGrow(routines[..], grown[..], s);
    }

    /** Takes the oldest element, if there is one. */
    method Pop() returns (ok: bool, r: T)
      requires Valid()
      modifies this
      ensures Valid() && routines == old(routines) && relocated == old(relocated)
      ensures IndexShape() == old(IndexShape()).Pop()
      ensures ok <==> old(Contents()) != []
      ensures ok ==> old(Contents()) == [r] + Contents()
      ensures !ok ==> Contents() == old(Contents())
    {
      OccupiedAfterPop(routines[..], IndexShape());
      hide Occupied;
      if start == end {
        return false, *;
      }
      r := routines[start];
      start := (start + 1) % cap;
      ok := true;
    }
  }

  /** memmove within a buffer: the first `n` elements again from index `at` on. */
  method MemMove<T>(a: array<T>, at: nat, n: nat)
    requires n <= at && at + n <= a.Length
    modifies a
    ensures a[..at] == old(a[..at]) && a[at..at + n] == a[..n]
  {
    forall i | 0 <= i < n {
      a[at + i] := a[i];
    }
  }

  /** realloc: a larger buffer that starts with the old one's elements. */
  method Realloc<T(0)>(a: array<T>, newcap: nat) returns (b: array<T>)
    requires a.Length <= newcap
    ensures fresh(b) && b.Length == newcap && b[..a.Length] == a[..]
  {
    b := new T[newcap];
    forall i | 0 <= i < a.Length {
      b[i] := a[i];
    }
  }
}
