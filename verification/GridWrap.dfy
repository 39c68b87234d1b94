/** The wrapping layout of ui/cryptomaterial/grid.go: where lines break and where elements are drawn. */
module GridWraps {
  import opened Basics

  datatype Axis = Horizontal | Vertical
  datatype Alignment = Start | End | Middle | Baseline
  datatype Point = Point(x: int, y: int) {
    function Plus(p: Point): Point {
      Point(x + p.x, y + p.y)
    }

    function Negated(): Point {
      Point(-x, -y)
    }
  }

  /** What an element reports after laying itself out. */
  datatype Dims = Dims(width: nat, height: nat, baseline: nat)

  function AxisPoint(a: Axis, main: int, cross: int): Point {
    if a == Horizontal then Point(main, cross) else Point(cross, main)
  }

  function AxisMain(a: Axis, p: Point): int {
    if a == Horizontal then p.x else p.y
  }

  function AxisCross(a: Axis, p: Point): int {
    if a == Horizontal then p.y else p.x
  }

  /** An element seen along the axis. */
  datatype Item = Item(main: nat, cross: nat, baseline: nat)

  function ItemOf(a: Axis, d: Dims): Item {
    if a == Horizontal then Item(d.width, d.height, d.baseline) else Item(d.height, d.width, d.baseline)
  }

  // ---------------------------------------------------------------- lines

  /** The extent of the items `lo`, ..., `hi - 1` along the main axis. */
  function Extent(items: seq<Item>, lo: nat, hi: nat): nat
    requires lo <= hi <= |items|
  {
    if lo == hi then 0 else Extent(items, lo, hi - 1) + items[hi - 1].main
  }

  function Tallest(items: seq<Item>, lo: nat, hi: nat): nat
    requires lo <= hi <= |items|
  {
    if lo == hi then 0 else Max(Tallest(items, lo, hi - 1), items[hi - 1].cross)
  }

  function BaseOf(items: seq<Item>, lo: nat, hi: nat): nat
    requires lo <= hi <= |items|
  {
    if lo == hi then 0 else Max(BaseOf(items, lo, hi - 1), items[hi - 1].baseline)
  }

  /** The ends of the lines that the loop makes from item `i` on, when the current line began at `lo` and
      `avail` is what the cross axis offers. */
  function Ends(items: seq<Item>, i: nat, lo: nat, avail: int, width: int, height: int): (ends: seq<nat>)
    requires lo <= i <= |items|
    ensures ends != [] && forall k :: 0 <= k < |ends| ==> i <= ends[k] <= |items|
    decreases |items| - i
  {
    if i == |items| then [i]
    else if items[i].main <= width - Extent(items, lo, i) then Ends(items, i + 1, lo, height, width, height)
    else if items[i].cross <= avail then
      [i] + Ends(items, i + 1, i, height - Tallest(items, lo, i), width, height)
    else [i]
  }

  lemma EndsStep(items: seq<Item>, i: nat, lo: nat, avail: int, width: int, height: int)
    requires lo <= i < |items|
    ensures var ends := Ends(items, i, lo, avail, width, height);
            if items[i].main <= width - Extent(items, lo, i) then
              ends == Ends(items, i + 1, lo, height, width, height)
            else
              && ends != [] && ends[0] == i && ends == [i] + ends[1..]
              && ends[1..] == if items[i].cross <= avail
                              then Ends(items, i + 1, i, height - Tallest(items, lo, i), width, height) else []
  {
    hide Extent, Tallest;
    if items[i].main > width - Extent(items, lo, i) && items[i].cross <= avail {
      var rest := Ends(items, i + 1, i, height - Tallest(items, lo, i), width, height);
      assert Ends(items, i, lo, avail, width, height) == [i] + rest && ([i] + rest)[1..] == rest;
    }
  }

  lemma EndsDone(items: seq<Item>, lo: nat, avail: int, width: int, height: int)
    requires lo <= |items|
    ensures Ends(items, |items|, lo, avail, width, height) == [|items|]
  {
  }

  /** The beginning of line `k`. */
  function LineStart(ends: seq<nat>, from: nat, k: nat): nat
    requires k <= |ends|
  {
    if k == 0 then from else ends[k - 1]
  }

  /** A drawn element: its index and where its upper left corner is, along and across the axis. */
  datatype Spot = Spot(index: nat, main: int, cross: int)

  /** The shift across the axis within a line. */
  function Shift(a: Axis, alignment: Alignment, item: Item, crossMax: int, baseMax: int): int {
    match alignment
    case Start => 0
    case End => crossMax - item.cross
    case Middle => (crossMax - item.cross) / 2
    case Baseline => if a == Horizontal then baseMax - item.baseline else 0
  }

  /** The items `lo`, ..., `hi - 1` of a line of items up to `end`, at `down` across the axis. */
  function LineSpots(a: Axis, alignment: Alignment, items: seq<Item>, lo: nat, hi: nat, end: nat, down: int): seq<Spot>
    requires lo <= hi <= end <= |items|
  {
    if lo == hi then
      []
    else
      LineSpots(a, alignment, items, lo, hi - 1, end, down)
      + [Spot(hi - 1, Extent(items, lo, hi - 1),
              down + Shift(a, alignment, items[hi - 1], Tallest(items, lo, end), BaseOf(items, lo, end)))]
  }

  predicate ValidEnds(items: seq<Item>, from: nat, ends: seq<nat>) {
    && (forall k :: 0 <= k < |ends| ==> from <= ends[k] <= |items|)
    && (forall j, k :: 0 <= j < k < |ends| ==> ends[j] <= ends[k])
  }

  /** All lines, one below the other. */
  function Spots(a: Axis, alignment: Alignment, items: seq<Item>, from: nat, ends: seq<nat>, down: int): seq<Spot>
    requires from <= |items| && ValidEnds(items, from, ends)
    decreases |ends|
  {
    if ends == [] then
      []
    else
      LineSpots(a, alignment, items, from, ends[0], ends[0], down)
      + Spots(a, alignment, items, ends[0], ends[1..], down + Tallest(items, from, ends[0]))
  }

  function Widest(items: seq<Item>, from: nat, ends: seq<nat>): nat
    requires from <= |items| && ValidEnds(items, from, ends)
    decreases |ends|
  {
    if ends == [] then 0 else Max(Extent(items, from, ends[0]), Widest(items, ends[0], ends[1..]))
  }

  function Depth(items: seq<Item>, from: nat, ends: seq<nat>): nat
    requires from <= |items| && ValidEnds(items, from, ends)
    decreases |ends|
  {
    if ends == [] then 0 else Tallest(items, from, ends[0]) + Depth(items, ends[0], ends[1..])
  }

  // ---------------------------------------------------------------- the lines are greedy

  /** A line holds what fits the main axis, or a single item that does not. */
  predicate Fits(items: seq<Item>, width: int, lo: nat, hi: nat) {
    lo <= hi <= |items| && (hi <= lo + 1 || Extent(items, lo, hi) <= width)
  }

  /** Line `k` fits, only the first can be empty, and a line ends only when the next item overflows it. */
  ghost predicate GreedyLine(items: seq<Item>, width: int, from: nat, ends: seq<nat>, k: nat)
    requires k < |ends|
  {
    var lo := LineStart(ends, from, k);
    && Fits(items, width, lo, ends[k])
    && (k > 0 ==> lo < ends[k])
    && (k + 1 < |ends| ==> ends[k] < |items| && Extent(items, lo, ends[k] + 1) > width)
  }

  ghost predicate Greedy(items: seq<Item>, width: int, from: nat, ends: seq<nat>) {
    forall k {:trigger GreedyLine(items, width, from, ends, k)} ::
      0 <= k < |ends| ==> GreedyLine(items, width, from, ends, k)
  }

  lemma {:induction false} EndsAreGreedy(items: seq<Item>, i: nat, lo: nat, avail: int, width: int, height: int)
    requires lo <= i <= |items| && Fits(items, width, lo, i)
    ensures Greedy(items, width, lo, Ends(items, i, lo, avail, width, height))
    decreases |items| - i
  {
    if i < |items| {
      if items[i].main <= width - Extent(items, lo, i) {
        EndsAreGreedy(items, i + 1, lo, height, width, height);
      } else if items[i].cross <= avail {
        EndsAreGreedy(items, i + 1, i, height - Tallest(items, lo, i), width, height);
        GreedyCons(items, width, lo, i, Ends(items, i + 1, i, height - Tallest(items, lo, i), width, height));
      }
    }
  }

  /** What the cross axis offers the item that ends line `k`: the whole of it, less the line before when the current
      line has only one item. */
  function Room(items: seq<Item>, from: nat, ends: seq<nat>, k: nat, height: int): int
    requires k < |ends| && (k > 0 ==> LineStart(ends, from, k - 1) <= ends[k - 1] <= |items|)
  {
    if k > 0 && ends[k] == ends[k - 1] + 1 then
      height - Tallest(items, LineStart(ends, from, k - 1), ends[k - 1])
    else
      height
  }

  /** An item that overflows its line begins a new one exactly when it fits that room, and otherwise it and all
      after it are left out. */
  lemma LinesStopExactly(items: seq<Item>, width: int, height: int, k: nat)
    requires k < |Ends(items, 0, 0, height, width, height)|
    ensures var ends := Ends(items, 0, 0, height, width, height);
            && (k > 0 ==> LineStart(ends, 0, k - 1) <= ends[k - 1])
            && (k + 1 < |ends| ==> ends[k] < |items|)
            && (ends[k] < |items| ==>
                  && Overflows(items, width, LineStart(ends, 0, k), ends[k])
                  && (items[ends[k]].cross <= Room(items, 0, ends, k, height) <==> k + 1 < |ends|))
  {
    EndsStop(items, 0, 0, height, width, height, k);
  }

  predicate Overflows(items: seq<Item>, width: int, lo: nat, i: nat) {
    lo <= i < |items| && items[i].main > width - Extent(items, lo, i)
  }

  /** Of the lines from `from` on: when line `k` stops before the end of the items, its next item overflows it, and
      there is another line exactly if that item fits `room`. */
  predicate StopsAt(items: seq<Item>, width: int, from: nat, ends: seq<nat>, k: nat, room: int)
    requires k < |ends|
  {
    && (k + 1 < |ends| ==> ends[k] < |items|)
    && (ends[k] < |items| ==>
          && Overflows(items, width, LineStart(ends, from, k), ends[k])
          && (items[ends[k]].cross <= room <==> k + 1 < |ends|))
  }

  lemma {:induction false} EndsStop(items: seq<Item>, i: nat, lo: nat, avail: int, width: int, height: int, k: nat)
    requires lo <= i <= |items| && k < |Ends(items, i, lo, avail, width, height)|
    ensures var ends := Ends(items, i, lo, avail, width, height);
            && (k > 0 ==> LineStart(ends, lo, k - 1) <= ends[k - 1])
            && StopsAt(items, width, lo, ends, k,
                       if k == 0 && ends[0] == i then avail else Room(items, lo, ends, k, height))
    decreases |items| - i
  {
    hide Extent, Tallest, Ends, StopsAt;
    var ends := Ends(items, i, lo, avail, width, height);
    if i == |items| {
      EndsDone(items, lo, avail, width, height);
      LastStops(items, width, lo, avail);
    } else {
      EndsStep(items, i, lo, avail, width, height);
      if items[i].main <= width - Extent(items, lo, i) {
        EndsStop(items, i + 1, lo, height, width, height, k);
        EndsFrom(items, i + 1, lo, height, width, height);
      } else if k == 0 {
        FirstStops(items, width, lo, i, ends, avail);
      } else {
        var rest := Ends(items, i + 1, i, height - Tallest(items, lo, i), width, height);
        EndsStop(items, i + 1, i, height - Tallest(items, lo, i), width, height, k - 1);
        LaterStops(items, width, height, lo, i, rest, k);
      }
    }
  }

  lemma LastStops(items: seq<Item>, width: int, lo: nat, room: int)
    ensures StopsAt(items, width, lo, [|items|], 0, room)
  {
  }

  lemma FirstStops(items: seq<Item>, width: int, lo: nat, i: nat, ends: seq<nat>, avail: int)
    requires lo <= i < |items| && items[i].main > width - Extent(items, lo, i)
    requires ends != [] && ends[0] == i && (items[i].cross <= avail <==> 1 < |ends|)
    ensures StopsAt(items, width, lo, ends, 0, avail)
  {
  }

  lemma LaterStops(items: seq<Item>, width: int, height: int, lo: nat, i: nat, rest: seq<nat>, k: nat)
    requires lo <= i < |items| && 0 < k <= |rest|
    requires k > 1 ==> LineStart(rest, i, k - 2) <= rest[k - 2] <= |items|
    requires StopsAt(items, width, i, rest, k - 1,
                     if k == 1 && rest[0] == i + 1 then height - Tallest(items, lo, i)
                     else Room(items, i, rest, k - 1, height))
    ensures LineStart([i] + rest, lo, k - 1) <= ([i] + rest)[k - 1] <= |items|
    ensures StopsAt(items, width, lo, [i] + rest, k, Room(items, lo, [i] + rest, k, height))
  {
    hide Extent, Tallest;
    assert LineStart([i] + rest, lo, k) == LineStart(rest, i, k - 1);
  }

  lemma EndsFrom(items: seq<Item>, i: nat, lo: nat, avail: int, width: int, height: int)
    requires lo <= i <= |items|
    ensures Ends(items, i, lo, avail, width, height) != [] && Ends(items, i, lo, avail, width, height)[0] >= i
    ensures forall k :: 0 <= k < |Ends(items, i, lo, avail, width, height)| ==>
              Ends(items, i, lo, avail, width, height)[k] <= |items|
  {
  }

  /** A line that the next item overflows, before lines that are greedy. */
  lemma GreedyCons(items: seq<Item>, width: int, lo: nat, i: nat, rest: seq<nat>)
    requires lo <= i < |items| && Fits(items, width, lo, i) && Extent(items, lo, i + 1) > width
    requires rest != [] && rest[0] > i && Greedy(items, width, i, rest)
    ensures Greedy(items, width, lo, [i] + rest)
  {
    var ends := [i] + rest;
    forall k | 0 <= k < |ends|
      ensures GreedyLine(items, width, lo, ends, k)
    {
      if k > 0 {
        assert GreedyLine(items, width, i, rest, k - 1);
      }
    }
  }

  lemma {:induction false} GreedyIsValid(items: seq<Item>, width: int, from: nat, ends: seq<nat>)
    requires from <= |items| && Greedy(items, width, from, ends)
    ensures ValidEnds(items, from, ends)
    decreases |ends|
  {
    forall k | 0 <= k < |ends|
      ensures from <= ends[k] <= |items|
    {
      assert GreedyLine(items, width, from, ends, k);
      AscendFrom(items, width, from, ends, 0, k);
    }
    forall j, k | 0 <= j < k < |ends|
      ensures ends[j] <= ends[k]
    {
      AscendFrom(items, width, from, ends, j + 1, k);
    }
  }

  lemma {:induction false} AscendFrom(items: seq<Item>, width: int, from: nat, ends: seq<nat>, j: nat, k: nat)
    requires Greedy(items, width, from, ends) && j <= k < |ends|
    ensures LineStart(ends, from, j) <= ends[k]
    ensures 0 < j ==> LineStart(ends, from, j) < ends[k]
    decreases k - j
  {
    assert GreedyLine(items, width, from, ends, k);
    if j < k {
      AscendFrom(items, width, from, ends, j, k - 1);
    }
  }

  /** `cuts` splits the first items, in order, into lines that fit. */
  ghost predicate Split(items: seq<Item>, width: int, cuts: seq<nat>) {
    forall k :: 0 <= k < |cuts| ==> Fits(items, width, LineStart(cuts, 0, k), cuts[k])
  }

  function LastEnd(ends: seq<nat>): nat {
    if ends == [] then 0 else ends[|ends| - 1]
  }

  /** The lines that hold something. */
  function NonEmpty(ends: seq<nat>): nat {
    if ends != [] && ends[0] == 0 then |ends| - 1 else |ends|
  }

  lemma {:induction false} ExtentGrows(items: seq<Item>, lo: nat, lo': nat, hi: nat, hi': nat)
    requires lo <= lo' <= hi' <= hi <= |items|
    ensures Extent(items, lo', hi') <= Extent(items, lo, hi)
    decreases hi - lo
  {
    if hi' < hi {
      ExtentGrows(items, lo, lo', hi - 1, hi');
    } else if lo < lo' && lo' < hi {
      ExtentGrows(items, lo, lo', hi - 1, hi - 1);
    }
  }

  lemma {:induction false} CutsAscend(items: seq<Item>, width: int, cuts: seq<nat>, j: nat)
    requires Split(items, width, cuts) && j < |cuts|
    ensures cuts[j] <= LastEnd(cuts)
    decreases |cuts| - j
  {
    if j + 1 < |cuts| {
      assert Fits(items, width, LineStart(cuts, 0, j + 1), cuts[j + 1]);
      CutsAscend(items, width, cuts, j + 1);
    }
  }

  /** No fitting split is ever ahead of the greedy lines; `skip` leaves out an empty first line. */
  lemma {:induction false} GreedyStaysAhead(items: seq<Item>, width: int, ends: seq<nat>, cuts: seq<nat>,
                                            skip: nat, k: nat)
    requires Greedy(items, width, 0, ends) && Split(items, width, cuts) && LastEnd(cuts) == LastEnd(ends)
    requires skip == |ends| - NonEmpty(ends) && k < |cuts| && k + skip < |ends|
    ensures cuts[k] <= ends[k + skip]
    decreases k
  {
    if k > 0 {
      GreedyStaysAhead(items, width, ends, cuts, skip, k - 1);
    }
    hide Greedy, Split;
    CutsAscend(items, width, cuts, k);
    LineIsAhead(items, width, ends, cuts, k + skip, k);
  }

  /** One greedy line that starts no earlier than a fitting one is not overtaken by it. */
  lemma LineIsAhead(items: seq<Item>, width: int, ends: seq<nat>, cuts: seq<nat>, g: nat, k: nat)
    requires Greedy(items, width, 0, ends) && Split(items, width, cuts) && k < |cuts| && g < |ends|
    requires LineStart(cuts, 0, k) <= LineStart(ends, 0, g) && (ends[g] != 0 || 0 < g)
    requires cuts[k] <= LastEnd(ends)
    ensures cuts[k] <= ends[g]
  {
    hide Extent;
    var lo, lo' := LineStart(ends, 0, g), LineStart(cuts, 0, k);
    assert GreedyLine(items, width, 0, ends, g) && lo' <= lo;
    if g + 1 < |ends| && cuts[k] > ends[g] {
      assert Fits(items, width, lo', cuts[k]);
      ExtentGrows(items, lo', lo, cuts[k], ends[g] + 1);
    }
  }

  /** The loop's lines are as few as any order-preserving split of the same items into fitting lines. */
  lemma GreedyIsOptimal(items: seq<Item>, width: int, height: int, cuts: seq<nat>)
    requires var ends := Ends(items, 0, 0, height, width, height);
             Split(items, width, cuts) && LastEnd(cuts) == LastEnd(ends)
    ensures NonEmpty(Ends(items, 0, 0, height, width, height)) <= |cuts|
  {
    hide Greedy, Split;
    EndsAreGreedy(items, 0, 0, height, width, height);
    NoFewerLines(items, width, Ends(items, 0, 0, height, width, height), cuts);
  }

  lemma NoFewerLines(items: seq<Item>, width: int, ends: seq<nat>, cuts: seq<nat>)
    requires Greedy(items, width, 0, ends) && Split(items, width, cuts) && LastEnd(cuts) == LastEnd(ends)
    ensures NonEmpty(ends) <= |cuts|
  {
    hide Greedy, Split;
    var skip := |ends| - NonEmpty(ends);
    if |cuts| + skip < |ends| {
      if cuts == [] {
        if 1 < |ends| {
          AscendFrom(items, width, 0, ends, 1, |ends| - 1);
        }
      } else {
        GreedyStaysAhead(items, width, ends, cuts, skip, |cuts| - 1);
        AscendFrom(items, width, 0, ends, |cuts| + skip, |ends| - 1);
      }
    }
  }

  /** The lines themselves are such a split. */
  lemma LinesSplitItems(items: seq<Item>, width: int, height: int)
    ensures Split(items, width, Ends(items, 0, 0, height, width, height))
  {
    EndsAreGreedy(items, 0, 0, height, width, height);
    var ends := Ends(items, 0, 0, height, width, height);
    forall k | 0 <= k < |ends|
      ensures Fits(items, width, LineStart(ends, 0, k), ends[k])
    {
      assert GreedyLine(items, width, 0, ends, k);
    }
  }

  /** When every item fits the main axis and none was refused, the lines hold all items, in order, each line
      fits, and no other split into fitting lines has fewer. */
  lemma LinesAreFewest(items: seq<Item>, width: int, height: int)
    requires forall i :: 0 <= i < |items| ==> items[i].main <= width
    requires LastEnd(Ends(items, 0, 0, height, width, height)) == |items|
    ensures var ends := Ends(items, 0, 0, height, width, height);
            && (forall k :: 0 <= k < |ends| ==>
                  LineStart(ends, 0, k) <= ends[k] <= |items|
                  && (LineStart(ends, 0, k) < ends[k] ==> Extent(items, LineStart(ends, 0, k), ends[k]) <= width))
            && (forall cuts :: Split(items, width, cuts) && LastEnd(cuts) == |items| ==> NonEmpty(ends) <= |cuts|)
  {
    var ends := Ends(items, 0, 0, height, width, height);
    LinesSplitItems(items, width, height);
    forall k | 0 <= k < |ends| && LineStart(ends, 0, k) < ends[k]
      ensures Extent(items, LineStart(ends, 0, k), ends[k]) <= width
    {
      assert Fits(items, width, LineStart(ends, 0, k), ends[k]);
    }
    forall cuts | Split(items, width, cuts) && LastEnd(cuts) == |items|
      ensures NonEmpty(ends) <= |cuts|
    {
      GreedyIsOptimal(items, width, height, cuts);
    }
  }

  /** All items are placed as long as any two of them fit the cross axis together. */
  lemma {:induction false} AllPlaced(items: seq<Item>, i: nat, lo: nat, avail: int, width: int, height: int)
    requires lo <= i <= |items|
    requires forall j, k :: 0 <= j < |items| && 0 <= k < |items| ==> items[j].cross + items[k].cross <= height
    requires forall j :: 0 <= j < |items| ==> items[j].cross <= avail
    ensures LastEnd(Ends(items, i, lo, avail, width, height)) == |items|
    decreases |items| - i
  {
    if i < |items| {
      forall j | 0 <= j < |items|
        ensures items[j].cross <= height - Tallest(items, lo, i) && items[j].cross <= height
      {
        TallestIsOne(items, lo, i);
      }
      AllPlaced(items, i + 1, lo, height, width, height);
      AllPlaced(items, i + 1, i, height - Tallest(items, lo, i), width, height);
    }
  }

  lemma {:induction false} TallestIsOne(items: seq<Item>, lo: nat, hi: nat)
    requires lo <= hi <= |items|
    ensures Tallest(items, lo, hi) == 0 || exists k :: lo <= k < hi && Tallest(items, lo, hi) == items[k].cross
    ensures forall k :: lo <= k < hi ==> items[k].cross <= Tallest(items, lo, hi)
    decreases hi - lo
  {
    if lo < hi {
      TallestIsOne(items, lo, hi - 1);
    }
  }

  // ---------------------------------------------------------------- geometry

  /** The box of a spot overlaps no part of the other's. */
  predicate Apart(items: seq<Item>, p: Spot, q: Spot)
    requires p.index < |items| && q.index < |items|
  {
    || p.main + items[p.index].main <= q.main || q.main + items[q.index].main <= p.main
    || p.cross + items[p.index].cross <= q.cross || q.cross + items[q.index].cross <= p.cross
  }

  /** The box of a spot lies within the given ranges. */
  predicate Inside(items: seq<Item>, p: Spot, width: int, top: int, bottom: int) {
    && p.index < |items| && 0 <= p.main && p.main + items[p.index].main <= width
    && top <= p.cross && p.cross + items[p.index].cross <= bottom
  }

  /** With `room` across the axis, the items `lo`, ..., `hi - 1` of a line up to `end` do not stick out. */
  ghost predicate LineFits(a: Axis, alignment: Alignment, items: seq<Item>, lo: nat, hi: nat, end: nat, room: int)
    requires lo <= hi <= end <= |items|
  {
    forall k :: lo <= k < hi ==>
      Shift(a, alignment, items[k], Tallest(items, lo, end), BaseOf(items, lo, end)) + items[k].cross <= room
  }

  /** No line sticks out of its own height. */
  ghost predicate LinesFit(a: Axis, alignment: Alignment, items: seq<Item>, from: nat, ends: seq<nat>)
    requires from <= |items| && ValidEnds(items, from, ends)
    decreases |ends|
  {
    ends == [] || (
      && LineFits(a, alignment, items, from, ends[0], ends[0], Tallest(items, from, ends[0]))
      && LinesFit(a, alignment, items, ends[0], ends[1..]))
  }

  /** No line sticks out of its own height and that of the lines below it. */
  ghost predicate SizeFits(a: Axis, alignment: Alignment, items: seq<Item>, from: nat, ends: seq<nat>)
    requires from <= |items| && ValidEnds(items, from, ends)
    decreases |ends|
  {
    ends == [] || (
      && LineFits(a, alignment, items, from, ends[0], ends[0], Depth(items, from, ends))
      && SizeFits(a, alignment, items, ends[0], ends[1..]))
  }

  lemma {:induction false} BaseIsLargest(items: seq<Item>, lo: nat, hi: nat)
    requires lo <= hi <= |items|
    ensures forall k :: lo <= k < hi ==> items[k].baseline <= BaseOf(items, lo, hi)
    ensures BaseOf(items, lo, hi) == 0 || exists k :: lo <= k < hi && BaseOf(items, lo, hi) == items[k].baseline
    decreases hi - lo
  {
    if lo < hi {
      BaseIsLargest(items, lo, hi - 1);
    }
  }

  lemma ShiftIsDown(a: Axis, alignment: Alignment, item: Item, crossMax: int, baseMax: int)
    requires item.cross <= crossMax && item.baseline <= baseMax
    ensures 0 <= Shift(a, alignment, item, crossMax, baseMax)
    ensures a == Vertical || alignment != Baseline ==>
              Shift(a, alignment, item, crossMax, baseMax) + item.cross <= crossMax
  {
  }

  /** Only Baseline alignment along the horizontal axis can make a line stick out... */
  lemma {:induction false} OtherLinesFit(a: Axis, alignment: Alignment, items: seq<Item>, from: nat, ends: seq<nat>)
    requires from <= |items| && ValidEnds(items, from, ends) && (a == Vertical || alignment != Baseline)
    ensures LinesFit(a, alignment, items, from, ends)
    decreases |ends|
  {
    if ends != [] {
      var crossMax, baseMax := Tallest(items, from, ends[0]), BaseOf(items, from, ends[0]);
      TallestIsOne(items, from, ends[0]);
      BaseIsLargest(items, from, ends[0]);
      forall k | from <= k < ends[0]
        ensures Shift(a, alignment, items[k], crossMax, baseMax) + items[k].cross <= crossMax
      {
        ShiftIsDown(a, alignment, items[k], crossMax, baseMax);
      }
      OtherLinesFit(a, alignment, items, ends[0], ends[1..]);
    }
  }

  /** ... and there every item is moved by what the line's largest baseline exceeds its own by. */
  lemma BaselineLineFits(items: seq<Item>, lo: nat, end: nat, room: int)
    requires lo <= end <= |items|
    ensures LineFits(Horizontal, Baseline, items, lo, end, end, room)
       <==> forall k :: lo <= k < end ==> BaseOf(items, lo, end) - items[k].baseline + items[k].cross <= room
  {
    forall k | lo <= k < end
      ensures Shift(Horizontal, Baseline, items[k], Tallest(items, lo, end), BaseOf(items, lo, end))
           == BaseOf(items, lo, end) - items[k].baseline
    {
    }
  }

  /** Along the vertical axis Baseline alignment is Start. */
  lemma {:induction false} VerticalBaselineIsStart(items: seq<Item>, from: nat, ends: seq<nat>, down: int)
    requires from <= |items| && ValidEnds(items, from, ends)
    ensures Spots(Vertical, Baseline, items, from, ends, down) == Spots(Vertical, Start, items, from, ends, down)
    decreases |ends|
  {
    if ends != [] {
      VerticalLineIsStart(items, from, ends[0], ends[0], down);
      VerticalBaselineIsStart(items, ends[0], ends[1..], down + Tallest(items, from, ends[0]));
    }
  }

  lemma {:induction false} VerticalLineIsStart(items: seq<Item>, lo: nat, hi: nat, end: nat, down: int)
    requires lo <= hi <= end <= |items|
    ensures LineSpots(Vertical, Baseline, items, lo, hi, end, down)
         == LineSpots(Vertical, Start, items, lo, hi, end, down)
    decreases hi - lo
  {
    if lo < hi {
      VerticalLineIsStart(items, lo, hi - 1, end, down);
    }
  }

  /** The spots are the items from `from` on, in order, inside the given ranges and apart from each other. */
  ghost predicate LaidOut(items: seq<Item>, from: nat, s: seq<Spot>, width: int, top: int, bottom: int) {
    && (forall k :: 0 <= k < |s| ==> s[k].index == from + k && Inside(items, s[k], width, top, bottom))
    && (forall j, k :: 0 <= j < k < |s| ==> Apart(items, s[j], s[k]))
  }

  lemma NothingLaidOut(items: seq<Item>, from: nat, width: int, top: int, bottom: int)
    ensures LaidOut(items, from, [], width, top, bottom)
  {
  }

  lemma LaidOutSnoc(items: seq<Item>, from: nat, s: seq<Spot>, last: Spot, width: int, top: int, bottom: int)
    requires LaidOut(items, from, s, width, top, bottom) && 0 <= width
    requires last.index == from + |s| < |items| && last.main == width
    requires top <= last.cross && last.cross + items[last.index].cross <= bottom
    ensures LaidOut(items, from, s + [last], width + items[last.index].main, top, bottom)
  {
  }

  lemma LaidOutBelow(items: seq<Item>, from: nat, s: seq<Spot>, t: seq<Spot>, width: int, width': int,
                     top: int, middle: int, bottom: int)
    requires LaidOut(items, from, s, width, top, middle) && LaidOut(items, from + |s|, t, width', middle, bottom)
    requires top <= middle <= bottom
    ensures LaidOut(items, from, s + t, Max(width, width'), top, bottom)
  {
  }

  /** Where the items of a line are. */
  lemma {:induction false} LineSpotAt(a: Axis, alignment: Alignment, items: seq<Item>, lo: nat, hi: nat, end: nat,
                                      down: int, k: nat)
    requires lo <= hi <= end <= |items| && k < hi - lo
    ensures var l := LineSpots(a, alignment, items, lo, hi, end, down);
            && |l| == hi - lo
            && l[k] == Spot(lo + k, Extent(items, lo, lo + k),
                            down + Shift(a, alignment, items[lo + k], Tallest(items, lo, end), BaseOf(items, lo, end)))
    decreases hi - lo
  {
    hide Shift, Tallest, BaseOf;
    LineLength(a, alignment, items, lo, hi - 1, end, down);
    if k < hi - 1 - lo {
      LineSpotAt(a, alignment, items, lo, hi - 1, end, down, k);
    }
  }

  lemma {:induction false} LineLength(a: Axis, alignment: Alignment, items: seq<Item>, lo: nat, hi: nat, end: nat,
                                      down: int)
    requires lo <= hi <= end <= |items|
    ensures |LineSpots(a, alignment, items, lo, hi, end, down)| == hi - lo
    decreases hi - lo
  {
    if lo < hi {
      LineLength(a, alignment, items, lo, hi - 1, end, down);
    }
  }

  /** The items of a line lie side by side inside a box of some height exactly when none sticks out of it. */
  lemma LineGeometry(a: Axis, alignment: Alignment, items: seq<Item>, lo: nat, hi: nat, end: nat, down: int, room: int)
    requires lo <= hi <= end <= |items|
    ensures var l := LineSpots(a, alignment, items, lo, hi, end, down);
            && |l| == hi - lo
            && (LaidOut(items, lo, l, Extent(items, lo, hi), down, down + room)
                <==> LineFits(a, alignment, items, lo, hi, end, room))
  {
    hide Shift, Tallest, BaseOf, LineSpots, Extent;
    var l := LineSpots(a, alignment, items, lo, hi, end, down);
    LineLength(a, alignment, items, lo, hi, end, down);
    if LineFits(a, alignment, items, lo, hi, end, room) {
      FittingLineIsLaidOut(a, alignment, items, lo, hi, end, down, room);
    } else {
      var crossMax, baseMax := Tallest(items, lo, end), BaseOf(items, lo, end);
      var k :| lo <= k < hi && Shift(a, alignment, items[k], crossMax, baseMax) + items[k].cross > room;
      LineSpotAt(a, alignment, items, lo, hi, end, down, k - lo);
      assert !Inside(items, l[k - lo], Extent(items, lo, hi), down, down + room);
    }
  }

  lemma {:induction false} FittingLineIsLaidOut(a: Axis, alignment: Alignment, items: seq<Item>, lo: nat, hi: nat,
                                                end: nat, down: int, room: int)
    requires lo <= hi <= end <= |items| && LineFits(a, alignment, items, lo, hi, end, room)
    ensures |LineSpots(a, alignment, items, lo, hi, end, down)| == hi - lo
    ensures LaidOut(items, lo, LineSpots(a, alignment, items, lo, hi, end, down), Extent(items, lo, hi),
                    down, down + room)
    decreases hi - lo
  {
    hide Shift, Tallest, BaseOf, LaidOut;
    if lo == hi {
      NothingLaidOut(items, lo, 0, down, down + room);
    } else {
      var crossMax, baseMax := Tallest(items, lo, end), BaseOf(items, lo, end);
      var shift := Shift(a, alignment, items[hi - 1], crossMax, baseMax);
      FittingLineIsLaidOut(a, alignment, items, lo, hi - 1, end, down, room);
      TallestIsOne(items, lo, end);
      BaseIsLargest(items, lo, end);
      ShiftIsDown(a, alignment, items[hi - 1], crossMax, baseMax);
      LaidOutSnoc(items, lo, LineSpots(a, alignment, items, lo, hi - 1, end, down),
                  Spot(hi - 1, Extent(items, lo, hi - 1), down + shift), Extent(items, lo, hi - 1), down, down + room);
    }
  }

  /** Across the axis, in a line of the items `lo`, ..., `end - 1` that begins at `top`: Start has the near edges at
      the line's near edge, End the far edges at its far edge, Middle the same space on both sides up to one unit, and
      Baseline the baselines on one line. */
  predicate Aligned(a: Axis, alignment: Alignment, items: seq<Item>, lo: nat, end: nat, top: int, p: Spot)
    requires lo <= p.index < end <= |items|
  {
    var item, bottom := items[p.index], top + Tallest(items, lo, end);
    match alignment
    case Start => p.cross == top
    case End => p.cross + item.cross == bottom
    case Middle => 0 <= (bottom - (p.cross + item.cross)) - (p.cross - top) <= 1
    case Baseline => if a == Horizontal then p.cross + item.baseline == top + BaseOf(items, lo, end) else p.cross == top
  }

  /** Item `i` is aligned, and along the axis it begins where the one before it in the line ends. */
  predicate Placed(a: Axis, alignment: Alignment, items: seq<Item>, lo: nat, end: nat, top: int, from: nat,
                   s: seq<Spot>, i: nat)
    requires from <= lo <= i < end <= |items|
  {
    && i - from < |s| && s[i - from].index == i
    && s[i - from].main == (if i == lo then 0 else s[i - from - 1].main + items[i - 1].main)
    && Aligned(a, alignment, items, lo, end, top, s[i - from])
  }

  /** Every item of every line is placed so, the line beginning where those before it end. */
  lemma {:induction false} ItemsArePlaced(a: Axis, alignment: Alignment, items: seq<Item>, from: nat, ends: seq<nat>,
                                          down: int, k: nat, i: nat)
    requires from <= |items| && ValidEnds(items, from, ends) && k < |ends| && LineStart(ends, from, k) <= i < ends[k]
    ensures Placed(a, alignment, items, LineStart(ends, from, k), ends[k], down + Depth(items, from, ends[..k]),
                   from, Spots(a, alignment, items, from, ends, down), i)
    decreases k
  {
    hide LineSpots, Tallest, Placed, Extent, Spots, Depth;
    PlacedSteps(a, alignment, items, from, ends, down, k);
    var line := LineSpots(a, alignment, items, from, ends[0], ends[0], down);
    var middle := down + Tallest(items, from, ends[0]);
    var below := Spots(a, alignment, items, ends[0], ends[1..], middle);
    LineLength(a, alignment, items, from, ends[0], ends[0], down);
    if k == 0 {
      LinePlaced(a, alignment, items, from, ends[0], down, i);
      PlacedBefore(a, alignment, items, from, ends[0], down, from, line, below, i);
    } else {
      ItemsArePlaced(a, alignment, items, ends[0], ends[1..], middle, k - 1, i);
      PlacedAfter(a, alignment, items, LineStart(ends, from, k), ends[k], down + Depth(items, from, ends[..k]),
                  from, line, below, i);
    }
  }

  lemma PlacedSteps(a: Axis, alignment: Alignment, items: seq<Item>, from: nat, ends: seq<nat>, down: int, k: nat)
    requires from <= |items| && ValidEnds(items, from, ends) && k < |ends|
    ensures ValidEnds(items, ends[0], ends[1..])
    ensures Spots(a, alignment, items, from, ends, down)
         == LineSpots(a, alignment, items, from, ends[0], ends[0], down)
            + Spots(a, alignment, items, ends[0], ends[1..], down + Tallest(items, from, ends[0]))
    ensures Depth(items, from, ends[..k])
         == if k == 0 then 0 else Tallest(items, from, ends[0]) + Depth(items, ends[0], ends[1..][..k - 1])
  {
    hide LineSpots, Tallest, Extent;
    if k > 0 {
      assert ends[..k][1..] == ends[1..][..k - 1];
    }
  }

  lemma PlacedBefore(a: Axis, alignment: Alignment, items: seq<Item>, lo: nat, end: nat, top: int, from: nat,
                     s: seq<Spot>, t: seq<Spot>, i: nat)
    requires from <= lo <= i < end <= |items| && Placed(a, alignment, items, lo, end, top, from, s, i)
    ensures Placed(a, alignment, items, lo, end, top, from, s + t, i)
  {
    hide Aligned;
  }

  lemma PlacedAfter(a: Axis, alignment: Alignment, items: seq<Item>, lo: nat, end: nat, top: int, from: nat,
                    s: seq<Spot>, t: seq<Spot>, i: nat)
    requires from + |s| <= lo <= i < end <= |items| && Placed(a, alignment, items, lo, end, top, from + |s|, t, i)
    ensures Placed(a, alignment, items, lo, end, top, from, s + t, i)
  {
    hide Aligned;
    assert (s + t)[i - from] == t[i - from - |s|];
    assert lo < i ==> (s + t)[i - from - 1] == t[i - from - |s| - 1];
  }

  lemma LinePlaced(a: Axis, alignment: Alignment, items: seq<Item>, lo: nat, end: nat, down: int, i: nat)
    requires lo <= i < end <= |items|
    ensures Placed(a, alignment, items, lo, end, down, lo, LineSpots(a, alignment, items, lo, end, end, down), i)
  {
    hide LineSpots, Tallest, BaseOf;
    LineSpotAt(a, alignment, items, lo, end, end, down, i - lo);
    if lo < i {
      LineSpotAt(a, alignment, items, lo, end, end, down, i - lo - 1);
    }
    TallestIsOne(items, lo, end);
  }

  /** What the layout adds up: `Extent` sums along the axis, ... */
  lemma {:induction false} ExtentAdds(items: seq<Item>, lo: nat, mid: nat, hi: nat)
    requires lo <= mid <= hi <= |items|
    ensures Extent(items, lo, hi) == Extent(items, lo, mid) + Extent(items, mid, hi)
    ensures mid < |items| ==> Extent(items, mid, mid + 1) == items[mid].main
    decreases hi - mid
  {
    if mid < |items| {
      assert Extent(items, mid, mid) == 0;
    }
    if mid < hi {
      ExtentAdds(items, lo, mid, hi - 1);
    }
  }

  /** ... `Depth` the heights of the lines across it, ... */
  lemma {:induction false} DepthAdds(items: seq<Item>, from: nat, ends: seq<nat>, k: nat)
    requires from <= |items| && ValidEnds(items, from, ends) && k < |ends|
    ensures Depth(items, from, []) == 0
    ensures Depth(items, from, ends[..k + 1])
         == Depth(items, from, ends[..k]) + Tallest(items, LineStart(ends, from, k), ends[k])
    decreases |ends|
  {
    hide Tallest;
    var rest := ends[1..];
    if k == 0 {
      assert ends[..1][1..] == [] && ends[..0] == [];
      assert Depth(items, ends[0], []) == 0;
    } else {
      DepthAdds(items, ends[0], rest, k - 1);
      assert ends[..k + 1][1..] == rest[..k] && ends[..k][1..] == rest[..k - 1];
    }
  }

  /** ... and `Widest` is the extent of the widest line. */
  lemma {:induction false} WidestIsOne(items: seq<Item>, from: nat, ends: seq<nat>) returns (j: nat)
    requires from <= |items| && ValidEnds(items, from, ends) && ends != []
    ensures j < |ends| && Extent(items, LineStart(ends, from, j), ends[j]) == Widest(items, from, ends)
    ensures forall k :: 0 <= k < |ends| ==>
              Extent(items, LineStart(ends, from, k), ends[k]) <= Widest(items, from, ends)
    decreases |ends|
  {
    hide Extent;
    var first, rest := Extent(items, from, ends[0]), ends[1..];
    j := 0;
    if rest != [] {
      var j' := WidestIsOne(items, ends[0], rest);
      forall k | 0 < k < |ends|
        ensures LineStart(ends, from, k) == LineStart(rest, ends[0], k - 1) && ends[k] == rest[k - 1]
      {
      }
      if Widest(items, ends[0], rest) > first {
        j := j' + 1;
      }
    }
  }

  /** When no line sticks out of its own height, all elements are drawn once, in order, inside the returned
      size, and no two overlap. */
  lemma {:induction false} FittingLinesAreLaidOut(a: Axis, alignment: Alignment, items: seq<Item>, from: nat,
                                                  ends: seq<nat>, down: int)
    requires from <= |items| && ValidEnds(items, from, ends) && LinesFit(a, alignment, items, from, ends)
    ensures var s := Spots(a, alignment, items, from, ends, down);
            && |s| == (if ends == [] then 0 else LastEnd(ends) - from)
            && LaidOut(items, from, s, Widest(items, from, ends), down, down + Depth(items, from, ends))
    decreases |ends|
  {
    hide LaidOut, LineFits, LineSpots, Extent, Tallest;
    if ends == [] {
      NothingLaidOut(items, from, 0, down, down);
    } else {
      var middle := down + Tallest(items, from, ends[0]);
      LineGeometry(a, alignment, items, from, ends[0], ends[0], down, Tallest(items, from, ends[0]));
      FittingLinesAreLaidOut(a, alignment, items, ends[0], ends[1..], middle);
      LaidOutBelow(items, from, LineSpots(a, alignment, items, from, ends[0], ends[0], down),
                   Spots(a, alignment, items, ends[0], ends[1..], middle), Extent(items, from, ends[0]),
                   Widest(items, ends[0], ends[1..]), down, middle, middle + Depth(items, ends[0], ends[1..]));
    }
  }

  /** So it is for every alignment but Baseline along the horizontal axis. */
  lemma Geometry(a: Axis, alignment: Alignment, items: seq<Item>, from: nat, ends: seq<nat>, down: int)
    requires from <= |items| && ValidEnds(items, from, ends) && (a == Vertical || alignment != Baseline)
    ensures var s := Spots(a, alignment, items, from, ends, down);
            && |s| == (if ends == [] then 0 else LastEnd(ends) - from)
            && LaidOut(items, from, s, Widest(items, from, ends), down, down + Depth(items, from, ends))
  {
    OtherLinesFit(a, alignment, items, from, ends);
    FittingLinesAreLaidOut(a, alignment, items, from, ends, down);
  }

  ghost predicate AllInside(items: seq<Item>, s: seq<Spot>, width: int, top: int, bottom: int) {
    forall k :: 0 <= k < |s| ==> Inside(items, s[k], width, top, bottom)
  }

  lemma AllInsideConcat(items: seq<Item>, s: seq<Spot>, t: seq<Spot>, width: int, top: int, bottom: int)
    ensures AllInside(items, s + t, width, top, bottom)
       <==> AllInside(items, s, width, top, bottom) && AllInside(items, t, width, top, bottom)
  {
    assert forall k :: 0 <= k < |t| ==> (s + t)[|s| + k] == t[k];
    assert forall k :: 0 <= k < |s| ==> (s + t)[k] == s[k];
  }

  /** Whatever the alignment, everything is drawn inside the returned size exactly when no line sticks out of
      its own height and that of the lines below it. */
  lemma SizeHolds(a: Axis, alignment: Alignment, items: seq<Item>, from: nat, ends: seq<nat>, down: int)
    requires from <= |items| && ValidEnds(items, from, ends)
    ensures AllInside(items, Spots(a, alignment, items, from, ends, down), Widest(items, from, ends), down,
                      down + Depth(items, from, ends))
       <==> SizeFits(a, alignment, items, from, ends)
  {
    SizeHoldsWithin(a, alignment, items, from, ends, down, Widest(items, from, ends), down);
  }

  lemma {:induction false} SizeHoldsWithin(a: Axis, alignment: Alignment, items: seq<Item>, from: nat, ends: seq<nat>,
                                           down: int, width: int, top: int)
    requires from <= |items| && ValidEnds(items, from, ends) && Widest(items, from, ends) <= width && top <= down
    ensures AllInside(items, Spots(a, alignment, items, from, ends, down), width, top, down + Depth(items, from, ends))
       <==> SizeFits(a, alignment, items, from, ends)
    decreases |ends|
  {
    hide AllInside, LineFits, LineSpots, Extent, Tallest;
    if ends == [] {
      NothingInside(items, width, top, down);
    } else {
      var bottom := down + Depth(items, from, ends);
      LineInside(a, alignment, items, from, ends[0], down, width, top, Depth(items, from, ends));
      SizeHoldsWithin(a, alignment, items, ends[0], ends[1..], down + Tallest(items, from, ends[0]), width, top);
      AllInsideConcat(items, LineSpots(a, alignment, items, from, ends[0], ends[0], down),
                      Spots(a, alignment, items, ends[0], ends[1..], down + Tallest(items, from, ends[0])),
                      width, top, bottom);
    }
  }

  lemma NothingInside(items: seq<Item>, width: int, top: int, bottom: int)
    ensures AllInside(items, [], width, top, bottom)
  {
  }

  lemma LineInside(a: Axis, alignment: Alignment, items: seq<Item>, lo: nat, end: nat, down: int, width: int, top: int,
                   room: int)
    requires lo <= end <= |items| && Extent(items, lo, end) <= width && top <= down
    ensures AllInside(items, LineSpots(a, alignment, items, lo, end, end, down), width, top, down + room)
       <==> LineFits(a, alignment, items, lo, end, end, room)
  {
    hide Shift, Tallest, BaseOf, LineSpots;
    var l := LineSpots(a, alignment, items, lo, end, end, down);
    LineGeometry(a, alignment, items, lo, end, end, down, room);
    if !LineFits(a, alignment, items, lo, end, end, room) {
      var crossMax, baseMax := Tallest(items, lo, end), BaseOf(items, lo, end);
      var k :| lo <= k < end && Shift(a, alignment, items[k], crossMax, baseMax) + items[k].cross > room;
      LineSpotAt(a, alignment, items, lo, end, end, down, k - lo);
      assert !Inside(items, l[k - lo], width, top, down + room);
    }
  }

  /** In every line, no item moved by what the largest baseline exceeds its own by sticks out of the line and
      the lines below it. */
  ghost predicate BaselineHolds(items: seq<Item>, from: nat, ends: seq<nat>)
    requires from <= |items| && ValidEnds(items, from, ends)
    decreases |ends|
  {
    ends == [] || (
      && (forall k :: from <= k < ends[0] ==>
            BaseOf(items, from, ends[0]) - items[k].baseline + items[k].cross <= Depth(items, from, ends))
      && BaselineHolds(items, ends[0], ends[1..]))
  }

  /** Baseline alignment along the horizontal axis keeps inside the returned size exactly then. */
  lemma {:induction false} BaselineSize(items: seq<Item>, from: nat, ends: seq<nat>, down: int)
    requires from <= |items| && ValidEnds(items, from, ends)
    ensures AllInside(items, Spots(Horizontal, Baseline, items, from, ends, down), Widest(items, from, ends), down,
                      down + Depth(items, from, ends))
       <==> BaselineHolds(items, from, ends)
    decreases |ends|
  {
    SizeHolds(Horizontal, Baseline, items, from, ends, down);
    if ends != [] {
      var below := down + Tallest(items, from, ends[0]);
      BaselineLineFits(items, from, ends[0], Depth(items, from, ends));
      BaselineSize(items, ends[0], ends[1..], below);
      SizeHolds(Horizontal, Baseline, items, ends[0], ends[1..], below);
    }
  }

  /** Two elements that the loop puts into one line, with different baselines: the first is moved out of the
      returned size. */
  lemma BaselineOverflows()
    ensures var items := [Item(1, 10, 0), Item(1, 10, 10)];
            var ends := Lines(items, 2, 10);
            !AllInside(items, Spots(Horizontal, Baseline, items, 0, ends, 0), Widest(items, 0, ends), 0,
                       Depth(items, 0, ends))
  {
    var items := [Item(1, 10, 0), Item(1, 10, 10)];
    var ends := Lines(items, 2, 10);
    assert Extent(items, 0, 0) == 0 && Extent(items, 0, 1) == 1;
    assert Ends(items, 2, 0, 10, 2, 10) == [2];
    assert Ends(items, 1, 0, 10, 2, 10) == [2];
    assert ends == [2];
    assert Tallest(items, 0, 1) == 10 && BaseOf(items, 0, 1) == 0;
    assert Tallest(items, 0, 2) == 10 && BaseOf(items, 0, 2) == 10;
    assert Depth(items, 0, [2]) == 10 + Depth(items, 2, []);
    BaselineSize(items, 0, ends, 0);
    assert !BaselineHolds(items, 0, [2]);
  }

  // ---------------------------------------------------------------- the layout loops

  datatype Draw = Draw(index: nat, at: Point)

  /** Drawing operations: offsets accumulate, calls draw at the current offset. */
  class Ops {
    var offset: Point
    var draws: seq<Draw>

    method Offset(p: Point)
      modifies this`offset
      ensures offset == old(offset).Plus(p)
    {
      offset := offset.Plus(p);
    }

    method Call(index: nat)
      modifies this`draws
      ensures draws == old(draws) + [Draw(index, offset)]
    {
      draws := draws + [Draw(index, offset)];
    }

    /** Draws an element shifted across the axis, and shifts back. */
    method CallShifted(a: Axis, index: nat, cross: int)
      modifies this
      ensures offset == old(offset)
      ensures draws == old(draws) + [Draw(index, old(offset).Plus(AxisPoint(a, 0, cross)))]
    {
      if cross == 0 {
        Call(index);
      } else {
        var pt := AxisPoint(a, 0, cross);
        Offset(pt);
        Call(index);
        Offset(pt.Negated());
      }
    }
  }

  function DrawAt(a: Axis, origin: Point, s: Spot): Draw {
    Draw(s.index, origin.Plus(AxisPoint(a, s.main, s.cross)))
  }

  function DrawsOf(a: Axis, origin: Point, spots: seq<Spot>): seq<Draw> {
    if spots == [] then [] else DrawsOf(a, origin, spots[..|spots| - 1]) + [DrawAt(a, origin, spots[|spots| - 1])]
  }

  lemma {:induction false} DrawsConcat(a: Axis, origin: Point, s: seq<Spot>, t: seq<Spot>)
    ensures DrawsOf(a, origin, s + t) == DrawsOf(a, origin, s) + DrawsOf(a, origin, t)
    decreases |t|
  {
    if t == [] {
      assert s + t == s;
    } else {
      assert (s + t)[..|s + t| - 1] == s + t[..|t| - 1];
      DrawsConcat(a, origin, s, t[..|t| - 1]);
    }
  }

  /** A recorded element of the current line: its index and dimensions. */
  datatype WrapData = WrapData(index: nat, dims: Dims)

  /** The recorded elements are the items `lo`, ..., `lo + |row| - 1`. */
  ghost predicate Records(a: Axis, items: seq<Item>, lo: nat, row: seq<WrapData>) {
    && lo + |row| <= |items|
    && (forall k :: 0 <= k < |row| ==> row[k].index == lo + k && ItemOf(a, row[k].dims) == items[lo + k])
  }

  /** placeAll: draws a line and leaves the offset at the start of the next. */
  method PlaceAll(a: Axis, alignment: Alignment, ops: Ops, row: seq<WrapData>, crossMax: nat, baseMax: nat,
                  ghost items: seq<Item>, ghost lo: nat)
    requires Records(a, items, lo, row)
    requires crossMax == Tallest(items, lo, lo + |row|) && baseMax == BaseOf(items, lo, lo + |row|)
    modifies ops
    ensures ops.offset == old(ops.offset).Plus(AxisPoint(a, 0, crossMax))
    ensures ops.draws == old(ops.draws)
                         + DrawsOf(a, old(ops.offset), LineSpots(a, alignment, items, lo, lo + |row|, lo + |row|, 0))
  {
    hide DrawsOf, LineSpots, Shift, BaseOf, AxisPoint, Point.Plus;
    AtOrigin(a, ops.offset);
    NothingDrawn(a, alignment, items, lo, lo + |row|, ops.offset, ops.draws);
    ghost var end := lo + |row|;
    ghost var origin, drawn := ops.offset, ops.draws;
    var mainPos := 0;
    var i := 0;
    while i < |row|
      invariant i <= |row|
      invariant i < |row| ==> mainPos == Extent(items, lo, lo + i)
      invariant ops.offset == origin.Plus(if i < |row| then AxisPoint(a, mainPos, 0) else AxisPoint(a, 0, crossMax))
      invariant ops.draws == drawn + DrawsOf(a, origin, LineSpots(a, alignment, items, lo, lo + i, end, 0))
    {
      var item := ItemOf(a, row[i].dims);
      LineDrawsStep(a, alignment, items, lo, lo + i, end, origin, drawn);
      MovesAdd(a, origin, mainPos, item.main, crossMax);
      ops.CallShifted(a, row[i].index, Shift(a, alignment, item, crossMax, baseMax));
      if i == |row| - 1 {
        ops.Offset(AxisPoint(a, -mainPos, crossMax));
      } else {
        ops.Offset(AxisPoint(a, item.main, 0));
        mainPos := mainPos + item.main;
      }
      i := i + 1;
    }
  }

  lemma AtOrigin(a: Axis, origin: Point)
    ensures origin.Plus(AxisPoint(a, 0, 0)) == origin
  {
  }

  lemma MovesAdd(a: Axis, origin: Point, main: int, further: int, cross: int)
    ensures var here := origin.Plus(AxisPoint(a, main, 0));
            && here.Plus(AxisPoint(a, further, 0)) == origin.Plus(AxisPoint(a, main + further, 0))
            && here.Plus(AxisPoint(a, -main, cross)) == origin.Plus(AxisPoint(a, 0, cross))
  {
  }

  lemma AcrossAdds(a: Axis, origin: Point, cross: int, further: int)
    ensures origin.Plus(AxisPoint(a, 0, cross)).Plus(AxisPoint(a, 0, further))
         == origin.Plus(AxisPoint(a, 0, cross + further))
  {
  }

  lemma NothingDrawn(a: Axis, alignment: Alignment, items: seq<Item>, lo: nat, end: nat, origin: Point,
                     drawn: seq<Draw>)
    requires lo <= end <= |items|
    ensures drawn + DrawsOf(a, origin, LineSpots(a, alignment, items, lo, lo, end, 0)) == drawn
    ensures DrawsOf(a, origin, []) == []
  {
  }

  lemma LineDrawsStep(a: Axis, alignment: Alignment, items: seq<Item>, lo: nat, hi: nat, end: nat,
                      origin: Point, drawn: seq<Draw>)
    requires lo <= hi < end <= |items|
    ensures var shift := Shift(a, alignment, items[hi], Tallest(items, lo, end), BaseOf(items, lo, end));
            drawn + DrawsOf(a, origin, LineSpots(a, alignment, items, lo, hi + 1, end, 0))
            == drawn + DrawsOf(a, origin, LineSpots(a, alignment, items, lo, hi, end, 0))
               + [Draw(hi, origin.Plus(AxisPoint(a, Extent(items, lo, hi), 0)).Plus(AxisPoint(a, 0, shift)))]
  {
    hide Shift, Tallest, BaseOf, Extent;
    var before := LineSpots(a, alignment, items, lo, hi, end, 0);
    var spot := Spot(hi, Extent(items, lo, hi),
                     0 + Shift(a, alignment, items[hi], Tallest(items, lo, end), BaseOf(items, lo, end)));
    DrawsSnoc(a, origin, before, spot);
    PointsAdd(a, origin, spot.main, spot.cross);
    Associative(drawn, DrawsOf(a, origin, before), [DrawAt(a, origin, spot)]);
  }

  lemma DrawsSnoc(a: Axis, origin: Point, spots: seq<Spot>, spot: Spot)
    ensures DrawsOf(a, origin, spots + [spot]) == DrawsOf(a, origin, spots) + [DrawAt(a, origin, spot)]
  {
    assert (spots + [spot])[..|spots|] == spots;
  }

  lemma PointsAdd(a: Axis, origin: Point, main: int, cross: int)
    ensures origin.Plus(AxisPoint(a, main, 0)).Plus(AxisPoint(a, 0, cross)) == origin.Plus(AxisPoint(a, main, cross))
  {
  }

  /** Drawing a line from further across is drawing it shifted. */
  lemma {:induction false} LineDrawsShift(a: Axis, alignment: Alignment, items: seq<Item>, lo: nat, hi: nat, end: nat,
                                          origin: Point, down: int)
    requires lo <= hi <= end <= |items|
    ensures DrawsOf(a, origin.Plus(AxisPoint(a, 0, down)), LineSpots(a, alignment, items, lo, hi, end, 0))
         == DrawsOf(a, origin, LineSpots(a, alignment, items, lo, hi, end, down))
    decreases hi - lo
  {
    hide Shift, Tallest, BaseOf, Extent, DrawAt, DrawsOf;
    if lo == hi {
      NothingDrawn(a, alignment, items, lo, end, origin.Plus(AxisPoint(a, 0, down)), []);
      NothingDrawn(a, alignment, items, lo, end, origin, []);
    } else {
      LineDrawsShift(a, alignment, items, lo, hi - 1, end, origin, down);
      var main := Extent(items, lo, hi - 1);
      var shift := Shift(a, alignment, items[hi - 1], Tallest(items, lo, end), BaseOf(items, lo, end));
      DrawsSnoc(a, origin.Plus(AxisPoint(a, 0, down)), LineSpots(a, alignment, items, lo, hi - 1, end, 0),
                Spot(hi - 1, main, 0 + shift));
      DrawsSnoc(a, origin, LineSpots(a, alignment, items, lo, hi - 1, end, down), Spot(hi - 1, main, down + shift));
      SameDraw(a, origin, hi - 1, main, shift, down);
    }
  }

  lemma SameDraw(a: Axis, origin: Point, index: nat, main: int, shift: int, down: int)
    ensures DrawAt(a, origin.Plus(AxisPoint(a, 0, down)), Spot(index, main, 0 + shift))
         == DrawAt(a, origin, Spot(index, main, down + shift))
  {
  }

  function Items(a: Axis, num: nat, el: nat -> Dims): seq<Item> {
    seq(num, (i: nat) => ItemOf(a, el(i)))
  }

  /** The ends of all lines of a layout. */
  function Lines(items: seq<Item>, width: int, height: int): (ends: seq<nat>)
    ensures ValidEnds(items, 0, ends)
  {
    EndsAreGreedy(items, 0, 0, height, width, height);
    GreedyIsValid(items, width, 0, Ends(items, 0, 0, height, width, height));
    Ends(items, 0, 0, height, width, height)
  }

  // ---------------------------------------------------------------- on the screen

  lemma {:induction false} DrawsAt(a: Axis, origin: Point, spots: seq<Spot>, k: nat)
    requires k < |spots|
    ensures |DrawsOf(a, origin, spots)| == |spots| && DrawsOf(a, origin, spots)[k] == DrawAt(a, origin, spots[k])
  {
    DrawsCount(a, origin, spots[..|spots| - 1]);
    if k < |spots| - 1 {
      DrawsAt(a, origin, spots[..|spots| - 1], k);
    }
  }

  lemma {:induction false} DrawsCount(a: Axis, origin: Point, spots: seq<Spot>)
    ensures |DrawsOf(a, origin, spots)| == |spots|
  {
    if spots != [] {
      DrawsCount(a, origin, spots[..|spots| - 1]);
    }
  }

  /** A drawn element lies in the rectangle of the given size at `origin`. */
  predicate Within(d: Draw, dims: Dims, origin: Point, size: Point) {
    && origin.x <= d.at.x && d.at.x + dims.width <= origin.x + size.x
    && origin.y <= d.at.y && d.at.y + dims.height <= origin.y + size.y
  }

  predicate Clear(d: Draw, dims: Dims, d': Draw, dims': Dims) {
    || d.at.x + dims.width <= d'.at.x || d'.at.x + dims'.width <= d.at.x
    || d.at.y + dims.height <= d'.at.y || d'.at.y + dims'.height <= d.at.y
  }

  /** The lines the layout makes of the elements. */
  function EndsOf(a: Axis, csMax: Point, num: nat, el: nat -> Dims): (ends: seq<nat>)
    ensures ValidEnds(Items(a, num, el), 0, ends)
  {
    Lines(Items(a, num, el), AxisMain(a, csMax), AxisCross(a, csMax))
  }

  /** What it draws, from the elements' own sizes. */
  function Drawn(a: Axis, alignment: Alignment, csMax: Point, num: nat, el: nat -> Dims, origin: Point): seq<Draw> {
    DrawsOf(a, origin, Spots(a, alignment, Items(a, num, el), 0, EndsOf(a, csMax, num, el), 0))
  }

  function SizeOf(a: Axis, csMax: Point, num: nat, el: nat -> Dims): Point {
    var items := Items(a, num, el);
    var ends := EndsOf(a, csMax, num, el);
    AxisPoint(a, Widest(items, 0, ends), Depth(items, 0, ends))
  }

  /** Along both axes, and for every alignment but horizontal Baseline, the first elements are drawn once each and in
      order, as rectangles inside the returned size, no two of which overlap. */
  lemma DrawnOnScreen(a: Axis, alignment: Alignment, csMax: Point, num: nat, el: nat -> Dims, origin: Point)
    requires a == Vertical || alignment != Baseline
    ensures var draws := Drawn(a, alignment, csMax, num, el, origin);
            && |draws| <= num
            && (forall k :: 0 <= k < |draws| ==>
                  draws[k].index == k && Within(draws[k], el(k), origin, SizeOf(a, csMax, num, el)))
            && (forall j, k :: 0 <= j < k < |draws| ==> Clear(draws[j], el(j), draws[k], el(k)))
  {
    var items := Items(a, num, el);
    var ends := EndsOf(a, csMax, num, el);
    var spots := Spots(a, alignment, items, 0, ends, 0);
    var draws := Drawn(a, alignment, csMax, num, el, origin);
    Geometry(a, alignment, items, 0, ends, 0);
    DrawsCount(a, origin, spots);
    ItemCount(a, num, el);
    var width, depth := Widest(items, 0, ends), Depth(items, 0, ends);
    assert SizeOf(a, csMax, num, el) == AxisPoint(a, width, depth) && LastEnd(ends) <= num;
    hide Spots, Lines, DrawsOf, Widest, Depth, ValidEnds, Within, Clear, Inside, Apart;
    hide DrawAt, AxisPoint, Items, ItemOf;
    forall k | 0 <= k < |draws|
      ensures draws[k] == DrawAt(a, origin, spots[k]) && items[k] == ItemOf(a, el(k)) && spots[k].index == k
      ensures draws[k].index == k && Within(draws[k], el(k), origin, AxisPoint(a, width, depth))
    {
      ItemAt(a, num, el, k);
      DrawsAt(a, origin, spots, k);
      WithinOnScreen(a, items, spots[k], el(k), origin, width, depth);
    }
    forall j, k | 0 <= j < k < |draws|
      ensures Clear(draws[j], el(j), draws[k], el(k))
    {
      ClearOnScreen(a, items, spots[j], spots[k], el(j), el(k), origin);
    }
  }

  lemma WithinOnScreen(a: Axis, items: seq<Item>, p: Spot, dims: Dims, origin: Point, width: int, depth: int)
    requires Inside(items, p, width, 0, depth) && items[p.index] == ItemOf(a, dims)
    ensures DrawAt(a, origin, p).index == p.index
    ensures Within(DrawAt(a, origin, p), dims, origin, AxisPoint(a, width, depth))
  {
  }

  lemma ClearOnScreen(a: Axis, items: seq<Item>, p: Spot, q: Spot, dims: Dims, dims': Dims, origin: Point)
    requires p.index < |items| && q.index < |items| && Apart(items, p, q)
    requires items[p.index] == ItemOf(a, dims) && items[q.index] == ItemOf(a, dims')
    ensures Clear(DrawAt(a, origin, p), dims, DrawAt(a, origin, q), dims')
  {
  }

  /** Lines run along the axis: in a row each element begins at the right of the one before it, in a column below
      it, and the first at the edge. */
  lemma DrawnSideBySide(a: Axis, alignment: Alignment, csMax: Point, num: nat, el: nat -> Dims, origin: Point,
                        k: nat, i: nat)
    requires k < |EndsOf(a, csMax, num, el)|
    requires LineStart(EndsOf(a, csMax, num, el), 0, k) <= i < EndsOf(a, csMax, num, el)[k]
    ensures var draws, lo := Drawn(a, alignment, csMax, num, el, origin), LineStart(EndsOf(a, csMax, num, el), 0, k);
            && i < |draws|
            && match a
               case Horizontal => draws[i].at.x == if i == lo then origin.x else draws[i - 1].at.x + el(i - 1).width
               case Vertical => draws[i].at.y == if i == lo then origin.y else draws[i - 1].at.y + el(i - 1).height
  {
    hide Spots, Lines, DrawsOf, Depth, Placed, Items, ItemOf, DrawAt, AxisMain, AxisCross;
    var items, ends := Items(a, num, el), EndsOf(a, csMax, num, el);
    var spots := Spots(a, alignment, items, 0, ends, 0);
    var lo, top := LineStart(ends, 0, k), 0 + Depth(items, 0, ends[..k]);
    ItemsArePlaced(a, alignment, items, 0, ends, 0, k, i);
    ItemCount(a, num, el);
    if lo < i {
      ItemAt(a, num, el, i - 1);
      NextOnScreen(a, alignment, items, lo, ends[k], top, spots, i, el(i - 1), origin);
      DrawsAt(a, origin, spots, i - 1);
    } else {
      FirstOnScreen(a, alignment, items, lo, ends[k], top, spots, origin);
    }
    DrawsAt(a, origin, spots, i);
  }

  lemma NextOnScreen(a: Axis, alignment: Alignment, items: seq<Item>, lo: nat, end: nat, top: int, s: seq<Spot>, i: nat,
                     before: Dims, origin: Point)
    requires lo < i < end <= |items| && Placed(a, alignment, items, lo, end, top, 0, s, i)
    requires items[i - 1] == ItemOf(a, before)
    ensures i < |s|
    ensures var p, q := DrawAt(a, origin, s[i - 1]).at, DrawAt(a, origin, s[i]).at;
            if a == Horizontal then q.x == p.x + before.width else q.y == p.y + before.height
  {
    hide Aligned;
  }

  lemma FirstOnScreen(a: Axis, alignment: Alignment, items: seq<Item>, lo: nat, end: nat, top: int, s: seq<Spot>,
                      origin: Point)
    requires lo < end <= |items| && Placed(a, alignment, items, lo, end, top, 0, s, lo)
    ensures lo < |s|
    ensures var p := DrawAt(a, origin, s[lo]).at;
            if a == Horizontal then p.x == origin.x else p.y == origin.y
  {
    hide Aligned;
  }

  /** The returned size keeps to the constraint along the axis if every element does. */
  lemma KeepsToConstraint(a: Axis, csMax: Point, num: nat, el: nat -> Dims)
    requires 0 <= csMax.x && 0 <= csMax.y
    ensures a == Horizontal && (forall i :: 0 <= i < num ==> el(i).width <= csMax.x) ==>
              SizeOf(a, csMax, num, el).x <= csMax.x
    ensures a == Vertical && (forall i :: 0 <= i < num ==> el(i).height <= csMax.y) ==>
              SizeOf(a, csMax, num, el).y <= csMax.y
  {
    var items, width, height := Items(a, num, el), AxisMain(a, csMax), AxisCross(a, csMax);
    var ends := Lines(items, width, height);
    LinesSplitItems(items, width, height);
    var j := WidestIsOne(items, 0, ends);
    var lo := LineStart(ends, 0, j);
    assert Fits(items, width, lo, ends[j]);
    if ends[j] == lo + 1 {
      assert Extent(items, lo, lo) == 0 && Extent(items, lo, ends[j]) == items[lo].main;
    }
  }

  // ---------------------------------------------------------------- the loops again, step by step

  /** What the rest of the layout still draws and adds to the size. */
  ghost predicate Remaining(a: Axis, alignment: Alignment, items: seq<Item>, origin: Point, lo: nat, rest: seq<nat>,
                            draws: seq<Draw>, mainSize: nat, crossSize: nat,
                            finalDraws: seq<Draw>, finalMain: nat, finalCross: nat)
  {
    && lo <= |items| && ValidEnds(items, lo, rest)
    && draws + DrawsOf(a, origin, Spots(a, alignment, items, lo, rest, crossSize)) == finalDraws
    && Max(mainSize, Widest(items, lo, rest)) == finalMain
    && crossSize + Depth(items, lo, rest) == finalCross
  }

  lemma RemainingStep(a: Axis, alignment: Alignment, items: seq<Item>, origin: Point, lo: nat, rest: seq<nat>,
                      draws: seq<Draw>, mainSize: nat, crossSize: nat,
                      finalDraws: seq<Draw>, finalMain: nat, finalCross: nat)
    requires Remaining(a, alignment, items, origin, lo, rest, draws, mainSize, crossSize,
                       finalDraws, finalMain, finalCross)
    requires rest != []
    ensures lo <= rest[0] <= |items|
    ensures var line := LineSpots(a, alignment, items, lo, rest[0], rest[0], 0);
            Remaining(a, alignment, items, origin, rest[0], rest[1..],
                      draws + DrawsOf(a, origin.Plus(AxisPoint(a, 0, crossSize)), line),
                      Max(mainSize, Extent(items, lo, rest[0])), crossSize + Tallest(items, lo, rest[0]),
                      finalDraws, finalMain, finalCross)
  {
    var line := LineSpots(a, alignment, items, lo, rest[0], rest[0], crossSize);
    var below := Spots(a, alignment, items, rest[0], rest[1..], crossSize + Tallest(items, lo, rest[0]));
    LineDrawsShift(a, alignment, items, lo, rest[0], rest[0], origin, crossSize);
    DrawsConcat(a, origin, line, below);
    assert draws + (DrawsOf(a, origin, line) + DrawsOf(a, origin, below))
        == draws + DrawsOf(a, origin, line) + DrawsOf(a, origin, below);
  }

  /** The variables of the current line: items `lo`, ..., `i - 1` are recorded and measured. */
  ghost predicate CurrentLine(a: Axis, items: seq<Item>, lo: nat, i: nat, row: seq<WrapData>,
                              mainPos: nat, crossPos: nat, base: nat) {
    && lo + |row| == i <= |items| && Records(a, items, lo, row)
    && mainPos == Extent(items, lo, i) && crossPos == Tallest(items, lo, i) && base == BaseOf(items, lo, i)
  }

  lemma ItemCount(a: Axis, num: nat, el: nat -> Dims)
    ensures |Items(a, num, el)| == num
  {
  }

  lemma ItemAt(a: Axis, num: nat, el: nat -> Dims, i: nat)
    requires i < num
    ensures |Items(a, num, el)| == num && Items(a, num, el)[i] == ItemOf(a, el(i))
  {
  }

  lemma CrossOfPoint(a: Axis, main: int, cross: int)
    ensures AxisMain(a, AxisPoint(a, main, cross)) == main && AxisCross(a, AxisPoint(a, main, cross)) == cross
  {
  }

  lemma LinesAreEnds(items: seq<Item>, width: int, height: int)
    ensures Lines(items, width, height) == Ends(items, 0, 0, height, width, height)
  {
  }

  lemma ExtendLine(a: Axis, items: seq<Item>, lo: nat, i: nat, row: seq<WrapData>,
                   mainPos: nat, crossPos: nat, base: nat, dims: Dims)
    requires CurrentLine(a, items, lo, i, row, mainPos, crossPos, base)
    requires i < |items| && ItemOf(a, dims) == items[i]
    ensures CurrentLine(a, items, lo, i + 1, row + [WrapData(i, dims)], mainPos + items[i].main,
                        Max(crossPos, items[i].cross), Max(base, items[i].baseline))
  {
  }

  lemma NewLine(a: Axis, items: seq<Item>, i: nat, dims: Dims)
    requires i < |items| && ItemOf(a, dims) == items[i]
    ensures CurrentLine(a, items, i, i + 1, [WrapData(i, dims)], items[i].main, items[i].cross, items[i].baseline)
  {
    assert Extent(items, i, i) == 0 && Tallest(items, i, i) == 0 && BaseOf(items, i, i) == 0;
  }

  lemma NoLine(a: Axis, items: seq<Item>)
    ensures CurrentLine(a, items, 0, 0, [], 0, 0, 0)
  {
  }

  lemma CurrentLineMeasures(a: Axis, items: seq<Item>, lo: nat, i: nat, row: seq<WrapData>,
                            mainPos: nat, crossPos: nat, base: nat)
    requires CurrentLine(a, items, lo, i, row, mainPos, crossPos, base)
    ensures lo <= i <= |items| && i == lo + |row| && Records(a, items, lo, row)
    ensures mainPos == Extent(items, lo, i) && crossPos == Tallest(items, lo, i) && base == BaseOf(items, lo, i)
  {
  }

  lemma RemainingAtStart(a: Axis, alignment: Alignment, items: seq<Item>, origin: Point, ends: seq<nat>,
                         draws: seq<Draw>)
    requires ValidEnds(items, 0, ends)
    ensures Remaining(a, alignment, items, origin, 0, ends, draws, 0, 0,
                      draws + DrawsOf(a, origin, Spots(a, alignment, items, 0, ends, 0)),
                      Widest(items, 0, ends), Depth(items, 0, ends))
  {
  }

  lemma RemainingAtEnd(a: Axis, alignment: Alignment, items: seq<Item>, origin: Point, lo: nat,
                       draws: seq<Draw>, mainSize: nat, crossSize: nat,
                       finalDraws: seq<Draw>, finalMain: nat, finalCross: nat)
    requires Remaining(a, alignment, items, origin, lo, [], draws, mainSize, crossSize,
                       finalDraws, finalMain, finalCross)
    ensures draws == finalDraws && mainSize == finalMain && crossSize == finalCross
  {
  }

  /** Ends the current line: draws it and adds it to the size. */
  method EndLine(a: Axis, alignment: Alignment, ops: Ops, row: seq<WrapData>, mainPos: nat, crossPos: nat, base: nat,
                 mainSize: nat, crossSize: nat, ghost items: seq<Item>, ghost origin: Point, ghost lo: nat,
                 ghost rest: seq<nat>, ghost finalDraws: seq<Draw>, ghost finalMain: nat, ghost finalCross: nat)
    returns (mainSize': nat, crossSize': nat)
    requires rest != [] && CurrentLine(a, items, lo, rest[0], row, mainPos, crossPos, base)
    requires ops.offset == origin.Plus(AxisPoint(a, 0, crossSize))
    requires Remaining(a, alignment, items, origin, lo, rest, ops.draws, mainSize, crossSize,
                       finalDraws, finalMain, finalCross)
    modifies ops
    ensures ops.offset == origin.Plus(AxisPoint(a, 0, crossSize')) && crossSize' == crossSize + crossPos
    ensures Remaining(a, alignment, items, origin, rest[0], rest[1..], ops.draws, mainSize', crossSize',
                      finalDraws, finalMain, finalCross)
  {
    hide CurrentLine, Remaining, Records, DrawsOf, LineSpots, Tallest, BaseOf, Extent, AxisPoint, Point.Plus;
    CurrentLineMeasures(a, items, lo, rest[0], row, mainPos, crossPos, base);
    RemainingStep(a, alignment, items, origin, lo, rest, ops.draws, mainSize, crossSize,
                  finalDraws, finalMain, finalCross);
    AcrossAdds(a, origin, crossSize, crossPos);
    PlaceAll(a, alignment, ops, row, crossPos, base, items, lo);
    mainSize', crossSize' := Max(mainSize, mainPos), crossSize + crossPos;
  }

  /** Layout: fills lines, wrapping when the main axis is full and stopping when the cross axis is too. */
  method Layout(a: Axis, alignment: Alignment, csMax: Point, num: nat, el: nat -> Dims, ops: Ops)
    returns (size: Point)
    modifies ops
    ensures size == SizeOf(a, csMax, num, el)
    ensures ops.offset == old(ops.offset).Plus(AxisPoint(a, 0, AxisCross(a, size)))
    ensures ops.draws == old(ops.draws) + Drawn(a, alignment, csMax, num, el, old(ops.offset))
  {
    hide DrawsOf, Spots, Widest, Depth, Tallest, Extent, Remaining, ValidEnds, AxisPoint, Point.Plus;
    hide AxisMain, AxisCross, CurrentLine, Ends, Lines, Items, ItemOf;
    ghost var items := Items(a, num, el);
    var mainCs, crossCs := AxisMain(a, csMax), AxisCross(a, csMax);
    ghost var ends := Lines(items, mainCs, crossCs);
    ghost var finalMain, finalCross := Widest(items, 0, ends), Depth(items, 0, ends);
    ghost var origin := ops.offset;
    ghost var finalDraws := ops.draws + DrawsOf(a, origin, Spots(a, alignment, items, 0, ends, 0));
    var mainSize: nat, crossSize: nat, mainPos: nat, crossPos: nat, base: nat := 0, 0, 0, 0, 0;
    var mainMax, crossMax := mainCs, crossCs;
    var row: seq<WrapData> := [];
    ghost var lo: nat := 0;
    var i := 0;
    AtOrigin(a, origin);
    RemainingAtStart(a, alignment, items, origin, ends, ops.draws);
    NoLine(a, items);
    ItemCount(a, num, el);
    LinesAreEnds(items, mainCs, crossCs);
    while i < num
      invariant lo <= i <= num
      invariant CurrentLine(a, items, lo, i, row, mainPos, crossPos, base)
      invariant mainMax == mainCs - mainPos
      invariant ops.offset == origin.Plus(AxisPoint(a, 0, crossSize))
      invariant Remaining(a, alignment, items, origin, lo, Ends(items, i, lo, crossMax, mainCs, crossCs),
                          ops.draws, mainSize, crossSize, finalDraws, finalMain, finalCross)
    {
      var dims := el(i);
      var item := ItemOf(a, dims);
      ItemAt(a, num, el, i);
      CurrentLineMeasures(a, items, lo, i, row, mainPos, crossPos, base);
      EndsStep(items, i, lo, crossMax, mainCs, crossCs);
      var okMain, okCross := item.main <= mainMax, item.cross <= crossMax;
      if !okMain && !okCross {
        assert Ends(items, i, lo, crossMax, mainCs, crossCs) == [i];
        break;
      }
      if okMain {
        ExtendLine(a, items, lo, i, row, mainPos, crossPos, base, dims);
        row := row + [WrapData(i, dims)];
        mainMax, crossMax := mainMax - item.main, crossCs;
        mainPos, crossPos, base := mainPos + item.main, Max(crossPos, item.cross), Max(base, item.baseline);
      } else {
        mainSize, crossSize := EndLine(a, alignment, ops, row, mainPos, crossPos, base, mainSize, crossSize,
                                       items, origin, lo, Ends(items, i, lo, crossMax, mainCs, crossCs),
                                       finalDraws, finalMain, finalCross);
        NewLine(a, items, i, dims);
        row, lo := [WrapData(i, dims)], i;
        mainMax, crossMax := mainCs - item.main, crossCs - crossPos;
        mainPos, crossPos, base := item.main, item.cross, item.baseline;
      }
      i := i + 1;
    }
    if i == num {
      EndsDone(items, lo, crossMax, mainCs, crossCs);
    }
    mainSize, crossSize := EndLine(a, alignment, ops, row, mainPos, crossPos, base, mainSize, crossSize, items, origin,
                                   lo, [i], finalDraws, finalMain, finalCross);
    assert [i][1..] == [];
    RemainingAtEnd(a, alignment, items, origin, i, ops.draws, mainSize, crossSize, finalDraws, finalMain, finalCross);
    CrossOfPoint(a, mainSize, crossSize);
    size := AxisPoint(a, mainSize, crossSize);
  }
}
