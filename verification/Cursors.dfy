/** Forward cursors of libwallet/badgerdb, and their agreement with ForEach. */
module Cursors {
  import opened Basics
  import opened Buckets
  import opened ByteStrings
  import opened FlatStore
  import opened Wrappers

  /** A cursor does not move on from a key it reports or that ends the bucket's range. */
  predicate Stops(store: Store, prefix: Bytes, ks: seq<Bytes>, i: nat)
    requires Tagged(store) && i <= |ks|
  {
    i == |ks| || !HasPrefix(ks[i], prefix) || Owns(store, prefix, ks[i])
  }

  function Skip(store: Store, prefix: Bytes, ks: seq<Bytes>, i: nat): (j: nat)
    requires Tagged(store) && i <= |ks|
    ensures i <= j <= |ks|
    decreases |ks| - i
  {
    if Stops(store, prefix, ks, i) then i else Skip(store, prefix, ks, i + 1)
  }

  /** What the cursor returns at index `i`. */
  function At(store: Store, prefix: Bytes, ks: seq<Bytes>, i: nat): Option<Pair>
    requires Tagged(store) && i <= |ks|
  {
    if i < |ks| && HasPrefix(ks[i], prefix) && Owns(store, prefix, ks[i]) then
      Some(PairAt(store, prefix, ks[i]))
    else
      None
  }

  /** Where First and an unpositioned Next begin: at the first key that is not below the prefix, or after it
      when it is the bucket's own marker. */
  function AfterMarker(prefix: Bytes, ks: seq<Bytes>): (i: nat)
    ensures LowerBound(ks, prefix, 0) <= i <= |ks|
  {
    var lo := LowerBound(ks, prefix, 0);
    if lo < |ks| && ks[lo] == prefix then lo + 1 else lo
  }

  /** Where Seek begins; `seek` is None for a nil key. */
  function SeekStart(prefix: Bytes, ks: seq<Bytes>, seek: Option<Bytes>): (i: nat)
    ensures i <= |ks|
  {
    if seek == None then AfterMarker(prefix, ks) else LowerBound(ks, prefix + seek.value, 0)
  }

  /** The key the cursor remembers after it has moved from index `i` to `j`: the one it reports, or the last one
      it went past. */
  function Remembered(ks: seq<Bytes>, i: nat, j: nat, r: Option<Pair>, before: Option<Bytes>): Option<Bytes>
    requires i <= j <= |ks| && (r != None ==> j < |ks|)
  {
    if r != None then Some(ks[j]) else if i < j then Some(ks[j - 1]) else before
  }

  class Cursor {
    const it: StoreIterator
    const prefix: Bytes
    var ck: Option<Bytes>

    constructor (it: StoreIterator, prefix: Bytes)
      ensures this.it == it && this.prefix == prefix && ck == None
    {
      this.it, this.prefix, ck := it, prefix, None;
    }

    /** Some key is not below the prefix, so that the iterator finds an item to compare with. */
    ghost predicate FindsItem()
      reads it
      requires it.Valid()
    {
      LowerBound(it.keys, prefix, 0) < |it.keys|
    }

    /** The common tail of First, Next and Seek: the pair at the iterator, or the next one that the
        bucket owns. */
    method Current() returns (r: Option<Pair>)
      requires it.Valid()
      modifies this, it
      ensures it.Valid() && it.pos == Skip(it.snapshot, prefix, it.keys, old(it.pos))
      ensures r == At(it.snapshot, prefix, it.keys, it.pos)
      ensures ck == Remembered(it.keys, old(it.pos), it.pos, r, old(ck))
      decreases |it.keys| - it.pos, 1
    {
      if !it.ValidForPrefix(prefix) {
        return None;
      }
      var k := it.keys[it.pos];
      var item := it.snapshot[k];
      ck := Some(k);
      var prefixLength := item.value[0] as int;
      if k[..prefixLength] == prefix {
        if item.meta == META_BUCKET {
          return Some(Pair(k[prefixLength..], None));
        }
        return Some(Pair(k[prefixLength..], Some(item.value[1..])));
      }
      r := Next();
    }

    /** Moves on by one pair; a cursor that has not been positioned starts at the first. */
    method Next() returns (r: Option<Pair>)
      requires it.Valid() && (if ck == None then FindsItem() else it.pos < |it.keys|)
      modifies this, it
      ensures it.Valid()
      ensures it.pos == Skip(it.snapshot, prefix, it.keys,
                             if old(ck) == None then AfterMarker(prefix, it.keys) else old(it.pos) + 1)
      ensures r == At(it.snapshot, prefix, it.keys, it.pos)
      ensures ck == Remembered(it.keys, if old(ck) == None then AfterMarker(prefix, it.keys) else old(it.pos) + 1,
                               it.pos, r, old(ck))
      decreases if ck == None then |it.keys| + 1 else |it.keys| - it.pos, 0
    {
      if ck == None {
        it.Seek(prefix);
        if prefix == it.keys[it.pos] {
          it.Next();
        }
      } else {
        it.Next();
      }
      r := Current();
    }

    method First() returns (r: Option<Pair>)
      requires it.Valid() && FindsItem()
      modifies this, it
      ensures it.Valid() && it.pos == Skip(it.snapshot, prefix, it.keys, AfterMarker(prefix, it.keys))
      ensures r == At(it.snapshot, prefix, it.keys, it.pos)
      ensures ck == Remembered(it.keys, AfterMarker(prefix, it.keys), it.pos, r, old(ck))
    {
      it.Seek(prefix);
      if prefix == it.keys[it.pos] {
        it.Next();
      }
      r := Current();
    }

    /** `seek` is None for a nil key. */
    method Seek(seek: Option<Bytes>) returns (r: Option<Pair>)
      requires it.Valid() && (seek == None ==> FindsItem())
      modifies this, it
      ensures it.Valid()
      ensures seek.Some? && |seek.value| > MAX_KEY_SIZE ==> r == None && it.pos == old(it.pos) && ck == old(ck)
      ensures (seek.Some? ==> |seek.value| <= MAX_KEY_SIZE) ==>
                var start := SeekStart(prefix, it.keys, seek);
                && it.pos == Skip(it.snapshot, prefix, it.keys, start) && r == At(it.snapshot, prefix, it.keys, it.pos)
                && ck == Remembered(it.keys, start, it.pos, r, old(ck))
    {
      if seek == None {
        r := First();
        return;
      }
      if |seek.value| > MAX_KEY_SIZE {
        return None;
      }
      it.Seek(prefix + seek.value);
      r := Current();
    }
  }

  // ---------------------------------------------------------------- agreement with ForEach

  lemma {:induction false} SkippedAreUnlisted(store: Store, prefix: Bytes, ks: seq<Bytes>, i: nat)
    requires Tagged(store) && i <= |ks|
    ensures var j := Skip(store, prefix, ks, i);
            && Stops(store, prefix, ks, j)
            && ListUpTo(store, prefix, ks, j) == ListUpTo(store, prefix, ks, i)
    decreases |ks| - i
  {
    if !Stops(store, prefix, ks, i) {
      SkippedAreUnlisted(store, prefix, ks, i + 1);
    }
  }

  /** The cursor at `i` is in or beyond the bucket's range, and past the bucket's own marker. */
  ghost predicate PastMarker(prefix: Bytes, ks: seq<Bytes>, i: nat)
    requires i <= |ks|
  {
    LowerBound(ks, prefix, 0) <= i && forall j :: i <= j < |ks| ==> ks[j] != prefix
  }

  /** From past the marker, a cursor returns the next pair of ForEach, or nil after the last one. */
  lemma CursorFollowsListing(store: Store, prefix: Bytes, ks: seq<Bytes>, i: nat)
    requires Tagged(store) && Ascending(ks)
    requires i <= |ks| && PastMarker(prefix, ks, i)
    ensures var j := Skip(store, prefix, ks, i);
            match At(store, prefix, ks, j)
            case None => ListUpTo(store, prefix, ks, |ks|) == ListUpTo(store, prefix, ks, i)
            case Some(pair) => j < |ks| && ListUpTo(store, prefix, ks, j + 1) == ListUpTo(store, prefix, ks, i) + [pair]
  {
    var j := Skip(store, prefix, ks, i);
    SkippedAreUnlisted(store, prefix, ks, i);
    if At(store, prefix, ks, j) == None {
      NothingListedBeyond(store, prefix, ks, j);
    }
  }

  /** What repeated calls of Next return, from index `i` until nil. */
  function CursorRun(store: Store, prefix: Bytes, ks: seq<Bytes>, i: nat): seq<Pair>
    requires Tagged(store) && i <= |ks|
    decreases |ks| - i
  {
    var j := Skip(store, prefix, ks, i);
    match At(store, prefix, ks, j)
    case None => []
    case Some(pair) => [pair] + CursorRun(store, prefix, ks, j + 1)
  }

  lemma {:induction false} CursorRunIsListing(store: Store, prefix: Bytes, ks: seq<Bytes>, i: nat)
    requires Tagged(store) && Ascending(ks)
    requires i <= |ks| && PastMarker(prefix, ks, i)
    ensures ListUpTo(store, prefix, ks, i) + CursorRun(store, prefix, ks, i) == ListUpTo(store, prefix, ks, |ks|)
    decreases |ks| - i
  {
    hide CursorRun, ListUpTo;
    var j := Skip(store, prefix, ks, i);
    CursorFollowsListing(store, prefix, ks, i);
    if At(store, prefix, ks, j) != None {
      CursorRunIsListing(store, prefix, ks, j + 1);
    }
    CursorRunStep(store, prefix, ks, i, j);
  }

  lemma CursorRunStep(store: Store, prefix: Bytes, ks: seq<Bytes>, i: nat, j: nat)
    requires Tagged(store) && i <= j <= |ks| && j == Skip(store, prefix, ks, i)
    requires match At(store, prefix, ks, j)
             case None => ListUpTo(store, prefix, ks, |ks|) == ListUpTo(store, prefix, ks, i)
             case Some(pair) =>
               && j < |ks|
               && ListUpTo(store, prefix, ks, j + 1) == ListUpTo(store, prefix, ks, i) + [pair]
               && ListUpTo(store, prefix, ks, j + 1) + CursorRun(store, prefix, ks, j + 1)
                  == ListUpTo(store, prefix, ks, |ks|)
    ensures ListUpTo(store, prefix, ks, i) + CursorRun(store, prefix, ks, i) == ListUpTo(store, prefix, ks, |ks|)
  {
    if At(store, prefix, ks, j) == None {
      assert ListUpTo(store, prefix, ks, i) + [] == ListUpTo(store, prefix, ks, i);
    } else {
      Associative(ListUpTo(store, prefix, ks, i), [At(store, prefix, ks, j).value],
                  CursorRun(store, prefix, ks, j + 1));
    }
  }

  /** With `r` returned at index `i` and `pairs` before that, the cursor is to return `run` in all. */
  ghost predicate Collecting(store: Store, prefix: Bytes, ks: seq<Bytes>, i: nat, r: Option<Pair>,
                             pairs: seq<Pair>, run: seq<Pair>) {
    && Tagged(store) && i <= |ks| && r == At(store, prefix, ks, i)
    && run == match r
              case None => pairs
              case Some(pair) => pairs + [pair] + CursorRun(store, prefix, ks, i + 1)
  }

  lemma CollectStart(store: Store, prefix: Bytes, ks: seq<Bytes>, i: nat)
    requires Tagged(store) && i <= |ks|
    ensures var j := Skip(store, prefix, ks, i);
            Collecting(store, prefix, ks, j, At(store, prefix, ks, j), [], CursorRun(store, prefix, ks, i))
  {
    var j := Skip(store, prefix, ks, i);
    if At(store, prefix, ks, j) != None {
      Associative([], [At(store, prefix, ks, j).value], CursorRun(store, prefix, ks, j + 1));
    }
  }

  lemma CollectStep(store: Store, prefix: Bytes, ks: seq<Bytes>, i: nat, pair: Pair, pairs: seq<Pair>, run: seq<Pair>)
    requires Collecting(store, prefix, ks, i, Some(pair), pairs, run)
    ensures i < |ks| && Tagged(store)
    ensures var j := Skip(store, prefix, ks, i + 1);
            Collecting(store, prefix, ks, j, At(store, prefix, ks, j), pairs + [pair], run)
  {
    CollectStart(store, prefix, ks, i + 1);
    var j := Skip(store, prefix, ks, i + 1);
    if At(store, prefix, ks, j) != None {
      Associative(pairs + [pair], [At(store, prefix, ks, j).value], CursorRun(store, prefix, ks, j + 1));
    }
  }

  /** One call of Next after the pair `pair`. */
  method CollectNext(c: Cursor, ghost pair: Pair, ghost pairs: seq<Pair>, ghost run: seq<Pair>)
    returns (r: Option<Pair>)
    requires c.it.Valid() && c.ck != None
    requires Collecting(c.it.snapshot, c.prefix, c.it.keys, c.it.pos, Some(pair), pairs, run)
    modifies c, c.it
    ensures c.it.Valid() && (r != None ==> c.ck != None) && old(c.it.pos) < c.it.pos
    ensures Collecting(c.it.snapshot, c.prefix, c.it.keys, c.it.pos, r, pairs + [pair], run)
  {
    hide Collecting;
    CollectStep(c.it.snapshot, c.prefix, c.it.keys, c.it.pos, pair, pairs, run);
    r := c.Next();
  }

  /** Positions with First, then calls Next until nil. */
  method Collect(c: Cursor) returns (pairs: seq<Pair>)
    requires c.it.Valid() && c.FindsItem()
    modifies c, c.it
    ensures pairs == CursorRun(c.it.snapshot, c.prefix, c.it.keys, AfterMarker(c.prefix, c.it.keys))
  {
    ghost var start := AfterMarker(c.prefix, c.it.keys);
    ghost var run := CursorRun(c.it.snapshot, c.prefix, c.it.keys, start);
    CollectStart(c.it.snapshot, c.prefix, c.it.keys, start);
    hide CursorRun, Skip, At, LowerBound, AfterMarker;
    var r := c.First();
    pairs := CollectRest(c, r, run);
  }

  /** After a first result `r`, calls Next until nil. */
  method CollectRest(c: Cursor, first: Option<Pair>, ghost run: seq<Pair>) returns (pairs: seq<Pair>)
    requires c.it.Valid() && (first != None ==> c.ck != None)
    requires Collecting(c.it.snapshot, c.prefix, c.it.keys, c.it.pos, first, [], run)
    modifies c, c.it
    ensures pairs == run
  {
    hide CursorRun, Skip, At, LowerBound;
    pairs := [];
    var r := first;
    while r != None
      invariant c.it.Valid() && (r != None ==> c.ck != None)
      invariant Collecting(c.it.snapshot, c.prefix, c.it.keys, c.it.pos, r, pairs, run)
      decreases |c.it.keys| - c.it.pos
    {
      hide Collecting;
      var pair := r.value;
      r := CollectNext(c, pair, pairs, run);
      pairs := pairs + [pair];
    }
  }

  /** First and then Next until nil gives exactly the pairs of ForEach, in the same order, whether or not the
      bucket's marker is still there. */
  method CollectAll(store: Store, prefix: Bytes) returns (pairs: seq<Pair>)
    requires Tagged(store) && exists k :: k in store && !Less(k, prefix)
    ensures pairs == Listing(store, prefix)
  {
    var it := new StoreIterator(store);
    var c := new Cursor(it, prefix);
    CursorAgrees(store, prefix, it.keys);
    LowerBoundSplits(it.keys, prefix, 0);
    pairs := Collect(c);
  }

  lemma CursorAgrees(store: Store, prefix: Bytes, ks: seq<Bytes>)
    requires Tagged(store) && Ascending(ks)
    ensures CursorRun(store, prefix, ks, AfterMarker(prefix, ks)) == ListUpTo(store, prefix, ks, |ks|)
  {
    var start := AfterMarker(prefix, ks);
    NothingBeforeStart(store, prefix, ks);
    CursorRunIsListing(store, prefix, ks, start);
    assert [] + CursorRun(store, prefix, ks, start) == CursorRun(store, prefix, ks, start);
  }

  /** Nothing is listed before the start, and the bucket's own marker, if there, is before it. */
  lemma NothingBeforeStart(store: Store, prefix: Bytes, ks: seq<Bytes>)
    requires Tagged(store) && Ascending(ks)
    ensures PastMarker(prefix, ks, AfterMarker(prefix, ks))
    ensures ListUpTo(store, prefix, ks, AfterMarker(prefix, ks)) == []
  {
    var lo := LowerBound(ks, prefix, 0);
    LowerBoundSplits(ks, prefix, 0);
    NothingListedBefore(store, prefix, ks);
    LessIrreflexive(prefix);
    hide LowerBound, Less, Owns;
    assert forall j :: lo < j < |ks| ==> Less(ks[lo], ks[j]);
  }

  /** Seeking with a non-empty key lands on the least pair of the bucket that is not below it. */
  lemma SeekIsLeast(store: Store, prefix: Bytes, seek: Bytes)
    requires Tagged(store) && seek != []
    ensures var ks := SortedKeys(store.Keys);
            IsLeastPair(At(store, prefix, ks, Skip(store, prefix, ks, LowerBound(ks, prefix + seek, 0))),
                        Listing(store, prefix), seek)
  {
    var ks, l := SortedKeys(store.Keys), Listing(store, prefix);
    var i := LowerBound(ks, prefix + seek, 0);
    var j := Skip(store, prefix, ks, i);
    var at := At(store, prefix, ks, j);
    ListingIsExact(store, prefix);
    forall q | q in l && !Less(q.key, seek)
      ensures at != None && (q == at.value || Less(at.value.key, q.key))
    {
      SeekIsNotAfter(store, prefix, seek, ks, q);
    }
    if at != None {
      SeekLandsInside(store, prefix, seek, ks, j, at.value);
    }
  }

  /** `at` is the first pair of `l` whose key is not below `seek`, if there is one. */
  ghost predicate IsLeastPair(at: Option<Pair>, l: seq<Pair>, seek: Bytes) {
    match at
    case None => forall q :: q in l ==> Less(q.key, seek)
    case Some(pair) => && pair in l && !Less(pair.key, seek)
                       && forall q :: q in l && !Less(q.key, seek) ==> q == pair || Less(pair.key, q.key)
  }

  lemma SeekLandsInside(store: Store, prefix: Bytes, seek: Bytes, ks: seq<Bytes>, j: nat, pair: Pair)
    requires Tagged(store) && seek != [] && Ascending(ks) && LowerBound(ks, prefix + seek, 0) <= j <= |ks|
    requires At(store, prefix, ks, j) == Some(pair)
    ensures !Less(pair.key, seek)
    ensures Listed(store, prefix, prefix + pair.key) && pair == PairAt(store, prefix, prefix + pair.key)
  {
    LowerBoundSplits(ks, prefix + seek, 0);
    assert prefix + pair.key == ks[j];
    LessAfterPrefix(prefix, pair.key, seek);
    assert Less([], seek);
    assert ks[j] == prefix ==> pair.key == [];
  }

  /** Seek with a key and then Next until nil. */
  method CollectFrom(store: Store, prefix: Bytes, seek: Bytes) returns (pairs: seq<Pair>)
    requires Tagged(store) && 0 < |seek| <= MAX_KEY_SIZE
    ensures pairs == NotBelow(Listing(store, prefix), seek)
  {
    var it := new StoreIterator(store);
    var c := new Cursor(it, prefix);
    SeekRun(store, prefix, seek);
    ghost var start := LowerBound(it.keys, prefix + seek, 0);
    ghost var run := CursorRun(store, prefix, it.keys, start);
    CollectStart(store, prefix, it.keys, start);
    hide CursorRun, Skip, At, LowerBound, Listing, NotBelow;
    var r := c.Seek(Some(seek));
    pairs := CollectRest(c, r, run);
  }

  /** The pairs whose keys are not below `seek`, in their order. */
  function NotBelow(l: seq<Pair>, seek: Bytes): seq<Pair> {
    if l == [] then []
    else (if Less(l[0].key, seek) then [] else [l[0]]) + NotBelow(l[1..], seek)
  }

  lemma {:induction false} NotBelowSplit(a: seq<Pair>, b: seq<Pair>, seek: Bytes)
    requires forall p :: p in a ==> Less(p.key, seek)
    requires forall p :: p in b ==> !Less(p.key, seek)
    ensures NotBelow(a + b, seek) == b
    decreases |a| + |b|
  {
    hide NotBelow, Less;
    if a != [] {
      assert (a + b)[1..] == a[1..] + b && a[0] in a;
      NotBelowStep(a + b, seek);
      NotBelowSplit(a[1..], b, seek);
    } else if b != [] {
      assert a + b == b && [] + b[1..] == b[1..] && b[0] in b && b == [b[0]] + b[1..];
      NotBelowStep(b, seek);
      NotBelowSplit([], b[1..], seek);
    } else {
      NotBelowNone(seek);
    }
  }

  lemma NotBelowStep(l: seq<Pair>, seek: Bytes)
    requires l != []
    ensures NotBelow(l, seek)
         == if Less(l[0].key, seek) then NotBelow(l[1..], seek) else [l[0]] + NotBelow(l[1..], seek)
  {
  }

  lemma NotBelowNone(seek: Bytes)
    ensures NotBelow([] + [], seek) == []
  {
  }

  /** From where Seek begins, the cursor returns exactly the pairs that are not below the key sought. */
  lemma SeekRun(store: Store, prefix: Bytes, seek: Bytes)
    requires Tagged(store) && seek != []
    ensures var ks := SortedKeys(store.Keys);
            CursorRun(store, prefix, ks, LowerBound(ks, prefix + seek, 0)) == NotBelow(Listing(store, prefix), seek)
  {
    var ks := SortedKeys(store.Keys);
    var i := LowerBound(ks, prefix + seek, 0);
    var before, run := ListUpTo(store, prefix, ks, i), CursorRun(store, prefix, ks, i);
    SeekIsPastMarker(prefix, seek, ks);
    CursorRunIsListing(store, prefix, ks, i);
    forall p | p in before
      ensures Less(p.key, seek)
    {
      ListedBelow(store, prefix, seek, ks, p);
    }
    forall p | p in run
      ensures !Less(p.key, seek)
    {
      RunNotBelow(store, prefix, seek, ks, i, p);
    }
    hide ListUpTo, CursorRun, LowerBound;
    NotBelowSplit(before, run, seek);
  }

  lemma SeekIsPastMarker(prefix: Bytes, seek: Bytes, ks: seq<Bytes>)
    requires seek != [] && Ascending(ks)
    ensures PastMarker(prefix, ks, LowerBound(ks, prefix + seek, 0))
  {
    var lo, i := LowerBound(ks, prefix, 0), LowerBound(ks, prefix + seek, 0);
    LowerBoundSplits(ks, prefix, 0);
    LowerBoundSplits(ks, prefix + seek, 0);
    if i < lo {
      PrefixBelow(prefix, seek, ks[i]);
    }
    assert prefix + [] == prefix && Less([], seek);
    LessAfterPrefix(prefix, [], seek);
  }

  lemma ListedBelow(store: Store, prefix: Bytes, seek: Bytes, ks: seq<Bytes>, p: Pair)
    requires Tagged(store) && Ascending(ks) && p in ListUpTo(store, prefix, ks, LowerBound(ks, prefix + seek, 0))
    ensures Less(p.key, seek)
  {
    var i := LowerBound(ks, prefix + seek, 0);
    LowerBoundSplits(ks, prefix + seek, 0);
    ListUpToHas(store, prefix, ks, i, p);
    LessAfterPrefix(prefix, p.key, seek);
  }

  lemma {:induction false} RunNotBelow(store: Store, prefix: Bytes, seek: Bytes, ks: seq<Bytes>, i: nat, p: Pair)
    requires Tagged(store) && seek != [] && Ascending(ks) && LowerBound(ks, prefix + seek, 0) <= i <= |ks|
    requires p in CursorRun(store, prefix, ks, i)
    ensures !Less(p.key, seek)
    decreases |ks| - i
  {
    var j := Skip(store, prefix, ks, i);
    var pair := At(store, prefix, ks, j).value;
    SeekLandsInside(store, prefix, seek, ks, j, pair);
    if p != pair {
      RunNotBelow(store, prefix, seek, ks, j + 1, p);
    }
  }

  /** The cursor does not get past an owned key that is not below the one sought, and stays inside the
      bucket's range before it. */
  lemma SeekReaches(store: Store, prefix: Bytes, seek: Bytes, ks: seq<Bytes>, m: nat, local: Bytes)
    requires Tagged(store) && Ascending(ks) && m < |ks| && ks[m] == prefix + local
    requires Owns(store, prefix, ks[m]) && !Less(local, seek)
    ensures var j := Skip(store, prefix, ks, LowerBound(ks, prefix + seek, 0));
            j <= m && HasPrefix(ks[j], prefix) && Owns(store, prefix, ks[j])
  {
    var i := LowerBound(ks, prefix + seek, 0);
    var j := Skip(store, prefix, ks, i);
    LowerBoundSplits(ks, prefix + seek, 0);
    LessAfterPrefix(prefix, local, seek);
    SkippedAreUnlisted(store, prefix, ks, i);
    SkipStopsAt(store, prefix, ks, i, m);
    if j < m && !HasPrefix(ks[j], prefix) {
      PrefixBelow(prefix, seek, ks[j]);
      PrefixIsInterval(prefix, ks[j], ks[m]);
      LessTransitive(ks[j], ks[m], ks[j]);
      LessIrreflexive(ks[j]);
    }
  }

  lemma SeekIsNotAfter(store: Store, prefix: Bytes, seek: Bytes, ks: seq<Bytes>, q: Pair)
    requires Tagged(store) && Ascending(ks) && prefix + q.key in ks && !Less(q.key, seek)
    requires Owns(store, prefix, prefix + q.key) && q == PairAt(store, prefix, prefix + q.key)
    ensures var at := At(store, prefix, ks, Skip(store, prefix, ks, LowerBound(ks, prefix + seek, 0)));
            at != None && (q == at.value || Less(at.value.key, q.key))
  {
    var m :| 0 <= m < |ks| && ks[m] == prefix + q.key;
    var j := Skip(store, prefix, ks, LowerBound(ks, prefix + seek, 0));
    SeekReaches(store, prefix, seek, ks, m, q.key);
    if j < m {
      var local := ks[j][|prefix|..];
      assert prefix + local == ks[j];
      LessAfterPrefix(prefix, local, q.key);
    }
  }

  lemma PrefixBelow(prefix: Bytes, seek: Bytes, k: Bytes)
    requires !Less(k, prefix + seek)
    ensures !Less(k, prefix)
  {
    if Less(k, prefix) {
      PrefixComesFirst(prefix, prefix + seek);
      LessTotal(prefix, prefix + seek);
      if prefix != prefix + seek {
        LessTransitive(k, prefix, prefix + seek);
      }
    }
  }

  lemma {:induction false} SkipStopsAt(store: Store, prefix: Bytes, ks: seq<Bytes>, i: nat, m: nat)
    requires Tagged(store) && i <= m < |ks| && Stops(store, prefix, ks, m)
    ensures Skip(store, prefix, ks, i) <= m
    decreases m - i
  {
    if !Stops(store, prefix, ks, i) {
      SkipStopsAt(store, prefix, ks, i + 1, m);
    }
  }

  /** Seeking with an empty, non-nil key begins where First does, except in a top-level bucket, where it
      returns the bucket's own marker under an empty key. */
  lemma SeekEmpty(store: Store, prefix: Bytes, ks: seq<Bytes>)
    requires Tagged(store) && forall k :: k in ks ==> k in store
    ensures var i := LowerBound(ks, prefix + [], 0);
            Skip(store, prefix, ks, i)
            == if i < |ks| && ks[i] == prefix && Owner(store, ks[i]) == prefix then i
               else Skip(store, prefix, ks, AfterMarker(prefix, ks))
  {
    assert prefix + [] == prefix;
  }
}
