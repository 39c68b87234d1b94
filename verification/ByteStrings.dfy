/** Byte strings in the order in which the key/value store keeps them. */
module ByteStrings {

  newtype Byte = b: int | 0 <= b < 256
  type Bytes = seq<Byte>

  /** byte(length): a length cut down to one byte. */
  function LengthByte(length: nat): Byte {
    (length % 256) as Byte
  }

  /** bytes.Compare(a, b) < 0 */
  predicate Less(a: Bytes, b: Bytes) {
    b != [] && (a == [] || a[0] < b[0] || (a[0] == b[0] && Less(a[1..], b[1..])))
  }

  predicate HasPrefix(k: Bytes, p: Bytes) {
    p <= k
  }

  lemma {:induction false} LessIrreflexive(a: Bytes)
    ensures !Less(a, a)
  {
    if a != [] {
      LessIrreflexive(a[1..]);
    }
  }

  lemma {:induction false} LessTransitive(a: Bytes, b: Bytes, c: Bytes)
    requires Less(a, b) && Less(b, c)
    ensures Less(a, c)
  {
    if a != [] && a[0] == b[0] == c[0] {
      LessTransitive(a[1..], b[1..], c[1..]);
    }
  }

  lemma {:induction false} LessTotal(a: Bytes, b: Bytes)
    ensures Less(a, b) || a == b || Less(b, a)
  {
    if a != [] && b != [] && a[0] == b[0] {
      LessTotal(a[1..], b[1..]);
      assert a == [a[0]] + a[1..] && b == [b[0]] + b[1..];
    }
  }

  lemma {:induction false} LessAfterPrefix(p: Bytes, a: Bytes, b: Bytes)
    ensures Less(p + a, p + b) <==> Less(a, b)
  {
    if p == [] {
      assert p + a == a && p + b == b;
    } else {
      assert (p + a)[1..] == p[1..] + a && (p + b)[1..] == p[1..] + b;
      LessAfterPrefix(p[1..], a, b);
    }
  }

  /** Nothing with prefix `p` comes before `p`. */
  lemma {:induction false} PrefixComesFirst(p: Bytes, k: Bytes)
    requires HasPrefix(k, p)
    ensures !Less(k, p)
  {
    if p != [] {
      assert p[1..] <= k[1..];
      PrefixComesFirst(p[1..], k[1..]);
    }
  }

  lemma PrefixTail(p: Bytes, k: Bytes)
    requires p != [] && k != [] && p[0] == k[0]
    ensures HasPrefix(k, p) <==> HasPrefix(k[1..], p[1..])
  {
    assert k == [k[0]] + k[1..] && p == [p[0]] + p[1..];
  }

  /** The strings with a given prefix are consecutive: once past one of them, a string without the
      prefix is past them all. */
  lemma {:induction false} PrefixIsInterval(p: Bytes, k: Bytes, a: Bytes)
    requires !Less(k, p) && !HasPrefix(k, p) && HasPrefix(a, p)
    ensures Less(a, k)
  {
    if p != [] {
      if k[0] == p[0] {
        assert k == [k[0]] + k[1..] && p == [p[0]] + p[1..] && a == [a[0]] + a[1..];
        assert p[1..] <= a[1..];
        PrefixTail(p, k);
        PrefixIsInterval(p[1..], k[1..], a[1..]);
      }
    }
  }

  // ---------------------------------------------------------------- sorted key lists

  ghost predicate Ascending(ks: seq<Bytes>) {
    forall i, j :: 0 <= i < j < |ks| ==> Less(ks[i], ks[j])
  }

  predicate IsLeast(m: Bytes, s: set<Bytes>) {
    m in s && forall k :: k in s && k != m ==> Less(m, k)
  }

  lemma {:induction false} LeastExists(s: set<Bytes>)
    requires s != {}
    ensures exists m :: IsLeast(m, s)
  {
    var x :| x in s;
    if s == {x} {
      assert IsLeast(x, s);
    } else {
      LeastExists(s - {x});
      var y :| IsLeast(y, s - {x});
      LessTotal(x, y);
      var m := if Less(x, y) then x else y;
      forall k | k in s && k != m
        ensures Less(m, k)
      {
        if k != x && k != y && m == x {
          LessTransitive(x, y, k);
        }
      }
      assert IsLeast(m, s);
    }
  }

  lemma LeastIsUnique(s: set<Bytes>, m: Bytes, n: Bytes)
    requires IsLeast(m, s) && IsLeast(n, s)
    ensures m == n
  {
    if m != n {
      LessTransitive(m, n, m);
      LessIrreflexive(m);
    }
  }

  function Least(s: set<Bytes>): (m: Bytes)
    requires s != {}
    ensures IsLeast(m, s)
  {
    LeastExists(s);
    assert forall m, n :: IsLeast(m, s) && IsLeast(n, s) ==> m == n by {
      forall m, n | IsLeast(m, s) && IsLeast(n, s)
        ensures m == n
      {
        LeastIsUnique(s, m, n);
      }
    }
    var m :| IsLeast(m, s);
    m
  }

  /** The strings of `s` in ascending order. */
  function SortedKeys(s: set<Bytes>): (ks: seq<Bytes>)
    ensures Ascending(ks)
    ensures forall k :: k in ks <==> k in s
  {
    if s == {} then
      []
    else
      var m := Least(s);
      [m] + SortedKeys(s - {m})
  }

  /** An ascending list is determined by its members. */
  lemma {:induction false} AscendingIsUnique(a: seq<Bytes>, b: seq<Bytes>)
    requires Ascending(a) && Ascending(b) && (forall k :: k in a <==> k in b)
    ensures a == b
  {
    assert b == [] || b[0] in b;
    if a != [] {
      assert a[0] in a && a[0] in b;
      assert b[0] in b && b[0] in a;
      if a[0] != b[0] {
        LessTransitive(a[0], b[0], a[0]);
        LessIrreflexive(a[0]);
      }
      forall k
        ensures k in a[1..] <==> k in b[1..]
      {
        LessIrreflexive(a[0]);
        if k in a[1..] {
          assert k in a && k in b;
        }
        if k in b[1..] {
          assert k in b && k in a;
        }
      }
      AscendingIsUnique(a[1..], b[1..]);
    }
  }
}
