/** The nested buckets that the flat store of libwallet/badgerdb stands for, and when it does. */
module BucketTree {
  import opened ByteStrings
  import opened FlatStore
  import opened Wrappers

  /** The names from a top-level bucket down to an entry. */
  type Path = seq<Bytes>

  datatype Node = Dir | Leaf(value: Bytes)

  /** A forest of nested buckets, as the set of its paths. */
  type Tree = map<Path, Node>

  /** The flat key of a path: its names, concatenated. */
  function Spell(p: Path): Bytes {
    if p == [] then [] else Spell(p[..|p| - 1]) + p[|p| - 1]
  }

  function Parent(p: Path): Path
    requires p != []
  {
    p[..|p| - 1]
  }

  function Name(p: Path): Bytes
    requires p != []
  {
    p[|p| - 1]
  }

  /** The length the owner tag records: the parent's flat key, or the whole name of a top-level bucket. */
  function OwnerLength(p: Path): nat
    requires p != []
  {
    if |p| == 1 then |p[0]| else |Spell(Parent(p))|
  }

  function ItemOf(p: Path, n: Node): Item
    requires p != []
  {
    match n
    case Dir => BucketItem(OwnerLength(p))
    case Leaf(value) => ValueItem(OwnerLength(p), value)
  }

  /** The entry at `p` has a name and lies in a bucket of the tree; at the top there are only buckets. */
  ghost predicate Lodged(t: Tree, p: Path)
    requires p in t
  {
    && p != [] && Name(p) != []
    && (if |p| == 1 then t[p].Dir? else Parent(p) in t && t[Parent(p)].Dir?)
  }

  ghost predicate WellFormed(t: Tree) {
    forall p {:trigger Lodged(t, p)} :: p in t ==> Lodged(t, p)
  }

  ghost predicate Unambiguous(t: Tree) {
    forall p, q {:trigger Spell(p), Spell(q)} :: p in t && q in t && Spell(p) == Spell(q) ==> p == q
  }

  ghost predicate Stored(store: Store, p: Path, n: Node) {
    p != [] && Spell(p) in store && store[Spell(p)] == ItemOf(p, n)
  }

  ghost predicate Spelled(t: Tree, k: Bytes) {
    exists p :: p in t && Spell(p) == k
  }

  ghost predicate Represents(store: Store, t: Tree) {
    && (forall p {:trigger Stored(store, p, t[p])} :: p in t ==> Stored(store, p, t[p]))
    && (forall k {:trigger Spelled(t, k)} :: k in store ==> Spelled(t, k))
  }

  /** No bucket's prefix outgrows the byte that holds its length. */
  ghost predicate Bounded(t: Tree) {
    forall p :: p in t && p != [] ==> OwnerLength(p) <= 255
  }

  // ---------------------------------------------------------------- the operations on a tree

  /** Creates the bucket at `p` unless something is there; the result says what was found. */
  function TreeCreate(t: Tree, p: Path, errorIfExists: bool): (Tree, Result<(), Error>) {
    if p !in t then (t[p := Dir], Ok(()))
    else if t[p].Leaf? then (t, Err(Invalid))
    else if errorIfExists then (t, Err(Exist))
    else (t, Ok(()))
  }

  /** Stores a value under a name that is not a bucket's. */
  function TreePut(t: Tree, p: Path, value: Bytes): Tree {
    if p in t && t[p].Dir? then t else t[p := Leaf(value)]
  }

  /** Removes a value; buckets stay. */
  function TreeDelete(t: Tree, p: Path): Tree {
    if p in t && t[p].Leaf? then t - {p} else t
  }

  /** Removes a top-level bucket with all it contains. */
  function TreeDeleteTop(t: Tree, name: Bytes): Tree {
    map p | p in t && !([name] <= p) :: t[p]
  }

  /** The bytes Get returns: those of a value, and no bytes at all for a sub-bucket. */
  function TreeGet(t: Tree, p: Path): Option<Bytes> {
    if p !in t then None else if t[p].Dir? then Some([]) else Some(t[p].value)
  }

  // ---------------------------------------------------------------- guards

  /** Nothing in the tree but possibly `p` itself is spelled like `p`. */
  ghost predicate Alone(t: Tree, p: Path) {
    forall q :: q in t && Spell(q) == Spell(p) ==> q == p
  }

  /** Nothing in the tree but possibly a value at `p` is spelled like `p`. */
  ghost predicate Free(t: Tree, p: Path) {
    forall q :: q in t && Spell(q) == Spell(p) ==> q == p && t[q].Leaf?
  }

  // ---------------------------------------------------------------- spelling

  lemma SpellSnoc(p: Path, name: Bytes)
    ensures Spell(p + [name]) == Spell(p) + name
  {
    assert (p + [name])[..|p|] == p;
  }

  lemma SpellSingle(name: Bytes)
    ensures Spell([name]) == name
  {
    assert [name][..0] == [];
  }

  lemma OwnerLengthFits(p: Path)
    requires p != []
    ensures OwnerLength(p) <= |Spell(p)|
    ensures |p| == 1 ==> OwnerLength(p) == |Spell(p)|
  {
    if |p| == 1 {
      assert p == [p[0]];
      SpellSingle(p[0]);
    }
  }

  lemma RepresentedIsTagged(store: Store, t: Tree)
    requires Represents(store, t)
    ensures Tagged(store)
  {
    hide Stored, Spell;
    forall k | k in store
      ensures store[k].value != [] && store[k].value[0] as int <= |k|
    {
      assert Spelled(t, k);
      var p :| p in t && Spell(p) == k;
      assert Stored(store, p, t[p]);
      StoredIsTagged(store, p, t[p]);
    }
  }

  lemma StoredIsTagged(store: Store, p: Path, n: Node)
    requires Stored(store, p, n)
    ensures var k := Spell(p);
            k in store && store[k].value != [] && store[k].value[0] as int <= |k|
  {
    hide Spell;
    OwnerLengthFits(p);
    TagIsLength(p, n);
  }

  lemma TagIsLength(p: Path, n: Node)
    requires p != []
    ensures ItemOf(p, n).value != [] && ItemOf(p, n).value[0] as int <= OwnerLength(p)
  {
    hide OwnerLength;
  }

  /** The store is the flat form of the tree; then its tags are in order. */
  ghost predicate Coherent(store: Store, t: Tree): (coherent: bool)
    ensures coherent ==> Tagged(store)
  {
    assert Represents(store, t) ==> Tagged(store) by {
      if Represents(store, t) {
        RepresentedIsTagged(store, t);
      }
    }
    WellFormed(t) && Unambiguous(t) && Represents(store, t)
  }

  // ---------------------------------------------------------------- one operation each

  // Setting one path whose spelling nothing else has keeps the forms together.

  lemma InsertIsWellFormed(t: Tree, p: Path, n: Node)
    requires WellFormed(t) && p != [] && Name(p) != []
    requires if |p| == 1 then n.Dir? else Parent(p) in t && t[Parent(p)].Dir?
    requires p in t && t[p].Dir? ==> n.Dir?
    ensures WellFormed(t[p := n])
  {
    var t' := t[p := n];
    forall q | q in t'
      ensures Lodged(t', q)
    {
      if q in t {
        assert Lodged(t, q);
      }
    }
  }

  lemma InsertIsUnambiguous(t: Tree, p: Path, n: Node)
    requires Unambiguous(t) && Alone(t, p)
    ensures Unambiguous(t[p := n])
  {
  }

  lemma InsertIsRepresented(store: Store, t: Tree, p: Path, n: Node)
    requires Represents(store, t) && Alone(t, p) && p != []
    ensures Represents(store[Spell(p) := ItemOf(p, n)], t[p := n])
  {
    var store', t' := store[Spell(p) := ItemOf(p, n)], t[p := n];
    forall q | q in t'
      ensures Stored(store', q, t'[q])
    {
      if q in t {
        assert Stored(store, q, t[q]);
      }
    }
    forall k | k in store'
      ensures Spelled(t', k)
    {
      if k != Spell(p) {
        assert Spelled(t, k);
        var q :| q in t && Spell(q) == k;
        assert q in t' && Spell(q) == k;
      } else {
        assert p in t' && Spell(p) == k;
      }
    }
  }

  /** A path that is not there spells a key that is not there, when nothing else spells it. */
  lemma AbsentIsAbsent(store: Store, t: Tree, p: Path)
    requires Represents(store, t) && p !in t && Alone(t, p)
    ensures Spell(p) !in store
  {
    assert Spell(p) in store ==> Spelled(t, Spell(p));
  }

  lemma PresentIsStored(store: Store, t: Tree, q: Path)
    requires Represents(store, t) && q in t
    ensures Stored(store, q, t[q])
  {
  }

  /** Put is Put on the tree exactly when no other entry, and no bucket, is spelled like the new one. */
  lemma PutRefines(store: Store, t: Tree, path: Path, key: Bytes, value: Bytes)
    requires Coherent(store, t) && path in t && t[path].Dir? && 0 < |key| <= MAX_KEY_SIZE
    ensures Coherent(Put(store, Spell(path), key, value).0, TreePut(t, path + [key], value)) <==> Free(t, path + [key])
  {
    var p := path + [key];
    var store', t' := Put(store, Spell(path), key, value).0, TreePut(t, p, value);
    SpellSnoc(path, key);
    assert Lodged(t, path);
    assert Parent(p) == path && ItemOf(p, Leaf(value)) == ValueItem(|Spell(path)|, value);
    if Free(t, p) {
      InsertIsWellFormed(t, p, Leaf(value));
      InsertIsUnambiguous(t, p, Leaf(value));
      InsertIsRepresented(store, t, p, Leaf(value));
    } else {
      var q :| q in t && Spell(q) == Spell(p) && !(q == p && t[q].Leaf?);
      if q == p {
        assert !Stored(store', p, t'[p]);
      } else {
        assert q in t' && p in t' && q != p;
      }
    }
  }

  /** What a creation on the tree says in terms of flat keys. */
  function OnFlat(r: Result<(), Error>, k: Bytes): Result<Bytes, Error> {
    match r
    case Ok(_) => Ok(k)
    case Err(e) => Err(e)
  }

  /** Creating a nested bucket does, and answers, the same as on the tree exactly when no other entry is
      spelled like the new bucket. */
  lemma CreateRefines(store: Store, t: Tree, path: Path, key: Bytes, errorIfExists: bool)
    requires Coherent(store, t) && path in t && t[path].Dir? && 0 < |key| <= MAX_KEY_SIZE
    ensures Coherent(CreateNested(store, Spell(path), key, errorIfExists).0,
                     TreeCreate(t, path + [key], errorIfExists).0)
       <==> Alone(t, path + [key])
    ensures Alone(t, path + [key]) ==>
              CreateNested(store, Spell(path), key, errorIfExists).1
              == OnFlat(TreeCreate(t, path + [key], errorIfExists).1, Spell(path) + key)
  {
    var p := path + [key];
    SpellSnoc(path, key);
    assert Lodged(t, path);
    assert Parent(p) == path && ItemOf(p, Dir) == BucketItem(|Spell(path)|);
    if p in t {
      PresentIsStored(store, t, p);
    } else if Alone(t, p) {
      AbsentIsAbsent(store, t, p);
      InsertIsWellFormed(t, p, Dir);
      InsertIsUnambiguous(t, p, Dir);
      InsertIsRepresented(store, t, p, Dir);
    } else {
      var q :| q in t && Spell(q) == Spell(p) && q != p;
      var t' := TreeCreate(t, p, errorIfExists).0;
      assert q in t' && p in t';
    }
  }

  /** Creating a top-level bucket is faithful exactly when no other entry is spelled like its name. */
  lemma CreateTopRefines(store: Store, t: Tree, name: Bytes)
    requires Coherent(store, t) && name != []
    ensures Coherent(CreateTop(store, name).0, TreeCreate(t, [name], false).0) <==> Alone(t, [name])
    ensures Alone(t, [name]) ==> CreateTop(store, name).1 == OnFlat(TreeCreate(t, [name], false).1, name)
  {
    SpellSingle(name);
    var p := [name];
    if p in t {
      PresentIsStored(store, t, p);
    } else if Alone(t, p) {
      AbsentIsAbsent(store, t, p);
      InsertIsWellFormed(t, p, Dir);
      InsertIsUnambiguous(t, p, Dir);
      InsertIsRepresented(store, t, p, Dir);
    } else {
      var q :| q in t && Spell(q) == Spell(p) && q != p;
      var t' := TreeCreate(t, p, false).0;
      assert q in t' && p in t';
    }
  }

  /** Removing one value that nothing else is spelled like. */
  lemma RemoveIsCoherent(store: Store, t: Tree, p: Path)
    requires Coherent(store, t) && p in t && t[p].Leaf?
    ensures Coherent(store - {Spell(p)}, t - {p})
  {
    var store', t' := store - {Spell(p)}, t - {p};
    forall q | q in t'
      ensures Lodged(t', q) && Stored(store', q, t'[q])
    {
      assert Lodged(t, q) && Stored(store, q, t[q]);
    }
    forall k | k in store'
      ensures Spelled(t', k)
    {
      assert Spelled(t, k);
      var q :| q in t && Spell(q) == k;
      assert q in t' && Spell(q) == k;
    }
  }

  /** Delete is Delete on the tree exactly when no other entry, and no bucket, is spelled like the name. */
  lemma DeleteRefines(store: Store, t: Tree, path: Path, key: Bytes)
    requires Coherent(store, t) && path in t && t[path].Dir? && 0 < |key| <= MAX_KEY_SIZE
    ensures Coherent(Delete(store, Spell(path), key).0, TreeDelete(t, path + [key])) <==> Free(t, path + [key])
  {
    var p := path + [key];
    var store', t' := Delete(store, Spell(path), key).0, TreeDelete(t, p);
    SpellSnoc(path, key);
    if Free(t, p) {
      if p in t {
        RemoveIsCoherent(store, t, p);
      } else {
        AbsentIsAbsent(store, t, p);
        assert store' == store;
      }
    } else {
      var q :| q in t && Spell(q) == Spell(p) && !(q == p && t[q].Leaf?);
      assert q in t' && !Stored(store', q, t'[q]);
    }
  }

  /** Get returns what the tree holds exactly when no other entry is spelled like the key. */
  lemma GetRefines(store: Store, t: Tree, path: Path, key: Bytes)
    requires Coherent(store, t) && path in t && 0 < |key| <= MAX_KEY_SIZE
    ensures Get(store, Spell(path), key) == TreeGet(t, path + [key]) <==> Alone(t, path + [key])
  {
    var p := path + [key];
    SpellSnoc(path, key);
    if p in t {
      PresentIsStored(store, t, p);
    } else if Alone(t, p) {
      AbsentIsAbsent(store, t, p);
    } else {
      var q :| q in t && Spell(q) == Spell(p) && q != p;
      PresentIsStored(store, t, q);
    }
  }

  /** Opening finds a bucket exactly when some bucket of the tree is spelled like the key asked for. */
  lemma OpenRefines(store: Store, t: Tree, k: Bytes)
    requires Coherent(store, t)
    ensures OpenTop(store, k).Some? <==> exists q :: q in t && Spell(q) == k && t[q].Dir?
  {
    if k in store {
      assert Spelled(t, k);
      var q :| q in t && Spell(q) == k;
      PresentIsStored(store, t, q);
    }
    forall q | q in t && Spell(q) == k
      ensures k in store
    {
      PresentIsStored(store, t, q);
    }
  }

  ghost predicate HasBucket(t: Tree, k: Bytes) {
    exists q :: q in t && Spell(q) == k && t[q].Dir?
  }

  /** Opening a nested bucket returns the bucket that is spelled like the key asked for, and agrees with the tree
      exactly when that is not some other bucket. */
  lemma OpenNestedRefines(store: Store, t: Tree, path: Path, key: Bytes)
    requires Coherent(store, t) && path in t
    ensures OpenNested(store, Spell(path), key)
         == if |key| <= MAX_KEY_SIZE && HasBucket(t, Spell(path) + key) then Some(Spell(path) + key) else None
    ensures |key| <= MAX_KEY_SIZE ==>
              var p := path + [key];
              (OpenNested(store, Spell(path), key).Some? <==> p in t && t[p].Dir?)
              <==> (forall q :: q in t && Spell(q) == Spell(p) && t[q].Dir? ==> q == p)
  {
    var p := path + [key];
    SpellSnoc(path, key);
    OpenRefines(store, t, Spell(p));
    hide Coherent;
    assert OpenTop(store, Spell(p)).Some? ==> OpenTop(store, Spell(p)) == Some(Spell(p));
    if q :| q in t && Spell(q) == Spell(p) && t[q].Dir? && q != p {
      assert HasBucket(t, Spell(p));
      if p in t {
        SameSpelling(store, t, p, q);
      }
    }
  }

  lemma SameSpelling(store: Store, t: Tree, p: Path, q: Path)
    requires Coherent(store, t) && p in t && q in t && Spell(p) == Spell(q)
    ensures p == q
  {
  }

  // ---------------------------------------------------------------- walking a bucket

  function NodeValue(n: Node): Option<Bytes> {
    match n
    case Dir => None
    case Leaf(value) => Some(value)
  }

  lemma ShortLengthIsExact(n: nat)
    requires n <= 255
    ensures LengthByte(n) as int == n
  {
  }

  lemma OwnerIsParent(store: Store, t: Tree, q: Path)
    requires Coherent(store, t) && Bounded(t) && q in t
    ensures Spell(q) in store && q != []
    ensures Owner(store, Spell(q)) == if |q| == 1 then Spell(q) else Spell(Parent(q))
  {
    PresentIsStored(store, t, q);
    OwnerLengthFits(q);
    ShortLengthIsExact(OwnerLength(q));
    assert store[Spell(q)].value[0] == ItemOf(q, t[q]).value[0] == LengthByte(OwnerLength(q));
    if |q| > 1 {
      assert Spell(q)[..|Spell(Parent(q))|] == Spell(Parent(q));
    }
  }

  lemma ChildIsListed(store: Store, t: Tree, path: Path, name: Bytes)
    requires Coherent(store, t) && Bounded(t) && path in t && path + [name] in t
    ensures var k := Spell(path) + name;
            Listed(store, Spell(path), k)
            && PairAt(store, Spell(path), k) == Pair(name, NodeValue(t[path + [name]]))
  {
    var q := path + [name];
    assert Lodged(t, q) && Lodged(t, path) && Parent(q) == path;
    SpellSnoc(path, name);
    OwnerIsParent(store, t, q);
    PresentIsStored(store, t, q);
  }

  lemma ListedIsChild(store: Store, t: Tree, path: Path, k: Bytes)
    requires Coherent(store, t) && Bounded(t) && path in t && Listed(store, Spell(path), k)
    ensures path + [k[|Spell(path)|..]] in t
  {
    hide Coherent, Bounded, Listed, Spell;
    var q := PathOfListed(store, t, path, k);
    SameSpelling(store, t, Parent(q), path);
    SpellSnoc(path, Name(q));
    assert q == path + [Name(q)];
  }

  lemma PathOfListed(store: Store, t: Tree, path: Path, k: Bytes) returns (q: Path)
    requires Coherent(store, t) && Bounded(t) && path in t && Listed(store, Spell(path), k)
    ensures q in t && Spell(q) == k && |q| > 1 && Parent(q) in t && Spell(Parent(q)) == Spell(path)
  {
    hide Spell, Bounded;
    assert Spelled(t, k);
    q :| q in t && Spell(q) == k;
    assert Lodged(t, q);
    OwnerIsParent(store, t, q);
  }

  /** ForEach on a bucket of the tree lists its children, all of them and nothing else, in name order. */
  lemma ForEachRefines(store: Store, t: Tree, path: Path)
    requires Coherent(store, t) && Bounded(t) && path in t
    ensures PairsAscend(Listing(store, Spell(path)))
    ensures forall pair :: pair in Listing(store, Spell(path)) <==>
              (path + [pair.key] in t && pair.value == NodeValue(t[path + [pair.key]]))
  {
    ListingIsExact(store, Spell(path));
    forall pair
      ensures pair in Listing(store, Spell(path)) <==>
                (path + [pair.key] in t && pair.value == NodeValue(t[path + [pair.key]]))
    {
      var k := Spell(path) + pair.key;
      if pair in Listing(store, Spell(path)) {
        ListedIsChild(store, t, path, k);
        assert k[|Spell(path)|..] == pair.key;
        ChildIsListed(store, t, path, pair.key);
      } else if path + [pair.key] in t {
        ChildIsListed(store, t, path, pair.key);
      }
    }
  }

  // ---------------------------------------------------------------- deleting a top-level bucket

  /** What DeleteTop takes from the tree: the bucket and its direct entries. */
  predicate Shallow(name: Bytes, p: Path) {
    [name] <= p && |p| <= 2
  }

  lemma DeleteTopTakes(store: Store, t: Tree, name: Bytes, q: Path)
    requires Coherent(store, t) && Bounded(t) && [name] in t && q in t
    ensures Spell(q) in DeleteTop(store, name).0 <==> !Shallow(name, q)
  {
    SpellSingle(name);
    assert Lodged(t, [name]) && Lodged(t, q);
    PresentIsStored(store, t, [name]);
    OwnerIsParent(store, t, q);
    if |q| == 1 {
      assert Shallow(name, q) <==> q == [name];
    } else {
      assert Parent(q) == [name] <==> Shallow(name, q);
    }
  }

  lemma RemovedIsNotSpelled(t: Tree, t': Tree, q: Path)
    requires Unambiguous(t) && q in t && q !in t' && forall p :: p in t' ==> p in t
    ensures !Spelled(t', Spell(q))
  {
  }

  /** No sub-bucket of the top-level bucket holds anything, and no nested bucket is spelled like its name. */
  ghost predicate Removable(t: Tree, name: Bytes) {
    && (forall q :: q in t && [name] <= q ==> |q| <= 2)
    && (forall q :: q in t && Spell(q) == name && t[q].Dir? ==> q == [name])
  }

  /** DeleteTopLevelBucket removes the bucket with all it contains, or nothing if there is none, exactly
      under this condition: entries of sub-buckets stay behind in the store, and a nested bucket that is
      spelled like the name is taken for it. */
  lemma DeleteTopRefines(store: Store, t: Tree, name: Bytes)
    requires Coherent(store, t) && Bounded(t)
    ensures Coherent(DeleteTop(store, name).0, TreeDeleteTop(t, name)) <==> Removable(t, name)
  {
    SpellSingle(name);
    if [name] in t {
      DeleteTopPresent(store, t, name);
      assert forall q :: q in t && Spell(q) == name ==> q == [name];
    } else {
      DeleteTopAbsent(store, t, name);
    }
  }

  lemma DeleteTopPresent(store: Store, t: Tree, name: Bytes)
    requires Coherent(store, t) && Bounded(t) && [name] in t
    ensures Coherent(DeleteTop(store, name).0, TreeDeleteTop(t, name))
       <==> (forall q :: q in t && [name] <= q ==> |q| <= 2)
  {
    var store', t' := DeleteTop(store, name).0, TreeDeleteTop(t, name);
    if q :| q in t && [name] <= q && |q| > 2 {
      DeleteTopTakes(store, t, name, q);
      RemovedIsNotSpelled(t, t', q);
    } else {
      DeleteTopKeeps(store, t, name);
    }
  }

  lemma TopIsThere(t: Tree, q: Path, name: Bytes)
    requires WellFormed(t) && q in t && [name] <= q
    ensures [name] in t
  {
    AncestorIsBucket(t, q, 1);
    assert q[..1] == [name];
  }

  /** Without a top-level bucket of this name, the tree has nothing to remove. */
  lemma DeleteTopAbsent(store: Store, t: Tree, name: Bytes)
    requires Coherent(store, t) && [name] !in t
    ensures forall q :: q in t ==> !([name] <= q)
    ensures Coherent(DeleteTop(store, name).0, TreeDeleteTop(t, name))
       <==> (forall q :: q in t && Spell(q) == name ==> t[q].Leaf?)
  {
    forall q | q in t
      ensures !([name] <= q)
    {
      if [name] <= q {
        TopIsThere(t, q, name);
      }
    }
    assert TreeDeleteTop(t, name) == t;
    if q :| q in t && Spell(q) == name && t[q].Dir? {
      PresentIsStored(store, t, q);
      NamesAreNotEmpty(t, q);
      assert Spell(q) !in DeleteTop(store, name).0;
      assert !Stored(DeleteTop(store, name).0, q, t[q]);
    } else {
      if name in store {
        assert Spelled(t, name);
        var q :| q in t && Spell(q) == name;
        PresentIsStored(store, t, q);
      }
      assert DeleteTop(store, name).0 == store;
    }
  }

  lemma NamesAreNotEmpty(t: Tree, q: Path)
    requires WellFormed(t) && q in t
    ensures Spell(q) != []
  {
    assert Lodged(t, q);
  }

  lemma DeleteTopKeeps(store: Store, t: Tree, name: Bytes)
    requires Coherent(store, t) && Bounded(t) && [name] in t
    requires forall q :: q in t && [name] <= q ==> |q| <= 2
    ensures Coherent(DeleteTop(store, name).0, TreeDeleteTop(t, name))
  {
    var store', t' := DeleteTop(store, name).0, TreeDeleteTop(t, name);
    forall q | q in t'
      ensures Lodged(t', q) && Stored(store', q, t'[q])
    {
      assert Lodged(t, q);
      PresentIsStored(store, t, q);
      DeleteTopTakes(store, t, name, q);
    }
    forall k | k in store'
      ensures Spelled(t', k)
    {
      assert Spelled(t, k);
      var q :| q in t && Spell(q) == k;
      DeleteTopTakes(store, t, name, q);
      assert q in t' && Spell(q) == k;
    }
  }

  // ---------------------------------------------------------------- when spelling is injective

  /** In bucket `p`, sub-bucket `a` begins the name of another entry `b`. */
  ghost predicate Clash(t: Tree, p: Path, a: Bytes, b: Bytes) {
    p + [a] in t && t[p + [a]].Dir? && p + [b] in t && a < b
  }

  /** No name of a bucket is a proper prefix of the name of a sibling. */
  ghost predicate PrefixFree(t: Tree) {
    forall p, a, b :: !Clash(t, p, a, b)
  }

  lemma {:induction false} AncestorIsBucket(t: Tree, p: Path, i: nat)
    requires WellFormed(t) && p in t && 0 < i <= |p|
    ensures p[..i] in t && p[i - 1] != [] && (i < |p| ==> t[p[..i]].Dir?)
    decreases |p| - i
  {
    if i == |p| {
      assert p[..i] == p;
      assert Lodged(t, p);
    } else {
      AncestorIsBucket(t, p, i + 1);
      assert Lodged(t, p[..i + 1]);
      assert Parent(p[..i + 1]) == p[..i];
      assert Lodged(t, p[..i]);
    }
  }

  lemma {:induction false} SpellGrows(p: Path, i: nat)
    requires i <= |p|
    ensures Spell(p[..i]) <= Spell(p)
    decreases |p| - i
  {
    if i < |p| {
      SpellGrows(p, i + 1);
      assert p[..i + 1][..i] == p[..i];
    } else {
      assert p[..i] == p;
    }
  }

  /** Where two paths part, the shorter of the two next names is a bucket that begins the other. */
  lemma PartingIsClash(t: Tree, p: Path, q: Path, i: nat)
    requires WellFormed(t) && p in t && q in t && Spell(p) == Spell(q)
    requires i < |p| && i < |q| && p[..i] == q[..i] && p[i] != q[i] && |p[i]| <= |q[i]|
    ensures Clash(t, p[..i], p[i], q[i])
  {
    AncestorIsBucket(t, p, i + 1);
    AncestorIsBucket(t, q, i + 1);
    SpellOfNext(p, i);
    SpellOfNext(q, i);
    ShorterIsPrefix(Spell(p[..i]), p[i], q[i], Spell(p));
    assert p[..|p|] == p;
  }

  lemma SpellOfNext(p: Path, i: nat)
    requires i < |p|
    ensures p[..i + 1] == p[..i] + [p[i]]
    ensures Spell(p[..i]) + p[i] == Spell(p[..i + 1]) <= Spell(p)
  {
    hide Spell;
    TakeSnoc(p, i);
    SpellSnoc(p[..i], p[i]);
    SpellGrows(p, i + 1);
  }

  lemma TakeSnoc(p: Path, i: nat)
    requires i < |p|
    ensures p[..i + 1] == p[..i] + [p[i]]
  {
  }

  lemma ShorterIsPrefix(c: Bytes, a: Bytes, b: Bytes, s: Bytes)
    requires c + a <= s && c + b <= s && |a| <= |b|
    ensures a <= b && (|a| == |b| ==> a == b)
  {
    assert a == s[|c|..|c| + |a|] && b == s[|c|..|c| + |b|];
  }

  /** Without such names, the map from paths to flat keys is injective. */
  lemma PrefixFreeIsUnambiguous(t: Tree)
    requires WellFormed(t) && PrefixFree(t)
    ensures Unambiguous(t)
  {
    forall p, q | p in t && q in t && Spell(p) == Spell(q)
      ensures p == q
    {
      if p != q {
        var i := Parting(p, q);
        if i < |p| && i < |q| {
          if |p[i]| <= |q[i]| {
            PartingIsClash(t, p, q, i);
          } else {
            PartingIsClash(t, q, p, i);
          }
        } else if i < |q| {
          LongerSpellsLonger(t, p, q);
        } else {
          LongerSpellsLonger(t, q, p);
        }
      }
    }
  }

  /** The first index at which two paths differ. */
  function Parting(p: Path, q: Path): (i: nat)
    ensures i <= |p| && i <= |q| && p[..i] == q[..i]
    ensures i < |p| && i < |q| ==> p[i] != q[i]
  {
    if p == [] || q == [] || p[0] != q[0] then
      0
    else
      var i := 1 + Parting(p[1..], q[1..]);
      assert p[..i] == [p[0]] + p[1..][..i - 1] && q[..i] == [q[0]] + q[1..][..i - 1];
      i
  }

  lemma LongerSpellsLonger(t: Tree, p: Path, q: Path)
    requires WellFormed(t) && q in t && p < q
    ensures |Spell(p)| < |Spell(q)|
  {
    AncestorIsBucket(t, q, |p| + 1);
    assert q[..|p| + 1] == p + [q[|p|]];
    SpellSnoc(p, q[|p|]);
    SpellGrows(q, |p| + 1);
  }

  /** The owner tags alone already rule out ambiguity: no flat store represents an ambiguous tree as long
      as no bucket's prefix exceeds 255 bytes. */
  lemma TagsRuleOutAmbiguity(store: Store, t: Tree)
    requires WellFormed(t) && Bounded(t) && Represents(store, t)
    ensures Unambiguous(t)
  {
    forall p, q | p in t && q in t && Spell(p) == Spell(q)
      ensures p == q
    {
      SameKeySamePath(store, t, p, q);
    }
  }

  lemma {:induction false} SameKeySamePath(store: Store, t: Tree, p: Path, q: Path)
    requires WellFormed(t) && Bounded(t) && Represents(store, t) && p in t && q in t && Spell(p) == Spell(q)
    ensures p == q
    decreases |p|
  {
    assert Lodged(t, p) && Lodged(t, q);
    PresentIsStored(store, t, p);
    PresentIsStored(store, t, q);
    ShortLengthIsExact(OwnerLength(p));
    ShortLengthIsExact(OwnerLength(q));
    assert OwnerLength(p) == OwnerLength(q) by {
      assert ItemOf(p, t[p]).value[0] == ItemOf(q, t[q]).value[0];
    }
    OwnerLengthFits(p);
    OwnerLengthFits(q);
    if |p| == 1 {
      assert |Spell(q)| == |Spell(Parent(q))| + |Name(q)|;
      assert p == [p[0]] && q == [q[0]];
      SpellSingle(p[0]);
      SpellSingle(q[0]);
    } else {
      assert |Spell(p)| == |Spell(Parent(p))| + |Name(p)|;
      assert Spell(Parent(p)) == Spell(p)[..OwnerLength(p)] == Spell(Parent(q));
      SameKeySamePath(store, t, Parent(p), Parent(q));
      assert Name(p) == Spell(p)[OwnerLength(p)..] == Name(q);
      assert p == Parent(p) + [Name(p)] && q == Parent(q) + [Name(q)];
    }
  }

  // ---------------------------------------------------------------- whole runs

  datatype Op =
    | OpCreateTop(name: Bytes)
    | OpCreate(path: Path, key: Bytes, errorIfExists: bool)
    | OpPut(path: Path, key: Bytes, value: Bytes)
    | OpDelete(path: Path, key: Bytes)
    | OpDeleteTop(name: Bytes)

  predicate LegalKey(key: Bytes) {
    0 < |key| <= MAX_KEY_SIZE
  }

  function FlatStep(store: Store, op: Op): (store': Store)
    requires Tagged(store)
    ensures Tagged(store')
  {
    match op
    case OpCreateTop(name) =>
      CreateKeepsTags(store, [], name, false);
      CreateTop(store, name).0
    case OpCreate(path, key, errorIfExists) =>
      CreateKeepsTags(store, Spell(path), key, errorIfExists);
      CreateNested(store, Spell(path), key, errorIfExists).0
    case OpPut(path, key, value) =>
      PutKeepsTags(store, Spell(path), key, value);
      Put(store, Spell(path), key, value).0
    case OpDelete(path, key) =>
      DeleteKeepsTags(store, Spell(path), key);
      Delete(store, Spell(path), key).0
    case OpDeleteTop(name) =>
      DeleteKeepsTags(store, [], name);
      DeleteTop(store, name).0
  }

  /** The same operation on nested maps; illegal keys change nothing. */
  function TreeStep(t: Tree, op: Op): Tree {
    match op
    case OpCreateTop(name) => if name == [] then t else TreeCreate(t, [name], false).0
    case OpCreate(path, key, errorIfExists) =>
      if LegalKey(key) then TreeCreate(t, path + [key], errorIfExists).0 else t
    case OpPut(path, key, value) => if LegalKey(key) then TreePut(t, path + [key], value) else t
    case OpDelete(path, key) => if LegalKey(key) then TreeDelete(t, path + [key]) else t
    case OpDeleteTop(name) => TreeDeleteTop(t, name)
  }

  /** The bucket operated on exists and its prefix is at most 255 bytes long. */
  ghost predicate Usable(t: Tree, path: Path) {
    path in t && t[path].Dir? && |Spell(path)| <= 255
  }

  /** The guards under which one operation is faithful. */
  ghost predicate Safe(t: Tree, op: Op) {
    match op
    case OpCreateTop(name) => |name| <= 255 && Alone(t, [name])
    case OpCreate(path, key, _) => Usable(t, path) && (LegalKey(key) ==> Alone(t, path + [key]))
    case OpPut(path, key, _) => Usable(t, path) && (LegalKey(key) ==> Free(t, path + [key]))
    case OpDelete(path, key) => Usable(t, path) && (LegalKey(key) ==> Free(t, path + [key]))
    case OpDeleteTop(name) => Removable(t, name)
  }

  ghost predicate SafeRun(ops: seq<Op>) {
    ops == [] || (SafeRun(ops[..|ops| - 1]) && Safe(TreeRun(ops[..|ops| - 1]), ops[|ops| - 1]))
  }

  function FlatRun(ops: seq<Op>): (store: Store)
    ensures Tagged(store)
  {
    if ops == [] then map[] else FlatStep(FlatRun(ops[..|ops| - 1]), ops[|ops| - 1])
  }

  function TreeRun(ops: seq<Op>): Tree {
    if ops == [] then map[] else TreeStep(TreeRun(ops[..|ops| - 1]), ops[|ops| - 1])
  }

  lemma InsertIsBounded(t: Tree, path: Path, key: Bytes, n: Node)
    requires Bounded(t) && |Spell(path)| <= 255 && path != []
    ensures Bounded(t[path + [key] := n])
  {
    assert Parent(path + [key]) == path;
  }

  lemma StepStaysBounded(t: Tree, op: Op)
    requires WellFormed(t) && Bounded(t) && Safe(t, op)
    ensures Bounded(TreeStep(t, op))
  {
    match op
    case OpCreate(path, key, _) =>
      assert Lodged(t, path);
      InsertIsBounded(t, path, key, Dir);
    case OpPut(path, key, value) =>
      assert Lodged(t, path);
      InsertIsBounded(t, path, key, Leaf(value));
    case _ =>
  }

  lemma IllegalKeyDoesNothing(store: Store, prefix: Bytes, key: Bytes, value: Bytes)
    requires !LegalKey(key)
    ensures CreateNested(store, prefix, key, true).0 == CreateNested(store, prefix, key, false).0 == store
    ensures Put(store, prefix, key, value).0 == store && Delete(store, prefix, key).0 == store
    ensures CreateTop(store, []).0 == store
  {
  }

  lemma StepRefines(store: Store, t: Tree, op: Op)
    requires Coherent(store, t) && Bounded(t) && Safe(t, op)
    ensures Coherent(FlatStep(store, op), TreeStep(t, op)) && Bounded(TreeStep(t, op))
  {
    StepStaysBounded(t, op);
    hide Coherent, Bounded, Tagged, Alone, Free, Spell, TreeCreate, TreePut, TreeDelete, TreeDeleteTop;
    hide CreateTop, CreateNested, Put, Delete, DeleteTop;
    match op
    case OpCreateTop(name) =>
      if name != [] {
        CreateTopRefines(store, t, name);
      } else {
        IllegalKeyDoesNothing(store, [], [], []);
      }
    case OpCreate(path, key, errorIfExists) =>
      if LegalKey(key) {
        CreateRefines(store, t, path, key, errorIfExists);
      } else {
        IllegalKeyDoesNothing(store, Spell(path), key, []);
      }
    case OpPut(path, key, value) =>
      if LegalKey(key) {
        PutRefines(store, t, path, key, value);
      } else {
        IllegalKeyDoesNothing(store, Spell(path), key, value);
      }
    case OpDelete(path, key) =>
      if LegalKey(key) {
        DeleteRefines(store, t, path, key);
      } else {
        IllegalKeyDoesNothing(store, Spell(path), key, []);
      }
    case OpDeleteTop(name) =>
      DeleteTopRefines(store, t, name);
  }

  /** Over any run of safe operations the store stays the flat form of the tree of nested maps. */
  lemma {:induction false} RunRefines(ops: seq<Op>)
    requires SafeRun(ops)
    ensures Coherent(FlatRun(ops), TreeRun(ops)) && Bounded(TreeRun(ops))
  {
    if ops != [] {
      RunRefines(ops[..|ops| - 1]);
      StepRefines(FlatRun(ops[..|ops| - 1]), TreeRun(ops[..|ops| - 1]), ops[|ops| - 1]);
    }
  }

  // ---------------------------------------------------------------- answers

  /** What the operation returns, without the new bucket itself. */
  function FlatAnswer(store: Store, op: Op): Result<(), Error>
    requires Tagged(store)
  {
    match op
    case OpCreateTop(name) => Bare(CreateTop(store, name).1)
    case OpCreate(path, key, errorIfExists) => Bare(CreateNested(store, Spell(path), key, errorIfExists).1)
    case OpPut(path, key, value) => Put(store, Spell(path), key, value).1
    case OpDelete(path, key) => Delete(store, Spell(path), key).1
    case OpDeleteTop(name) => DeleteTop(store, name).1
  }

  function Bare(r: Result<Bytes, Error>): Result<(), Error> {
    match r
    case Ok(_) => Ok(())
    case Err(e) => Err(e)
  }

  /** The same on nested maps: illegal keys are refused, except that deleting the empty key does nothing. */
  function TreeAnswer(t: Tree, op: Op): Result<(), Error> {
    match op
    case OpCreateTop(name) => if name == [] then Err(Invalid) else TreeCreate(t, [name], false).1
    case OpCreate(path, key, errorIfExists) =>
      if LegalKey(key) then TreeCreate(t, path + [key], errorIfExists).1 else Err(Invalid)
    case OpPut(_, key, _) => if LegalKey(key) then Ok(()) else Err(Invalid)
    case OpDelete(_, key) => if key == [] || LegalKey(key) then Ok(()) else Err(Invalid)
    case OpDeleteTop(name) =>
      if name == [] then Err(Invalid) else if [name] in t then Ok(()) else Err(NotExist)
  }

  /** In any store, what the operations of a bucket answer to legal and to illegal keys. */
  lemma KeyAnswers(store: Store, prefix: Bytes, key: Bytes, value: Bytes, errorIfExists: bool)
    requires Tagged(store)
    ensures Put(store, prefix, key, value).1 == if LegalKey(key) then Ok(()) else Err(Invalid)
    ensures Delete(store, prefix, key).1 == if key == [] || LegalKey(key) then Ok(()) else Err(Invalid)
    ensures !LegalKey(key) ==> CreateNested(store, prefix, key, errorIfExists).1 == Err(Invalid)
    ensures !LegalKey(key) ==> Get(store, prefix, key) == None
    ensures |key| > MAX_KEY_SIZE ==> OpenNested(store, prefix, key) == None
  {
  }

  lemma BareOnFlat(r: Result<(), Error>, k: Bytes)
    ensures Bare(OnFlat(r, k)) == r
  {
    assert r.Ok? ==> r.value == ();
  }

  lemma NoNameAnswers(store: Store)
    requires Tagged(store)
    ensures CreateTop(store, []).1 == Err(Invalid) && DeleteTop(store, []).1 == Err(Invalid)
  {
  }

  /** A guarded operation answers as it would on nested maps, except that deleting a top-level bucket that is
      not there finds whatever else is spelled like its name. */
  lemma StepAnswers(store: Store, t: Tree, op: Op)
    requires Coherent(store, t) && Bounded(t) && Safe(t, op)
    ensures FlatAnswer(store, op) == TreeAnswer(t, op) <==> (op.OpDeleteTop? ==> Alone(t, [op.name]))
  {
    hide Coherent, Bounded, Tagged, Alone, Free, Spell, TreeCreate, CreateTop, CreateNested, Put, Delete, DeleteTop;
    match op
    case OpCreateTop(name) =>
      if name != [] {
        CreateTopRefines(store, t, name);
        BareOnFlat(TreeCreate(t, [name], false).1, name);
      } else {
        NoNameAnswers(store);
      }
    case OpCreate(path, key, errorIfExists) =>
      if LegalKey(key) {
        CreateRefines(store, t, path, key, errorIfExists);
        BareOnFlat(TreeCreate(t, path + [key], errorIfExists).1, Spell(path) + key);
      } else {
        KeyAnswers(store, Spell(path), key, [], errorIfExists);
      }
    case OpPut(path, key, value) =>
      KeyAnswers(store, Spell(path), key, value, true);
    case OpDelete(path, key) =>
      KeyAnswers(store, Spell(path), key, [], true);
    case OpDeleteTop(name) =>
      DeleteTopAnswers(store, t, name);
  }

  /** What DeleteTopLevelBucket answers, and when that is what nested maps would. */
  lemma DeleteTopAnswers(store: Store, t: Tree, name: Bytes)
    requires Coherent(store, t)
    ensures DeleteTop(store, name).1 == TreeAnswer(t, OpDeleteTop(name)) <==> Alone(t, [name])
  {
    SpellSingle(name);
    if [name] in t {
      PresentIsStored(store, t, [name]);
      assert Lodged(t, [name]);
    } else if Alone(t, [name]) {
      AbsentIsAbsent(store, t, [name]);
    } else {
      var q :| q in t && Spell(q) == name;
      PresentIsStored(store, t, q);
      SpellIsNotEmpty(t, q);
    }
  }

  /** In terms of what is spelled like the name, a top-level bucket or not: creating finds or makes a bucket and
      deleting takes one, while a value of that spelling is in the way of both. */
  lemma TopAnswers(store: Store, t: Tree, name: Bytes)
    requires Coherent(store, t)
    ensures CreateTop(store, name)
         == if name == [] || (Spelled(t, name) && !HasBucket(t, name)) then (store, Err(Invalid))
            else if HasBucket(t, name) then (store, Ok(name))
            else (store[name := BucketItem(|name|)], Ok(name))
    ensures DeleteTop(store, name).1
         == if name == [] || (Spelled(t, name) && !HasBucket(t, name)) then Err(Invalid)
            else if HasBucket(t, name) then Ok(()) else Err(NotExist)
    ensures DeleteTop(store, name).1.Err? ==> DeleteTop(store, name).0 == store
  {
    OpenRefines(store, t, name);
    if q :| q in t && Spell(q) == name {
      PresentIsStored(store, t, q);
    }
    assert name in store ==> Spelled(t, name);
  }

  /** The same of nested buckets. */
  lemma NestedAnswers(store: Store, t: Tree, path: Path, key: Bytes, errorIfExists: bool)
    requires Coherent(store, t) && LegalKey(key)
    ensures var k := Spell(path) + key;
            CreateNested(store, Spell(path), key, errorIfExists)
            == if !Spelled(t, k) then (store[k := BucketItem(|Spell(path)|)], Ok(k))
               else if !HasBucket(t, k) then (store, Err(Invalid))
               else (store, if errorIfExists then Err(Exist) else Ok(k))
  {
    var k := Spell(path) + key;
    OpenRefines(store, t, k);
    if q :| q in t && Spell(q) == k {
      PresentIsStored(store, t, q);
    }
    assert k in store ==> Spelled(t, k);
  }

  lemma SpellIsNotEmpty(t: Tree, q: Path)
    requires WellFormed(t) && q in t
    ensures Spell(q) != []
  {
    assert Lodged(t, q);
    assert Spell(q) == Spell(Parent(q)) + Name(q);
  }

  lemma {:induction false} SafePrefix(ops: seq<Op>, n: nat)
    requires SafeRun(ops) && n <= |ops|
    ensures SafeRun(ops[..n]) && (n < |ops| ==> Safe(TreeRun(ops[..n]), ops[n]))
  {
    if n == |ops| {
      assert ops[..n] == ops;
    } else {
      assert ops[..|ops| - 1][..n] == ops[..n];
      SafePrefix(ops[..|ops| - 1], n);
    }
  }

  /** So over any safe run each operation in turn answers as on nested maps. */
  lemma RunStepAnswers(ops: seq<Op>, n: nat)
    requires SafeRun(ops) && n < |ops|
    ensures FlatAnswer(FlatRun(ops[..n]), ops[n]) == TreeAnswer(TreeRun(ops[..n]), ops[n])
       <==> (ops[n].OpDeleteTop? ==> Alone(TreeRun(ops[..n]), [ops[n].name]))
  {
    SafePrefix(ops, n);
    RunRefines(ops[..n]);
    StepAnswers(FlatRun(ops[..n]), TreeRun(ops[..n]), ops[n]);
  }

  // ---------------------------------------------------------------- ownership over any run

  /** The tag of whatever the operation writes holds the whole length of the owner. */
  predicate Short(op: Op) {
    match op
    case OpCreateTop(name) => |name| <= 255
    case OpCreate(path, _, _) => |Spell(path)| <= 255
    case OpPut(path, _, _) => |Spell(path)| <= 255
    case _ => true
  }

  /** The operation writes the flat key `k` through the bucket whose prefix is `prefix`. */
  predicate Writes(op: Op, prefix: Bytes, k: Bytes) {
    && (op.OpCreate? || op.OpPut?) && LegalKey(op.key)
    && Spell(op.path) == prefix && prefix + op.key == k
  }

  /** One operation, guarded or not: an entry keeps its owner, or is written now and gets its writer's. */
  lemma StepOwner(store: Store, op: Op, k: Bytes)
    requires Tagged(store) && Short(op) && k in FlatStep(store, op)
    ensures var owner := Owner(FlatStep(store, op), k);
            || (k in store && owner == Owner(store, k))
            || (op == OpCreateTop(k) && owner == k)
            || Writes(op, owner, k)
  {
    hide Spell, Tagged, Owner, CreateTop, CreateNested, Put, Delete, DeleteTop;
    match op
    case OpCreateTop(name) =>
      CreateTopOwner(store, name, k);
    case OpCreate(path, key, errorIfExists) =>
      CreateKeepsTags(store, Spell(path), key, errorIfExists);
      CreateOwner(store, Spell(path), key, errorIfExists, k);
    case OpPut(path, key, value) =>
      PutKeepsTags(store, Spell(path), key, value);
      PutOwner(store, Spell(path), key, value, k);
    case OpDelete(path, key) =>
      DeleteOwner(store, Spell(path), key, k);
    case OpDeleteTop(name) =>
      DeleteOwner(store, [], name, k);
  }

  lemma CreateTopOwner(store: Store, name: Bytes, k: Bytes)
    requires Tagged(store) && Tagged(CreateTop(store, name).0) && |name| <= 255 && k in CreateTop(store, name).0
    ensures var owner := Owner(CreateTop(store, name).0, k);
            (k in store && owner == Owner(store, k)) || (k == name && owner == k)
  {
    ShortLengthIsExact(|name|);
  }

  lemma CreateOwner(store: Store, prefix: Bytes, key: Bytes, errorIfExists: bool, k: Bytes)
    requires Tagged(store) && Tagged(CreateNested(store, prefix, key, errorIfExists).0) && |prefix| <= 255
    requires k in CreateNested(store, prefix, key, errorIfExists).0
    ensures var owner := Owner(CreateNested(store, prefix, key, errorIfExists).0, k);
            (k in store && owner == Owner(store, k)) || (LegalKey(key) && prefix + key == k && owner == prefix)
  {
    ShortLengthIsExact(|prefix|);
  }

  lemma PutOwner(store: Store, prefix: Bytes, key: Bytes, value: Bytes, k: Bytes)
    requires Tagged(store) && Tagged(Put(store, prefix, key, value).0) && |prefix| <= 255
    requires k in Put(store, prefix, key, value).0
    ensures var owner := Owner(Put(store, prefix, key, value).0, k);
            (k in store && owner == Owner(store, k)) || (LegalKey(key) && prefix + key == k && owner == prefix)
  {
    ShortLengthIsExact(|prefix|);
  }

  lemma DeleteOwner(store: Store, prefix: Bytes, key: Bytes, k: Bytes)
    requires Tagged(store)
    ensures Tagged(Delete(store, prefix, key).0) && Tagged(DeleteTop(store, key).0)
    ensures k in Delete(store, prefix, key).0 ==>
              k in store && Owner(Delete(store, prefix, key).0, k) == Owner(store, k)
    ensures k in DeleteTop(store, key).0 ==> k in store && Owner(DeleteTop(store, key).0, k) == Owner(store, k)
  {
    DeleteKeepsTags(store, prefix, key);
  }

  /** Over any run with short prefixes, guarded or not, every entry is a top-level marker or owned by a bucket
      through which it was written. */
  lemma {:induction false} OwnerWrote(ops: seq<Op>, k: Bytes)
    requires (forall op :: op in ops ==> Short(op)) && k in FlatRun(ops)
    ensures var owner := Owner(FlatRun(ops), k);
            (owner == k && OpCreateTop(k) in ops) || (exists op :: op in ops && Writes(op, owner, k))
  {
    hide FlatStep, Owner, Writes;
    if ops != [] {
      var before, last := ops[..|ops| - 1], ops[|ops| - 1];
      StepOwner(FlatRun(before), last, k);
      if k in FlatRun(before) && Owner(FlatRun(ops), k) == Owner(FlatRun(before), k) {
        OwnerWrote(before, k);
      }
    }
  }

  /** After any such run every entry that was not created as a top-level bucket is reported by the walk over
      exactly one prefix, that of a bucket through which it was written. */
  lemma RunPartition(ops: seq<Op>, k: Bytes, prefix: Bytes)
    requires (forall op :: op in ops ==> Short(op)) && k in FlatRun(ops) && OpCreateTop(k) !in ops
    ensures var store := FlatRun(ops);
            && (exists op :: op in ops && Writes(op, Owner(store, k), k))
            && ((exists pair :: pair in Listing(store, prefix) && prefix + pair.key == k)
                <==> prefix == Owner(store, k))
  {
    hide Listing;
    OwnerWrote(ops, k);
    OwnershipPartition(FlatRun(ops), k, prefix);
  }

  // ---------------------------------------------------------------- plain runs

  /** Keeping bucket names free of sibling prefixes is enough to make a creation or a Put safe. */
  lemma PrefixFreeIsAlone(t: Tree, p: Path, n: Node)
    requires WellFormed(t[p := n]) && PrefixFree(t[p := n])
    ensures Alone(t, p)
  {
    PrefixFreeIsUnambiguous(t[p := n]);
    forall q | q in t && Spell(q) == Spell(p)
      ensures q == p
    {
      assert q in t[p := n];
    }
  }

  /** The path an operation names, and what it would put there. */
  function Target(op: Op): (Path, Node)
    requires !op.OpDeleteTop?
  {
    match op
    case OpCreateTop(name) => ([name], Dir)
    case OpCreate(path, key, _) => (path + [key], Dir)
    case OpPut(path, key, value) => (path + [key], Leaf(value))
    case OpDelete(path, key) => (path + [key], Leaf([]))
  }

  /** The operation works on an existing bucket with a short prefix, Put and Delete do not name a sub-bucket,
      and the name keeps the tree free of names that begin a sibling's. */
  ghost predicate Plain(t: Tree, op: Op) {
    match op
    case OpCreateTop(name) => |name| <= 255 && name != [] && PrefixFree(t[[name] := Dir])
    case OpDeleteTop(_) => Safe(t, op)
    case _ =>
      var (p, n) := Target(op);
      && Usable(t, op.path) && LegalKey(op.key) && PrefixFree(t[p := n])
      && (n.Leaf? && p in t ==> t[p].Leaf?)
  }

  ghost predicate PlainRun(ops: seq<Op>) {
    ops == [] || (PlainRun(ops[..|ops| - 1]) && Plain(TreeRun(ops[..|ops| - 1]), ops[|ops| - 1]))
  }

  lemma PlainIsSafe(t: Tree, op: Op)
    requires WellFormed(t) && Plain(t, op)
    ensures Safe(t, op)
  {
    if !op.OpDeleteTop? {
      var (p, n) := Target(op);
      if !op.OpCreateTop? {
        assert Parent(p) == op.path && Name(p) == op.key;
        assert Lodged(t, op.path);
      }
      InsertIsWellFormed(t, p, n);
      PrefixFreeIsAlone(t, p, n);
    }
  }

  /** Over any run of such operations the store stays the flat form of the tree. */
  lemma {:induction false} PlainRunRefines(ops: seq<Op>)
    requires PlainRun(ops)
    ensures SafeRun(ops) && Coherent(FlatRun(ops), TreeRun(ops)) && Bounded(TreeRun(ops))
  {
    if ops != [] {
      PlainRunRefines(ops[..|ops| - 1]);
      PlainIsSafe(TreeRun(ops[..|ops| - 1]), ops[|ops| - 1]);
    }
    RunRefines(ops);
  }

  /** After a safe run, walks in any bucket answer as the nested maps do, and so does a lookup exactly when
      nothing else is spelled like the key. */
  lemma RunAnswers(ops: seq<Op>, path: Path, key: Bytes)
    requires SafeRun(ops) && path in TreeRun(ops) && LegalKey(key)
    ensures var store, t := FlatRun(ops), TreeRun(ops);
            && (Get(store, Spell(path), key) == TreeGet(t, path + [key]) <==> Alone(t, path + [key]))
            && (forall pair :: pair in Listing(store, Spell(path)) <==>
                  (path + [pair.key] in t && pair.value == NodeValue(t[path + [pair.key]])))
  {
    RunRefines(ops);
    GetRefines(FlatRun(ops), TreeRun(ops), path, key);
    ForEachRefines(FlatRun(ops), TreeRun(ops), path);
  }

  /** After a run of plain operations, so do lookups of every key that is there or would keep the tree free of
      names that begin a sibling's. */
  lemma PlainRunAnswers(ops: seq<Op>, path: Path, key: Bytes)
    requires PlainRun(ops) && path in TreeRun(ops) && TreeRun(ops)[path].Dir? && LegalKey(key)
    requires path + [key] in TreeRun(ops) || PrefixFree(TreeRun(ops)[path + [key] := Leaf([])])
    ensures Get(FlatRun(ops), Spell(path), key) == TreeGet(TreeRun(ops), path + [key])
    ensures OpenNested(FlatRun(ops), Spell(path), key).Some?
       <==> path + [key] in TreeRun(ops) && TreeRun(ops)[path + [key]].Dir?
    ensures forall pair :: pair in Listing(FlatRun(ops), Spell(path)) <==>
              (path + [pair.key] in TreeRun(ops) && pair.value == NodeValue(TreeRun(ops)[path + [pair.key]]))
  {
    var t, p := TreeRun(ops), path + [key];
    PlainRunRefines(ops);
    if p !in t {
      assert Lodged(t, path) && Parent(p) == path && Name(p) == key;
      InsertIsWellFormed(t, p, Leaf([]));
      PrefixFreeIsAlone(t, p, Leaf([]));
    }
    RunAnswers(ops, path, key);
    OpenNestedRefines(FlatRun(ops), t, path, key);
  }

  // ---------------------------------------------------------------- where the guards fail

  lemma LastPutWins(store: Store, prefix: Bytes, key: Bytes, value: Bytes, prefix': Bytes, key': Bytes)
    requires Tagged(store) && LegalKey(key) && LegalKey(key') && prefix + key == prefix' + key'
    ensures Tagged(Put(store, prefix, key, value).0)
    ensures Get(Put(store, prefix, key, value).0, prefix', key') == Some(value)
  {
    PutKeepsTags(store, prefix, key, value);
  }

  /** Key "bc" of bucket "a" and key "c" of its sub-bucket "b" are one flat key: the second Put replaces
      the first. */
  lemma CollisionLosesValue(a: Byte, b: Byte, c: Byte, first: Bytes, second: Bytes)
    ensures var s0 := CreateNested(CreateTop(map[], [a]).0, [a], [b], true).0;
            var s1 := Put(s0, [a, b], [c], first).0;
            var s2 := Put(s1, [a], [b, c], second).0;
            Tagged(s2) && Get(s2, [a, b], [c]) == Some(second)
  {
    CreateKeepsTags(map[], [], [a], true);
    CreateKeepsTags(CreateTop(map[], [a]).0, [a], [b], true);
    hide Tagged, Put, Get, CreateTop, CreateNested;
    var s0 := CreateNested(CreateTop(map[], [a]).0, [a], [b], true).0;
    PutKeepsTags(s0, [a, b], [c], first);
    assert [a] + [b, c] == [a, b] + [c];
    LastPutWins(Put(s0, [a, b], [c], first).0, [a], [b, c], second, [a, b], [c]);
  }

  lemma PutIsOwned(store: Store, prefix: Bytes, key: Bytes, value: Bytes)
    requires Tagged(store) && LegalKey(key) && |prefix| <= 255
    ensures Tagged(Put(store, prefix, key, value).0)
    ensures Owns(Put(store, prefix, key, value).0, prefix, prefix + key)
  {
    PutKeepsTags(store, prefix, key, value);
    ShortLengthIsExact(|prefix|);
    assert (prefix + key)[..|prefix|] == prefix;
  }

  lemma DeleteTopSpares(store: Store, name: Bytes, prefix: Bytes, key: Bytes)
    requires Tagged(store) && Owns(store, prefix, prefix + key) && prefix + key != name && prefix != name
    ensures Tagged(DeleteTop(store, name).0)
    ensures Get(DeleteTop(store, name).0, prefix, key) == Get(store, prefix, key)
  {
    DeleteKeepsTags(store, [], name);
  }

  /** A value inside a sub-bucket survives the deletion of its top-level bucket. */
  lemma DeleteTopOrphans(a: Byte, b: Byte, c: Byte, value: Bytes)
    ensures var s0 := CreateNested(CreateTop(map[], [a]).0, [a], [b], true).0;
            var s1 := Put(s0, [a, b], [c], value).0;
            Tagged(s1) && Tagged(DeleteTop(s1, [a]).0)
            && Get(DeleteTop(s1, [a]).0, [a, b], [c]) == Some(value)
  {
    CreateKeepsTags(map[], [], [a], true);
    CreateKeepsTags(CreateTop(map[], [a]).0, [a], [b], true);
    hide Tagged, Put, Get, Owns, CreateTop, CreateNested, DeleteTop;
    var s0 := CreateNested(CreateTop(map[], [a]).0, [a], [b], true).0;
    PutIsOwned(s0, [a, b], [c], value);
    LastPutWins(s0, [a, b], [c], value, [a, b], [c]);
    DeleteTopSpares(Put(s0, [a, b], [c], value).0, [a], [a, b], [c]);
  }

  /** A bucket whose prefix has more than 255 bytes lists nothing at all: no tag can name it. */
  lemma LongPrefixListsNothing(store: Store, prefix: Bytes)
    requires Tagged(store) && |prefix| > 255
    ensures Listing(store, prefix) == []
  {
    var listing := Listing(store, prefix);
    assert listing == [] || listing[0] in listing;
    ListingIsExact(store, prefix);
  }

  /** In a top-level bucket with a name of 256 bytes a value that has just been put can be read but is not
      listed. */
  lemma LongNameHidesValue(name: Bytes, key: Bytes, value: Bytes)
    requires |name| == 256 && LegalKey(key)
    ensures var store := FlatRun([OpCreateTop(name), OpPut([name], key, value)]);
            Get(store, name, key) == Some(value) && Listing(store, name) == []
  {
    var create, put := OpCreateTop(name), OpPut([name], key, value);
    assert [create, put][..1] == [create] && [create][..0] == [];
    SpellSingle(name);
    hide Listing, Tagged;
    LongPrefixListsNothing(FlatRun([create, put]), name);
    PutKeepsTags(FlatRun([create]), name, key, value);
    LastPutWins(FlatRun([create]), name, key, value, name, key);
  }

  /** Deleting top-level bucket "ab", which does not exist, takes sub-bucket "b" of bucket "a". */
  lemma DeleteTopTakesNested(a: Byte, b: Byte)
    ensures var s0 := CreateNested(CreateTop(map[], [a]).0, [a], [b], true).0;
            && Tagged(s0) && OpenNested(s0, [a], [b]).Some?
            && DeleteTop(s0, [a, b]).1.Ok? && OpenNested(DeleteTop(s0, [a, b]).0, [a], [b]) == None
  {
    CreateKeepsTags(map[], [], [a], true);
    CreateKeepsTags(CreateTop(map[], [a]).0, [a], [b], true);
    assert [a] + [b] == [a, b];
  }
}
