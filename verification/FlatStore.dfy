/** The flat key/value store behind the buckets of libwallet/badgerdb: what each bucket operation does
    to it, and what a walk over one bucket lists. */
module FlatStore {
  import opened ByteStrings
  import opened Wrappers

  datatype Error = Invalid | Exist | NotExist

  /** A stored entry: badger's user meta byte and the value, whose first byte is the owner tag. */
  datatype Item = Item(meta: Byte, value: Bytes)

  type Store = map<Bytes, Item>

  const META_BUCKET: Byte := 5
  const META_VALUE: Byte := 0
  const MAX_KEY_SIZE: nat := 65378

  function InsertPrefixLength(value: Bytes, length: nat): Bytes {
    [LengthByte(length)] + value
  }

  function BucketItem(owner: nat): Item {
    Item(META_BUCKET, InsertPrefixLength([], owner))
  }

  function ValueItem(owner: nat, value: Bytes): Item {
    Item(META_VALUE, InsertPrefixLength(value, owner))
  }

  // ---------------------------------------------------------------- operations on one key

  function CreateTop(store: Store, key: Bytes): (Store, Result<Bytes, Error>) {
    if key == [] then (store, Err(Invalid))
    else if key !in store then (store[key := BucketItem(|key|)], Ok(key))
    else if store[key].meta != META_BUCKET then (store, Err(Invalid))
    else (store, Ok(key))
  }

  function OpenTop(store: Store, key: Bytes): Option<Bytes> {
    if key in store && store[key].meta == META_BUCKET then Some(key) else None
  }

  function CreateNested(store: Store, prefix: Bytes, key: Bytes, errorIfExists: bool): (Store, Result<Bytes, Error>) {
    if key == [] || |key| > MAX_KEY_SIZE then (store, Err(Invalid))
    else if prefix + key !in store then (store[prefix + key := BucketItem(|prefix|)], Ok(prefix + key))
    else if store[prefix + key].meta != META_BUCKET then (store, Err(Invalid))
    else if errorIfExists then (store, Err(Exist))
    else (store, Ok(prefix + key))
  }

  function OpenNested(store: Store, prefix: Bytes, key: Bytes): Option<Bytes> {
    if |key| <= MAX_KEY_SIZE then OpenTop(store, prefix + key) else None
  }

  function Get(store: Store, prefix: Bytes, key: Bytes): Option<Bytes>
    requires Tagged(store)
  {
    if key == [] || |key| > MAX_KEY_SIZE || prefix + key !in store then None
    else Some(store[prefix + key].value[1..])
  }

  function Put(store: Store, prefix: Bytes, key: Bytes, value: Bytes): (Store, Result<(), Error>) {
    if key == [] || |key| > MAX_KEY_SIZE then (store, Err(Invalid))
    else (store[prefix + key := ValueItem(|prefix|, value)], Ok(()))
  }

  function Delete(store: Store, prefix: Bytes, key: Bytes): (Store, Result<(), Error>) {
    if key == [] then (store, Ok(()))
    else if |key| > MAX_KEY_SIZE then (store, Err(Invalid))
    else (store - {prefix + key}, Ok(()))
  }

  /** The marker of a bucket and every entry whose tag names it as the owner. */
  function DeleteTop(store: Store, key: Bytes): (Store, Result<(), Error>)
    requires Tagged(store)
  {
    if key == [] then (store, Err(Invalid))
    else if key !in store then (store, Err(NotExist))
    else if store[key].meta != META_BUCKET then (store, Err(Invalid))
    else (map k | k in store && k != key && !Owns(store, key, k) :: store[k], Ok(()))
  }

  // ---------------------------------------------------------------- ownership

  /** Every value starts with a tag that is no longer than its key. */
  ghost predicate Tagged(store: Store) {
    forall k :: k in store ==> store[k].value != [] && store[k].value[0] as int <= |k|
  }

  /** The first bytes of the key, as many as the tag says. */
  function Owner(store: Store, k: Bytes): Bytes
    requires Tagged(store) && k in store
  {
    k[..store[k].value[0] as int]
  }

  predicate Owns(store: Store, prefix: Bytes, k: Bytes)
    requires Tagged(store)
  {
    k in store && Owner(store, k) == prefix
  }

  lemma InsertKeepsTags(store: Store, k: Bytes, item: Item)
    requires Tagged(store) && item.value != [] && item.value[0] as int <= |k|
    ensures Tagged(store[k := item])
  {
  }

  lemma CreateKeepsTags(store: Store, prefix: Bytes, key: Bytes, errorIfExists: bool)
    requires Tagged(store)
    ensures Tagged(CreateTop(store, key).0)
    ensures Tagged(CreateNested(store, prefix, key, errorIfExists).0)
  {
    InsertKeepsTags(store, key, BucketItem(|key|));
    InsertKeepsTags(store, prefix + key, BucketItem(|prefix|));
  }

  lemma PutKeepsTags(store: Store, prefix: Bytes, key: Bytes, value: Bytes)
    requires Tagged(store)
    ensures Tagged(Put(store, prefix, key, value).0)
  {
    InsertKeepsTags(store, prefix + key, ValueItem(|prefix|, value));
  }

  lemma DeleteKeepsTags(store: Store, prefix: Bytes, key: Bytes)
    requires Tagged(store)
    ensures Tagged(Delete(store, prefix, key).0)
    ensures Tagged(DeleteTop(store, key).0)
  {
  }

  // ---------------------------------------------------------------- listing a bucket

  /** What a walk reports: the key without the bucket's prefix, and no value for a sub-bucket. */
  datatype Pair = Pair(key: Bytes, value: Option<Bytes>)

  predicate Listed(store: Store, prefix: Bytes, k: Bytes)
    requires Tagged(store)
  {
    k != prefix && Owns(store, prefix, k)
  }

  function ReportedValue(item: Item): Option<Bytes>
    requires item.value != []
  {
    if item.meta == META_BUCKET then None else Some(item.value[1..])
  }

  function PairAt(store: Store, prefix: Bytes, k: Bytes): Pair
    requires Tagged(store) && Owns(store, prefix, k)
  {
    Pair(k[|prefix|..], ReportedValue(store[k]))
  }

  /** The pairs of a bucket among the first `n` keys of `ks`, in their order. */
  function ListUpTo(store: Store, prefix: Bytes, ks: seq<Bytes>, n: nat): seq<Pair>
    requires Tagged(store) && n <= |ks|
  {
    if n == 0 then
      []
    else
      ListUpTo(store, prefix, ks, n - 1)
      + (if Listed(store, prefix, ks[n - 1]) then [PairAt(store, prefix, ks[n - 1])] else [])
  }

  function Listing(store: Store, prefix: Bytes): seq<Pair>
    requires Tagged(store)
  {
    var ks := SortedKeys(store.Keys);
    ListUpTo(store, prefix, ks, |ks|)
  }

  /** Exactly the listed keys are reported, each with its own value. */
  lemma {:induction false} ListUpToHas(store: Store, prefix: Bytes, ks: seq<Bytes>, n: nat, pair: Pair)
    requires Tagged(store) && n <= |ks|
    ensures pair in ListUpTo(store, prefix, ks, n) <==>
              (var k := prefix + pair.key; k in ks[..n] && Listed(store, prefix, k) && pair == PairAt(store, prefix, k))
  {
    if n > 0 {
      var k, last := prefix + pair.key, ks[n - 1];
      ListUpToHas(store, prefix, ks, n - 1, pair);
      assert ks[..n] == ks[..n - 1] + [last];
      if Listed(store, prefix, last) && pair == PairAt(store, prefix, last) {
        assert last == Owner(store, last) + last[|prefix|..];
        assert k == last;
      }
    }
  }

  ghost predicate PairsAscend(l: seq<Pair>) {
    forall i, j :: 0 <= i < j < |l| ==> Less(l[i].key, l[j].key)
  }

  lemma {:induction false} ListUpToAscends(store: Store, prefix: Bytes, ks: seq<Bytes>, n: nat)
    requires Tagged(store) && Ascending(ks) && n <= |ks|
    ensures PairsAscend(ListUpTo(store, prefix, ks, n))
  {
    if n > 0 {
      hide PairsAscend, Listed;
      var before, last := ListUpTo(store, prefix, ks, n - 1), ks[n - 1];
      ListUpToAscends(store, prefix, ks, n - 1);
      if Listed(store, prefix, last) {
        forall i | 0 <= i < |before|
          ensures Less(before[i].key, last[|prefix|..])
        {
          ListedBefore(store, prefix, ks, n - 1, i);
        }
        AscendOn(before, PairAt(store, prefix, last));
      }
      return;
    }
  }

  /** What is reported from before a listed key comes before it. */
  lemma ListedBefore(store: Store, prefix: Bytes, ks: seq<Bytes>, n: nat, i: nat)
    requires Tagged(store) && Ascending(ks) && n < |ks| && Listed(store, prefix, ks[n])
    requires i < |ListUpTo(store, prefix, ks, n)|
    ensures Less(ListUpTo(store, prefix, ks, n)[i].key, ks[n][|prefix|..])
  {
    hide ListUpTo;
    var pair, last := ListUpTo(store, prefix, ks, n)[i], ks[n];
    ListUpToHas(store, prefix, ks, n, pair);
    var m :| 0 <= m < n && ks[m] == prefix + pair.key;
    assert last == prefix + last[|prefix|..];
    LessAfterPrefix(prefix, pair.key, last[|prefix|..]);
  }

  lemma AscendOn(l: seq<Pair>, next: Pair)
    requires PairsAscend(l) && forall i :: 0 <= i < |l| ==> Less(l[i].key, next.key)
    ensures PairsAscend(l + [next])
  {
  }

  /** A walk lists, in ascending order of local keys, exactly the entries whose tag names the bucket. */
  lemma ListingIsExact(store: Store, prefix: Bytes)
    requires Tagged(store)
    ensures PairsAscend(Listing(store, prefix))
    ensures forall pair :: pair in Listing(store, prefix) <==>
              (var k := prefix + pair.key; Listed(store, prefix, k) && pair == PairAt(store, prefix, k))
  {
    var ks := SortedKeys(store.Keys);
    assert ks[..|ks|] == ks;
    ListUpToAscends(store, prefix, ks, |ks|);
    forall pair
      ensures pair in Listing(store, prefix) <==>
                (var k := prefix + pair.key; Listed(store, prefix, k) && pair == PairAt(store, prefix, k))
    {
      ListUpToHas(store, prefix, ks, |ks|, pair);
    }
  }

  /** Ownership partitions the entries: an entry is reported by the walk over exactly one prefix, the
      one its tag names, unless its tag covers the whole key. */
  lemma OwnershipPartition(store: Store, k: Bytes, prefix: Bytes)
    requires Tagged(store) && k in store && Owner(store, k) != k
    ensures (exists pair :: pair in Listing(store, prefix) && prefix + pair.key == k) <==> prefix == Owner(store, k)
  {
    ListingIsExact(store, prefix);
    if prefix == Owner(store, k) {
      var pair := PairAt(store, prefix, k);
      assert prefix + pair.key == k;
      assert pair in Listing(store, prefix);
    }
  }

  /** A top-level marker is reported by no walk at all. */
  lemma TopLevelIsUnlisted(store: Store, k: Bytes, prefix: Bytes)
    requires Tagged(store) && k in store && Owner(store, k) == k
    ensures forall pair :: pair in Listing(store, prefix) ==> prefix + pair.key != k
  {
    ListingIsExact(store, prefix);
  }

  /** The byte that holds the owner's length decides: a fresh entry is reported by the bucket it was put
      into exactly when the bucket's prefix is shorter than 256 bytes. */
  lemma PutIsListed(store: Store, prefix: Bytes, key: Bytes, value: Bytes)
    requires Tagged(store) && 0 < |key| <= MAX_KEY_SIZE
    ensures Tagged(Put(store, prefix, key, value).0)
    ensures Pair(key, Some(value)) in Listing(Put(store, prefix, key, value).0, prefix) <==> |prefix| <= 255
  {
    hide Listing, Put, Listed, PairAt, Tagged;
    var store' := Put(store, prefix, key, value).0;
    PutKeepsTags(store, prefix, key, value);
    PutAt(store, prefix, key, value);
    ListingIsExact(store', prefix);
  }

  /** Whatever the length, the walk that reports the entry is that over the first bytes of the prefix, as many as the
      byte can count: past 255 bytes another bucket lists it, under a longer key. */
  lemma PutIsListedBy(store: Store, prefix: Bytes, key: Bytes, value: Bytes, lister: Bytes)
    requires Tagged(store) && 0 < |key| <= MAX_KEY_SIZE
    ensures Tagged(Put(store, prefix, key, value).0)
    ensures (exists pair :: pair in Listing(Put(store, prefix, key, value).0, lister)
                            && lister + pair.key == prefix + key)
       <==> lister == prefix[..|prefix| % 256]
  {
    var store', k := Put(store, prefix, key, value).0, prefix + key;
    PutKeepsTags(store, prefix, key, value);
    assert store'[k].value[0] as int == |prefix| % 256;
    assert k[..|prefix| % 256] == prefix[..|prefix| % 256];
    hide Listing, Put, Tagged;
    OwnershipPartition(store', k, lister);
  }

  /** What a walk makes of the key that a Put has written. */
  lemma PutAt(store: Store, prefix: Bytes, key: Bytes, value: Bytes)
    requires 0 < |key| <= MAX_KEY_SIZE && Tagged(Put(store, prefix, key, value).0)
    ensures var store', k := Put(store, prefix, key, value).0, prefix + key;
            && (Listed(store', prefix, k) <==> |prefix| <= 255)
            && (Listed(store', prefix, k) ==> PairAt(store', prefix, k) == Pair(key, Some(value)))
  {
    var store', k := Put(store, prefix, key, value).0, prefix + key;
    assert store'[k] == ValueItem(|prefix|, value);
    assert store'[k].value[0] as int == |prefix| % 256 && store'[k].value[1..] == value;
    assert k[..|prefix|] == prefix && k[|prefix|..] == key;
    assert 255 < |prefix| ==> |Owner(store', k)| < |prefix|;
  }

  /** Deleting a top-level bucket removes its marker and exactly the entries its walk would report. */
  lemma DeleteTopRemovesOwned(store: Store, key: Bytes)
    requires Tagged(store) && key in store && key != [] && store[key].meta == META_BUCKET
    ensures forall k :: k in DeleteTop(store, key).0 <==> k in store && k != key && !Listed(store, key, k)
    ensures forall k :: k in DeleteTop(store, key).0 ==> DeleteTop(store, key).0[k] == store[k]
    ensures Tagged(DeleteTop(store, key).0) && Listing(DeleteTop(store, key).0, key) == []
  {
    var store' := DeleteTop(store, key).0;
    assert Listing(store', key) == [] || Listing(store', key)[0] in Listing(store', key);
    ListingIsExact(store', key);
  }
}
