/** The transaction, bucket and cursor objects of libwallet/badgerdb over a flat store. */
module Buckets {
  import opened ByteStrings
  import opened FlatStore
  import opened Wrappers

  /** A badger transaction: the entries it sees, with its own writes. */
  class Txn {
    var store: Store

    constructor ()
      ensures store == map[]
    {
      store := map[];
    }

    method SetEntry(key: Bytes, item: Item)
      modifies this
      ensures store == old(store)[key := item]
    {
      store := store[key := item];
    }

    method DeleteKey(key: Bytes)
      modifies this
      ensures store == old(store) - {key}
    {
      store := store - {key};
    }
  }

  /** A badger iterator: the entries at the time it was opened, in key order. */
  class StoreIterator {
    const snapshot: Store
    const keys: seq<Bytes>
    var pos: nat

    ghost predicate Valid()
      reads this
    {
      pos <= |keys| && Tagged(snapshot) && forall i :: 0 <= i < |keys| ==> keys[i] in snapshot
    }

    constructor (store: Store)
      requires Tagged(store)
      ensures Valid() && snapshot == store && keys == SortedKeys(store.Keys) && pos == 0
    {
      snapshot := store;
      keys := SortedKeys(store.Keys);
      pos := 0;
    }

    /** Moves to the first key that is not below `key`. */
    method Seek(key: Bytes)
      requires Valid()
      modifies this
      ensures Valid() && pos == LowerBound(keys, key, 0)
    {
      pos := 0;
      while pos < |keys| && Less(keys[pos], key)
        invariant Valid() && LowerBound(keys, key, pos) == LowerBound(keys, key, 0)
      {
        pos := pos + 1;
      }
    }

    method Next()
      requires Valid() && pos < |keys|
      modifies this
      ensures Valid() && pos == old(pos) + 1
    {
      pos := pos + 1;
    }

    predicate ValidForPrefix(prefix: Bytes)
      reads this
    {
      pos < |keys| && HasPrefix(keys[pos], prefix)
    }
  }

  // ---------------------------------------------------------------- where a bucket's entries lie

  /** The index of the first key from `i` on that is not below `key`. */
  function LowerBound(ks: seq<Bytes>, key: Bytes, i: nat): (lo: nat)
    requires i <= |ks|
    ensures i <= lo <= |ks|
    decreases |ks| - i
  {
    if i < |ks| && Less(ks[i], key) then LowerBound(ks, key, i + 1) else i
  }

  lemma {:induction false} LowerBoundSplits(ks: seq<Bytes>, key: Bytes, i: nat)
    requires Ascending(ks) && i <= |ks| && forall j :: 0 <= j < i ==> Less(ks[j], key)
    ensures var lo := LowerBound(ks, key, i);
            && (forall j :: 0 <= j < lo ==> Less(ks[j], key))
            && (forall j :: lo <= j < |ks| ==> !Less(ks[j], key))
    decreases |ks| - i
  {
    if i < |ks| {
      if Less(ks[i], key) {
        LowerBoundSplits(ks, key, i + 1);
      } else {
        forall j | i <= j < |ks|
          ensures !Less(ks[j], key)
        {
          if i < j && Less(ks[j], key) {
            LessTransitive(ks[i], ks[j], key);
          }
        }
      }
    }
  }

  lemma {:induction false} ListUpToSkips(store: Store, prefix: Bytes, ks: seq<Bytes>, lo: nat, hi: nat)
    requires Tagged(store) && lo <= hi <= |ks|
    requires forall i :: lo <= i < hi ==> !Listed(store, prefix, ks[i])
    ensures ListUpTo(store, prefix, ks, hi) == ListUpTo(store, prefix, ks, lo)
    decreases hi - lo
  {
    if lo < hi {
      ListUpToSkips(store, prefix, ks, lo, hi - 1);
    }
  }

  /** Keys below the prefix belong to other buckets. */
  lemma NothingListedBefore(store: Store, prefix: Bytes, ks: seq<Bytes>)
    requires Tagged(store) && Ascending(ks)
    ensures forall i :: 0 <= i < LowerBound(ks, prefix, 0) ==> !HasPrefix(ks[i], prefix)
    ensures ListUpTo(store, prefix, ks, LowerBound(ks, prefix, 0)) == []
  {
    LowerBoundSplits(ks, prefix, 0);
    forall i | 0 <= i < LowerBound(ks, prefix, 0)
      ensures !HasPrefix(ks[i], prefix)
    {
      if HasPrefix(ks[i], prefix) {
        PrefixComesFirst(prefix, ks[i]);
      }
    }
    ListUpToSkips(store, prefix, ks, 0, LowerBound(ks, prefix, 0));
  }

  /** Once the walk meets a key without the prefix, nothing further belongs to the bucket. */
  lemma NothingListedBeyond(store: Store, prefix: Bytes, ks: seq<Bytes>, pos: nat)
    requires Tagged(store) && Ascending(ks) && LowerBound(ks, prefix, 0) <= pos <= |ks|
    requires pos < |ks| ==> !HasPrefix(ks[pos], prefix)
    ensures forall i :: pos <= i < |ks| ==> !HasPrefix(ks[i], prefix)
    ensures ListUpTo(store, prefix, ks, |ks|) == ListUpTo(store, prefix, ks, pos)
  {
    LowerBoundSplits(ks, prefix, 0);
    forall i | pos <= i < |ks|
      ensures !HasPrefix(ks[i], prefix)
    {
      if HasPrefix(ks[i], prefix) {
        PrefixIsInterval(prefix, ks[pos], ks[i]);
        LessIrreflexive(ks[i]);
        if pos < i {
          LessTransitive(ks[i], ks[pos], ks[i]);
        }
      }
    }
    ListUpToSkips(store, prefix, ks, pos, |ks|);
  }

  class Transaction {
    const badgerTx: Txn
    var buckets: seq<Bucket>

    constructor (txn: Txn)
      ensures badgerTx == txn && buckets == []
    {
      badgerTx := txn;
      buckets := [];
    }

    method ReadWriteBucket(key: Bytes) returns (bucket: Bucket?)
      modifies this
      ensures bucket != null <==> OpenTop(badgerTx.store, key).Some?
      ensures bucket != null ==> bucket.prefix == key && bucket.txn == badgerTx && bucket.dbTransaction == this
      ensures buckets == if bucket != null then old(buckets) + [bucket] else old(buckets)
    {
      if key !in badgerTx.store || badgerTx.store[key].meta != META_BUCKET {
        return null;
      }
      bucket := new Bucket(key, badgerTx, this);
      buckets := buckets + [bucket];
    }

    method CreateTopLevelBucket(key: Bytes) returns (bucket: Bucket?, error: Option<Error>)
      modifies this, badgerTx
      ensures badgerTx.store == CreateTop(old(badgerTx.store), key).0
      ensures match CreateTop(old(badgerTx.store), key).1
              case Ok(prefix) => error == None && bucket != null && bucket.prefix == prefix
                                 && bucket.txn == badgerTx && buckets == old(buckets) + [bucket]
              case Err(e) => error == Some(e) && bucket == null && buckets == old(buckets)
    {
      if key == [] {
        return null, Some(Invalid);
      }
      if key !in badgerTx.store {
        badgerTx.SetEntry(key, Item(META_BUCKET, InsertPrefixLength([], |key|)));
      } else if badgerTx.store[key].meta != META_BUCKET {
        return null, Some(Invalid);
      }
      bucket := new Bucket(key, badgerTx, this);
      buckets := buckets + [bucket];
      error := None;
    }

    /** Deletes the marker and, walking a snapshot taken afterwards, the entries the bucket owns; then
        forgets the first handle of the bucket. */
    method DeleteTopLevelBucket(key: Bytes) returns (error: Option<Error>)
      requires Tagged(badgerTx.store)
      modifies this, badgerTx
      ensures badgerTx.store == DeleteTop(old(badgerTx.store), key).0
      ensures error == match DeleteTop(old(badgerTx.store), key).1 case Ok(_) => None case Err(e) => Some(e)
      ensures error != None ==> buckets == old(buckets)
      ensures error == None ==> ForgetsFirst(old(buckets), key, buckets)
    {
      if key == [] {
        return Some(Invalid);
      }
      if key !in badgerTx.store {
        return Some(NotExist);
      }
      if badgerTx.store[key].meta != META_BUCKET {
        return Some(Invalid);
      }
      DeleteEntries(key);
      var i := 0;
      while i < |buckets|
        invariant i <= |buckets|
        invariant buckets == old(buckets) && forall j :: 0 <= j < i ==> buckets[j].prefix != key
      {
        if buckets[i].prefix == key {
          buckets := buckets[..i] + buckets[i + 1..];
          break;
        }
        i := i + 1;
      }
      error := None;
    }

    /** Deletes the marker, then what a walk over the remaining entries finds to be owned. */
    method DeleteEntries(key: Bytes)
      requires Tagged(badgerTx.store) && key in badgerTx.store
      requires key != [] && badgerTx.store[key].meta == META_BUCKET
      modifies badgerTx
      ensures badgerTx.store == DeleteTop(old(badgerTx.store), key).0
    {
      ghost var before := badgerTx.store;
      badgerTx.DeleteKey(key);
      var it := new StoreIterator(badgerTx.store);
      NothingOwnedBefore(badgerTx.store, key, it.keys);
      DeleteOwned(key, it);
      WithoutAll(it.snapshot, key, it.keys, it.pos);
      WithoutIsDeleteTop(before, key, it.keys);
    }

    method DeleteOwned(key: Bytes, it: StoreIterator)
      requires it.Valid() && it.snapshot == badgerTx.store
      requires Without(it.snapshot, key, it.keys[..LowerBound(it.keys, key, 0)]) == it.snapshot
      modifies badgerTx, it
      ensures LowerBound(it.keys, key, 0) <= it.pos <= |it.keys|
      ensures it.pos < |it.keys| ==> !HasPrefix(it.keys[it.pos], key)
      ensures badgerTx.store == Without(it.snapshot, key, it.keys[..it.pos])
    {
      it.Seek(key);
      while it.ValidForPrefix(key)
        invariant it.Valid() && LowerBound(it.keys, key, 0) <= it.pos
        invariant badgerTx.store == Without(it.snapshot, key, it.keys[..it.pos])
        decreases |it.keys| - it.pos
      {
        var k := it.keys[it.pos];
        var item := it.snapshot[k];
        var prefixLength := item.value[0] as int;
        WithoutStep(it.snapshot, key, it.keys, it.pos);
        if k[..prefixLength] == key {
          badgerTx.DeleteKey(k);
        }
        it.Next();
      }
    }
  }

  /** The entries left when those of `key` among `ks` have been deleted. */
  ghost function Without(store: Store, key: Bytes, ks: seq<Bytes>): Store
    requires Tagged(store)
  {
    map k | k in store && !(k in ks && Owns(store, key, k)) :: store[k]
  }

  lemma NothingOwnedBefore(store: Store, key: Bytes, ks: seq<Bytes>)
    requires Tagged(store) && Ascending(ks)
    ensures Without(store, key, ks[..LowerBound(ks, key, 0)]) == store
  {
    NothingListedBefore(store, key, ks);
  }

  lemma WithoutStep(store: Store, key: Bytes, ks: seq<Bytes>, pos: nat)
    requires Tagged(store) && pos < |ks| && ks[pos] in store
    ensures Without(store, key, ks[..pos + 1])
         == if Owns(store, key, ks[pos]) then Without(store, key, ks[..pos]) - {ks[pos]}
            else Without(store, key, ks[..pos])
  {
    assert ks[..pos + 1] == ks[..pos] + [ks[pos]];
  }

  lemma WithoutAll(store: Store, key: Bytes, ks: seq<Bytes>, pos: nat)
    requires Tagged(store) && Ascending(ks) && LowerBound(ks, key, 0) <= pos <= |ks|
    requires pos < |ks| ==> !HasPrefix(ks[pos], key)
    ensures Without(store, key, ks[..pos]) == Without(store, key, ks)
  {
    NothingListedBeyond(store, key, ks, pos);
    assert ks == ks[..pos] + ks[pos..];
  }

  lemma WithoutIsDeleteTop(store: Store, key: Bytes, ks: seq<Bytes>)
    requires Tagged(store) && key in store && key != [] && store[key].meta == META_BUCKET
    requires forall k :: k in store && k != key ==> k in ks
    ensures Tagged(store - {key}) && Without(store - {key}, key, ks) == DeleteTop(store, key).0
  {
  }

  /** `after` is `before` without the first handle of bucket `key`. */
  ghost predicate ForgetsFirst(before: seq<Bucket>, key: Bytes, after: seq<Bucket>) {
    if exists j :: 0 <= j < |before| && before[j].prefix == key then
      exists i :: && 0 <= i < |before| && before[i].prefix == key
                  && (forall j :: 0 <= j < i ==> before[j].prefix != key)
                  && after == before[..i] + before[i + 1..]
    else
      after == before
  }

  class Bucket {
    const prefix: Bytes
    const txn: Txn
    const dbTransaction: Transaction

    constructor (prefix: Bytes, txn: Txn, dbTransaction: Transaction)
      ensures this.prefix == prefix && this.txn == txn && this.dbTransaction == dbTransaction
    {
      this.prefix, this.txn, this.dbTransaction := prefix, txn, dbTransaction;
    }

    /** CreateBucket and CreateBucketIfNotExists, by `errorIfExists`. */
    method CreateBucket(key: Bytes, errorIfExists: bool) returns (bucket: Bucket?, error: Option<Error>)
      modifies txn
      ensures txn.store == CreateNested(old(txn.store), prefix, key, errorIfExists).0
      ensures match CreateNested(old(txn.store), prefix, key, errorIfExists).1
              case Ok(p) => error == None && bucket != null && bucket.prefix == p && bucket.txn == txn
              case Err(e) => error == Some(e) && bucket == null
    {
      if |key| == 0 {
        return null, Some(Invalid);
      }
      if |key| > MAX_KEY_SIZE {
        return null, Some(Invalid);
      }
      var k := prefix + key;
      if k !in txn.store {
        txn.SetEntry(k, Item(META_BUCKET, InsertPrefixLength([], |prefix|)));
        bucket := new Bucket(k, txn, dbTransaction);
        return bucket, None;
      }
      if txn.store[k].meta == META_BUCKET {
        if errorIfExists {
          return null, Some(Exist);
        }
        bucket := new Bucket(k, txn, dbTransaction);
        return bucket, None;
      }
      return null, Some(Invalid);
    }

    method NestedReadWriteBucket(key: Bytes) returns (bucket: Bucket?)
      modifies dbTransaction
      ensures bucket != null <==> OpenNested(txn.store, prefix, key).Some?
      ensures bucket != null ==> bucket.prefix == prefix + key && bucket.txn == txn
      ensures dbTransaction.buckets
           == if bucket != null then old(dbTransaction.buckets) + [bucket] else old(dbTransaction.buckets)
    {
      if |key| > MAX_KEY_SIZE {
        return null;
      }
      var k := prefix + key;
      if k !in txn.store || txn.store[k].meta != META_BUCKET {
        return null;
      }
      bucket := new Bucket(k, txn, dbTransaction);
      dbTransaction.buckets := dbTransaction.buckets + [bucket];
    }

    method GetValue(key: Bytes) returns (value: Option<Bytes>)
      requires Tagged(txn.store)
      ensures value == Get(txn.store, prefix, key)
    {
      if |key| == 0 || |key| > MAX_KEY_SIZE {
        return None;
      }
      var k := prefix + key;
      if k !in txn.store {
        return None;
      }
      value := Some(txn.store[k].value[1..]);
    }

    method PutValue(key: Bytes, value: Bytes) returns (error: Option<Error>)
      modifies txn
      ensures txn.store == Put(old(txn.store), prefix, key, value).0
      ensures error == None <==> Put(old(txn.store), prefix, key, value).1.Ok?
      ensures error != None ==> error == Some(Invalid)
    {
      if |key| == 0 {
        return Some(Invalid);
      } else if |key| > MAX_KEY_SIZE {
        return Some(Invalid);
      }
      txn.SetEntry(prefix + key, Item(META_VALUE, InsertPrefixLength(value, |prefix|)));
      error := None;
    }

    method DeleteValue(key: Bytes) returns (error: Option<Error>)
      modifies txn
      ensures txn.store == Delete(old(txn.store), prefix, key).0
      ensures error == None <==> Delete(old(txn.store), prefix, key).1.Ok?
    {
      if |key| == 0 {
        return None;
      }
      if |key| > MAX_KEY_SIZE {
        return Some(Invalid);
      }
      txn.DeleteKey(prefix + key);
      error := None;
    }

    /** Calls `fn` on the pairs of the bucket until it fails; `visited` are the calls made. */
    method ForEach(fn: Pair -> bool) returns (visited: seq<Pair>, ok: bool)
      requires Tagged(txn.store)
      ensures visited <= Listing(txn.store, prefix)
      ensures ok ==> visited == Listing(txn.store, prefix)
      ensures CallsOf(fn, visited, ok)
    {
      var it := new StoreIterator(txn.store);
      NothingListedBefore(txn.store, prefix, it.keys);
      ghost var n;
      visited, ok, n := Walk(it, fn);
      ListUpToIsPrefix(txn.store, prefix, it.keys, n);
      if ok {
        NothingListedBeyond(txn.store, prefix, it.keys, n);
      }
    }

    /** The walk behind ForEach; it has reported what the bucket lists among the first `n` keys. */
    method Walk(it: StoreIterator, fn: Pair -> bool) returns (visited: seq<Pair>, ok: bool, ghost n: nat)
      requires it.Valid()
      requires ListUpTo(it.snapshot, prefix, it.keys, LowerBound(it.keys, prefix, 0)) == []
      modifies it
      ensures LowerBound(it.keys, prefix, 0) <= n <= |it.keys|
      ensures visited == ListUpTo(it.snapshot, prefix, it.keys, n)
      ensures ok && n < |it.keys| ==> !HasPrefix(it.keys[n], prefix)
      ensures CallsOf(fn, visited, ok)
    {
      hide ListUpTo, Report;
      visited, ok := [], true;
      it.Seek(prefix);
      while it.ValidForPrefix(prefix)
        invariant it.Valid() && ok && LowerBound(it.keys, prefix, 0) <= it.pos
        invariant visited == ListUpTo(it.snapshot, prefix, it.keys, it.pos)
        invariant CallsOf(fn, visited, ok)
        decreases |it.keys| - it.pos
      {
        WalkStep(it.snapshot, prefix, it.keys, it.pos);
        n := it.pos + 1;
        visited, ok := Visit(it.keys[it.pos], it.snapshot[it.keys[it.pos]], fn, visited);
        if !ok {
          return;
        }
        it.Next();
      }
      n := it.pos;
    }

    /** One step of the walk: skips the marker and what other buckets own. */
    method Visit(k: Bytes, item: Item, fn: Pair -> bool, before: seq<Pair>) returns (visited: seq<Pair>, ok: bool)
      requires item.value != [] && item.value[0] as int <= |k|
      requires CallsOf(fn, before, true)
      ensures visited == before + Report(prefix, k, item)
      ensures CallsOf(fn, visited, ok)
    {
      if k == prefix {
        return before, true;
      }
      var prefixLength := item.value[0] as int;
      if k[..prefixLength] == prefix {
        var pair := Pair(k[prefixLength..], if item.meta == META_BUCKET then None else Some(item.value[1..]));
        return before + [pair], fn(pair);
      }
      return before, true;
    }
  }

  /** `visited` are calls of `fn` of which at most the last fails, and that one exactly if not `ok`. */
  ghost predicate CallsOf(fn: Pair -> bool, visited: seq<Pair>, ok: bool) {
    && (!ok ==> visited != [])
    && (forall n :: 0 <= n < |visited| ==> (fn(visited[n]) <==> ok || n < |visited| - 1))
  }

  /** The pair, if any, that a walk reports for one entry. */
  function Report(prefix: Bytes, k: Bytes, item: Item): seq<Pair>
    requires item.value != [] && item.value[0] as int <= |k|
  {
    var tag := item.value[0] as int;
    if k != prefix && k[..tag] == prefix then [Pair(k[tag..], ReportedValue(item))] else []
  }

  /** The comparison the walks make is ownership. */
  lemma WalkStep(store: Store, prefix: Bytes, ks: seq<Bytes>, n: nat)
    requires Tagged(store) && n < |ks| && ks[n] in store
    ensures store[ks[n]].value != [] && store[ks[n]].value[0] as int <= |ks[n]|
    ensures ListUpTo(store, prefix, ks, n + 1)
         == ListUpTo(store, prefix, ks, n) + Report(prefix, ks[n], store[ks[n]])
  {
  }

  lemma {:induction false} ListUpToIsPrefix(store: Store, prefix: Bytes, ks: seq<Bytes>, n: nat)
    requires Tagged(store) && n <= |ks|
    ensures ListUpTo(store, prefix, ks, n) <= ListUpTo(store, prefix, ks, |ks|)
    decreases |ks| - n
  {
    if n < |ks| {
      ListUpToIsPrefix(store, prefix, ks, n + 1);
    }
  }
}
