// The ordered key/value database below the file system: one atomic map whose
// reads and writes may fail at any time (rust/src/chunk_store.rs).
module KvStore {
  import opened Bytes

  type Kv = map<bytes, bytes>

  datatype Change = Put(value: bytes) | Delete

  // A write batch keeps one change per key.
  type Batch = map<bytes, Change>

  function Lookup(kv: Kv, key: bytes): Option<bytes> {
    if key in kv then Some(kv[key]) else None
  }

  function Outcome(before: Option<bytes>, change: Change): Option<bytes> {
    match change
    case Put(value) => Some(value)
    case Delete => None
  }

  function Apply(kv: Kv, batch: Batch): (r: Kv)
    ensures forall k :: Lookup(r, k) == if k in batch then Outcome(Lookup(kv, k), batch[k]) else Lookup(kv, k)
  {
    map k | k in kv.Keys + batch.Keys && (k in batch ==> batch[k].Put?)
      :: if k in batch then batch[k].value else kv[k]
  }

  // A batch written again, as by a retry, changes nothing more.
  lemma ApplyTwice(kv: Kv, batch: Batch)
    ensures Apply(Apply(kv, batch), batch) == Apply(kv, batch)
  {
    var once, twice := Apply(kv, batch), Apply(Apply(kv, batch), batch);
    forall k ensures Lookup(twice, k) == Lookup(once, k) {
    }
    assert forall k :: k in once <==> Lookup(once, k).Some?;
    assert forall k :: k in twice <==> Lookup(twice, k).Some?;
  }

  // -------------------------------------------------------------------------
  // Scans

  function RangeKeys(kv: Kv, first: bytes, last: bytes): set<bytes> {
    set k | k in kv && LexLe(first, k) && LexLe(k, last)
  }

  function PrefixKeys(kv: Kv, prefix: bytes): set<bytes> {
    set k | k in kv && StartsWith(k, prefix)
  }

  ghost predicate HasKey(pairs: seq<(bytes, bytes)>, k: bytes) {
    exists i :: 0 <= i < |pairs| && pairs[i].0 == k
  }

  // The pairs of `kv` under `keys`, each once, in ascending key order.
  ghost predicate IsScan(kv: Kv, keys: set<bytes>, pairs: seq<(bytes, bytes)>) {
    && (forall i :: 0 <= i < |pairs| ==> pairs[i].0 in keys && Lookup(kv, pairs[i].0) == Some(pairs[i].1))
    && (forall i, j :: 0 <= i < j < |pairs| ==> pairs[i].0 != pairs[j].0 && LexLe(pairs[i].0, pairs[j].0))
    && (forall k :: k in keys ==> HasKey(pairs, k))
  }

  lemma HasKeySnoc(pairs: seq<(bytes, bytes)>, pair: (bytes, bytes), k: bytes)
    ensures HasKey(pairs + [pair], k) <==> HasKey(pairs, k) || pair.0 == k
  {
    var longer := pairs + [pair];
    assert longer[|pairs|] == pair;
    forall i | 0 <= i < |pairs| ensures longer[i] == pairs[i] {}
  }

  method Collect(kv: Kv, keys: set<bytes>) returns (r: Result<seq<(bytes, bytes)>>)
    requires keys <= kv.Keys
    ensures r.Failure? ==> r.error == StoreFault
    ensures r.Success? ==> IsScan(kv, keys, r.value)
  {
    hide LexLe, HasKey;
    var pairs: seq<(bytes, bytes)> := [];
    var rest := keys;
    while rest != {}
      invariant rest <= keys
      invariant forall i :: 0 <= i < |pairs| ==> pairs[i].0 in keys - rest && Lookup(kv, pairs[i].0) == Some(pairs[i].1)
      invariant forall i, j :: 0 <= i < j < |pairs| ==> pairs[i].0 != pairs[j].0 && LexLe(pairs[i].0, pairs[j].0)
      invariant forall k :: k in keys && k !in rest ==> HasKey(pairs, k)
      invariant forall i, k :: 0 <= i < |pairs| && k in rest ==> LexLe(pairs[i].0, k)
      decreases rest
    {
      if * { return Failure(StoreFault); }
      ghost var least := LeastExists(rest);
      var k :| k in rest && forall k' :: k' in rest ==> LexLe(k, k');
      ghost var before := pairs;
      pairs := pairs + [(k, kv[k])];
      rest := rest - {k};
      forall k' ensures HasKey(pairs, k') <==> HasKey(before, k') || k' == k { HasKeySnoc(before, (k, kv[k]), k'); }
    }
    return Success(pairs);
  }

  // -------------------------------------------------------------------------
  // The database

  class Store {
    var kv: Kv

    // How many calls on the store have failed. Nothing but the calls below
    // counts, so an operation that leaves it alone met no fault.
    ghost var faults: nat

    // What is known to have been flushed.
    ghost var flushed: Kv

    constructor (contents: Kv)
      ensures kv == contents
    {
      kv, faults, flushed := contents, 0, contents;
    }

    // Any call may fail.
    method Fails() returns (failed: bool)
      modifies this`faults
      ensures faults == old(faults) + if failed then 1 else 0
    {
      if * {
        faults := faults + 1;
        return true;
      }
      return false;
    }

    method Get(key: bytes) returns (r: Result<Option<bytes>>)
      modifies this`faults
      ensures faults == old(faults) + if r.Failure? then 1 else 0
      ensures r.Failure? ==> r.error == StoreFault
      ensures r.Success? ==> r.value == Lookup(kv, key)
    {
      var failed := Fails();
      if failed { return Failure(StoreFault); }
      return Success(Lookup(kv, key));
    }

    method ScanInclusive(first: bytes, last: bytes) returns (r: Result<seq<(bytes, bytes)>>)
      modifies this`faults
      ensures faults == old(faults) + if r.Failure? then 1 else 0
      ensures r.Failure? ==> r.error == StoreFault
      ensures r.Success? ==> IsScan(kv, RangeKeys(kv, first, last), r.value)
    {
      r := Collect(kv, RangeKeys(kv, first, last));
      if r.Failure? { faults := faults + 1; }
    }

    method ScanPrefix(prefix: bytes) returns (r: Result<seq<(bytes, bytes)>>)
      modifies this`faults
      ensures faults == old(faults) + if r.Failure? then 1 else 0
      ensures r.Failure? ==> r.error == StoreFault
      ensures r.Success? ==> IsScan(kv, PrefixKeys(kv, prefix), r.value)
    {
      r := Collect(kv, PrefixKeys(kv, prefix));
      if r.Failure? { faults := faults + 1; }
    }

    method KeysWithPrefix(prefix: bytes) returns (r: Result<seq<bytes>>)
      modifies this`faults
      ensures faults == old(faults) + if r.Failure? then 1 else 0
      ensures r.Failure? ==> r.error == StoreFault
      ensures r.Success? ==> forall k :: k in r.value <==> k in PrefixKeys(kv, prefix)
      ensures r.Success? ==>
        forall i, j :: 0 <= i < j < |r.value| ==> r.value[i] != r.value[j] && LexLe(r.value[i], r.value[j])
    {
      var scanned := ScanPrefix(prefix);
      if scanned.Failure? { return Failure(scanned.error); }
      var pairs, keys: seq<bytes> := scanned.value, [];
      for n := 0 to |pairs|
        invariant |keys| == n
        invariant forall i :: 0 <= i < n ==> keys[i] == pairs[i].0
      {
        keys := keys + [pairs[n].0];
      }
      forall k | k in PrefixKeys(kv, prefix) ensures k in keys {
        assert HasKey(pairs, k);
        var i :| 0 <= i < |pairs| && pairs[i].0 == k;
        assert keys[i] == k;
      }
      return Success(keys);
    }

    // A batch reaches the database whole or not at all; an error does not say
    // which.
    method Write(batch: Batch) returns (ok: bool)
      modifies this
      ensures faults == old(faults) + if ok then 0 else 1
      ensures ok ==> kv == Apply(old(kv), batch)
      ensures !ok ==> kv == old(kv) || kv == Apply(old(kv), batch)
      ensures flushed == old(flushed)
    {
      var failed := Fails();
      if failed { return false; }
      kv := Apply(kv, batch);
      failed := Fails();
      return !failed;
    }

    method Flush() returns (ok: bool)
      modifies this`faults, this`flushed
      ensures faults == old(faults) + if ok then 0 else 1
      ensures flushed == if ok then kv else old(flushed)
    {
      var failed := Fails();
      if failed { return false; }
      flushed := kv;
      return true;
    }

    method Begin() returns (r: Result<Transaction>)
      modifies this`faults
      ensures faults == old(faults) + if r.Failure? then 1 else 0
      ensures r.Failure? ==> r.error == StoreFault
      ensures r.Success? ==> fresh(r.value) && r.value.store == this && r.value.snapshot == kv && r.value.writes == map[]
    {
      var failed := Fails();
      if failed { return Failure(StoreFault); }
      var transaction := new Transaction(this);
      return Success(transaction);
    }
  }

  // -------------------------------------------------------------------------
  // Serializable transactions: reads see the snapshot under the transaction's
  // own writes.

  class Transaction {
    const store: Store
    const snapshot: Kv
    var writes: Batch

    constructor (store: Store)
      ensures this.store == store && snapshot == store.kv && writes == map[]
    {
      this.store := store;
      snapshot := store.kv;
      writes := map[];
    }

    ghost function View(): Kv
      reads this
    {
      Apply(snapshot, writes)
    }

    method Get(key: bytes) returns (r: Result<Option<bytes>>)
      modifies store`faults
      ensures store.faults == old(store.faults) + if r.Failure? then 1 else 0
      ensures r.Failure? ==> r.error == StoreFault
      ensures r.Success? ==> r.value == Lookup(View(), key)
    {
      var failed := store.Fails();
      if failed { return Failure(StoreFault); }
      return Success(Lookup(Apply(snapshot, writes), key));
    }

    method ScanPrefix(prefix: bytes) returns (r: Result<seq<(bytes, bytes)>>)
      modifies store`faults
      ensures store.faults == old(store.faults) + if r.Failure? then 1 else 0
      ensures r.Failure? ==> r.error == StoreFault
      ensures r.Success? ==> IsScan(View(), PrefixKeys(View(), prefix), r.value)
    {
      var view := Apply(snapshot, writes);
      r := Collect(view, PrefixKeys(view, prefix));
      if r.Failure? { store.faults := store.faults + 1; }
    }

    method PutKey(key: bytes, value: bytes)
      modifies this
      ensures writes == old(writes)[key := Put(value)]
    {
      writes := writes[key := Put(value)];
    }

    method DeleteKey(key: bytes)
      modifies this
      ensures writes == old(writes)[key := Delete]
    {
      writes := writes[key := Delete];
    }

    method Commit() returns (ok: bool)
      requires store.kv == snapshot
      modifies store
      ensures store.faults == old(store.faults) + if ok then 0 else 1
      ensures ok ==> store.kv == View()
      ensures !ok ==> store.kv == old(store.kv) || store.kv == View()
    {
      ok := store.Write(writes);
    }
  }
}
