/** The in-memory storage engine, its transactions, and the codec through which the stores use it. */
module Persistence {
  import opened Prelude

  type Bytes = string

  /** JSON, as far as the stores depend on it. */
  datatype Codec<!E> = Codec(enc: E -> Bytes, dec: Bytes -> Option<E>)

  ghost predicate Inverse<E(!new)>(codec: Codec<E>) {
    forall e: E :: codec.dec(codec.enc(e)) == Some(e)
  }

  datatype Record = Record(data: Bytes, expiresAt: int)

  class MemoryEngine {
    var kvData: map<string, Bytes>
    var svcData: map<string, Record>

    constructor ()
      ensures kvData == map[] && svcData == map[]
    {
      kvData, svcData := map[], map[];
    }

    method Get(key: string) returns (value: Option<Bytes>)
      ensures value == if key in kvData then Some(kvData[key]) else None
    {
      if key in kvData {
        return Some(kvData[key]);
      }
      return None;
    }

    method Set(key: string, value: Bytes)
      modifies this`kvData
      ensures kvData == old(kvData)[key := value]
    {
      kvData := kvData[key := value];
    }

    method Delete(key: string)
      modifies this`kvData
      ensures kvData == old(kvData) - {key}
    {
      kvData := kvData - {key};
    }

    /** Go's range order over `items` does not matter: the items have different keys. */
    method BatchSet(items: map<string, Bytes>)
      modifies this`kvData
      ensures kvData == old(kvData) + items
    {
      var rest := items.Keys;
      while rest != {}
        invariant rest <= items.Keys
        invariant kvData == old(kvData) + map k | k in items && k !in rest :: items[k]
        decreases rest
      {
        var key :| key in rest;
        kvData := kvData[key := items[key]];
        rest := rest - {key};
      }
      assert items == map k | k in items && k !in rest :: items[k];
    }

    method BatchDelete(keys: seq<string>)
      modifies this`kvData
      ensures kvData == old(kvData) - set k | k in keys
    {
      assert kvData - (set k | k in keys[..0]) == kvData;
      for i := 0 to |keys|
        invariant kvData == old(kvData) - set k | k in keys[..i]
      {
        assert keys[..i + 1] == keys[..i] + [keys[i]];
        kvData := kvData - {keys[i]};
      }
      assert keys[..|keys|] == keys;
    }

    method GetService(name: string, now: int) returns (data: Option<Bytes>)
      ensures data == if name in svcData && now < svcData[name].expiresAt then Some(svcData[name].data) else None
    {
      if name in svcData && now < svcData[name].expiresAt {
        return Some(svcData[name].data);
      }
      return None;
    }

    method SetService(name: string, data: Bytes, ttl: int, now: int)
      modifies this`svcData
      ensures svcData == old(svcData)[name := Record(data, now + ttl)]
    {
      svcData := svcData[name := Record(data, now + ttl)];
    }

    method DeleteService(name: string)
      modifies this`svcData
      ensures svcData == old(svcData) - {name}
    {
      svcData := svcData - {name};
    }
  }

  // ---- Transactions --------------------------------------------------------------------------------------------

  datatype TxOp = TxSet(key: string, value: Bytes) | TxDelete(key: string)

  /** Executing the operations one by one on the stored data. */
  function Executed(data: map<string, Bytes>, ops: seq<TxOp>): map<string, Bytes> {
    if |ops| == 0 then data
    else
      var before := Executed(data, ops[..|ops| - 1]);
      match ops[|ops| - 1]
      case TxSet(k, v) => before[k := v]
      case TxDelete(k) => before - {k}
  }

  /** The buffer of a transaction: the last operation per key, `None` for a deletion. */
  function Buffered(ops: seq<TxOp>): map<string, Option<Bytes>> {
    if |ops| == 0 then map[]
    else
      var before := Buffered(ops[..|ops| - 1]);
      match ops[|ops| - 1]
      case TxSet(k, v) => before[k := Some(v)]
      case TxDelete(k) => before[k := None]
  }

  function Committed(data: map<string, Bytes>, buffer: map<string, Option<Bytes>>): map<string, Bytes> {
    map k | k in data.Keys + buffer.Keys && (k in buffer ==> buffer[k].Some?) ::
      if k in buffer then buffer[k].value else data[k]
  }

  lemma BufferOneMore(data: map<string, Bytes>, buffer: map<string, Option<Bytes>>, k: string, v: Bytes)
    ensures Committed(data, buffer[k := Some(v)]) == Committed(data, buffer)[k := v]
    ensures Committed(data, buffer[k := None]) == Committed(data, buffer) - {k}
  {
  }

  /** Committing the buffer is the same as having executed the operations in order. */
  lemma {:induction false} CommitRefinesExecution(data: map<string, Bytes>, ops: seq<TxOp>)
    ensures Committed(data, Buffered(ops)) == Executed(data, ops)
  {
    if |ops| > 0 {
      var before, last := ops[..|ops| - 1], ops[|ops| - 1];
      CommitRefinesExecution(data, before);
      BufferOneMore(data, Buffered(before), last.key, if last.TxSet? then last.value else "");
    }
  }

  /** After a transaction a key has what its last operation gave it, and no value when that was a deletion. */
  lemma {:induction false} LastOperationWins(data: map<string, Bytes>, ops: seq<TxOp>, i: nat)
    requires i < |ops| && forall j :: i < j < |ops| ==> ops[j].key != ops[i].key
    ensures match ops[i]
            case TxSet(k, v) => k in Executed(data, ops) && Executed(data, ops)[k] == v
            case TxDelete(k) => k !in Executed(data, ops)
  {
    var n := |ops| - 1;
    if i < n {
      assert ops[n].key != ops[i].key;
      LastOperationWins(data, ops[..n], i);
    }
  }

  /** A key without operations keeps what it had. */
  lemma {:induction false} OtherKeysStay(data: map<string, Bytes>, ops: seq<TxOp>, key: string)
    requires forall i :: 0 <= i < |ops| ==> ops[i].key != key
    ensures key in Executed(data, ops) <==> key in data
    ensures key in data ==> Executed(data, ops)[key] == data[key]
  {
    if |ops| > 0 {
      OtherKeysStay(data, ops[..|ops| - 1], key);
    }
  }

  /** The commit loop, with `rest` of the buffered keys still to be visited. */
  ghost function CommittedOutside(data: map<string, Bytes>, buffer: map<string, Option<Bytes>>, rest: set<string>)
    : map<string, Bytes>
  {
    Committed(data, buffer - rest)
  }

  lemma CommitOneMore(data: map<string, Bytes>, buffer: map<string, Option<Bytes>>, rest: set<string>, key: string)
    requires key in rest && key in buffer
    ensures CommittedOutside(data, buffer, rest - {key}) ==
            if buffer[key].None? then CommittedOutside(data, buffer, rest) - {key}
            else CommittedOutside(data, buffer, rest)[key := buffer[key].value]
  {
  }

  class MemoryTx {
    const engine: MemoryEngine
    var operations: map<string, Option<Bytes>>
    ghost var log: seq<TxOp>

    ghost predicate Valid()
      reads this
    {
      operations == Buffered(log)
    }

    constructor (engine: MemoryEngine)
      ensures Valid() && log == [] && this.engine == engine
    {
      this.engine := engine;
      operations, log := map[], [];
    }

    method Set(key: string, value: Bytes)
      requires Valid()
      modifies this
      ensures Valid() && log == old(log) + [TxSet(key, value)]
    {
      operations := operations[key := Some(value)];
      log := log + [TxSet(key, value)];
    }

    method Delete(key: string)
      requires Valid()
      modifies this
      ensures Valid() && log == old(log) + [TxDelete(key)]
    {
      operations := operations[key := None];
      log := log + [TxDelete(key)];
    }

    method Commit()
      requires Valid()
      modifies engine`kvData
      ensures engine.kvData == Executed(old(engine.kvData), log)
    {
      ghost var before := engine.kvData;
      var rest := operations.Keys;
      assert operations - rest == map[];
      while rest != {}
        invariant rest <= operations.Keys
        invariant engine.kvData == CommittedOutside(before, operations, rest)
        decreases rest
      {
        var key :| key in rest;
        CommitOneMore(before, operations, rest, key);
        if operations[key].None? {
          engine.kvData := engine.kvData - {key};
        } else {
          engine.kvData := engine.kvData[key := operations[key].value];
        }
        rest := rest - {key};
      }
      assert operations - rest == operations;
      CommitRefinesExecution(before, log);
    }

    method Rollback()
      modifies this
      ensures Valid() && log == []
    {
      operations, log := map[], [];
    }
  }
}
