/** The key-value side of the C boundary: transaction-op conversion, the
    result shaping of Get, List, Txn2, Txn3 and CompareAndSwap over the store,
    and handle resolution through the object registry. Every store call's
    error is a parameter: it is what the remote call reported. */
module EtcdClient {
  import opened Wrappers
  import opened Codes
  import opened KvStore
  import opened ObjectRegistry

  /** The C enum OpType. */
  const OpPut: int := 1
  const OpDelete: int := 2

  /** The C struct Operation, its key and value already copied out. The tag is
      whatever integer the C caller put there. */
  datatype Operation = Operation(opType: int, key: string, value: string)

  predicate KnownOp(c: Operation)
  {
    c.opType == OpPut || c.opType == OpDelete
  }

  /** A put carries key and value; a delete carries only the key. */
  function Translate(c: Operation): Op
    requires KnownOp(c)
  {
    if c.opType == OpPut then Put(c.key, c.value) else Delete(c.key)
  }

  /** GenOpList: converts the operations in order and stops at the first
      unknown tag, reporting failure with the operations converted so far. */
  method GenOpList(cops: seq<Operation>) returns (res: seq<Op>, ok: bool)
    ensures ok <==> forall i :: 0 <= i < |cops| ==> KnownOp(cops[i])
    ensures ok ==> |res| == |cops|
    ensures !ok ==> |res| < |cops| && !KnownOp(cops[|res|])
    ensures forall i :: 0 <= i < |res| ==>
              i < |cops| && KnownOp(cops[i]) && res[i] == Translate(cops[i])
  {
    res := [];
    for i := 0 to |cops|
      invariant |res| == i
      invariant forall j :: 0 <= j < i ==> KnownOp(cops[j]) && res[j] == Translate(cops[j])
    {
      var op := cops[i];
      if op.opType == OpPut {
        res := res + [Put(op.key, op.value)];
      } else if op.opType == OpDelete {
        res := res + [Delete(op.key)];
      } else {
        return res, false;
      }
    }
    ok := true;
  }

  /** The (code, bytes, length) triple handed back across the boundary; no
      bytes is the C nil pointer. */
  datatype ValueReply = ValueReply(code: EtcdErrCode, value: Option<string>, length: nat)

  /** EtcdClientGet. A store call that fails never carries an OK status (the
      source would read the missing response otherwise). */
  method Get(store: Store, key: Key, err: Error) returns (r: ValueReply)
    requires err.Failure? ==> GetErrCode(err) != OK
    ensures err.Failure? ==> r == ValueReply(GetErrCode(err), None, 0)
    ensures err.Nil? && key !in store.kv ==> r == ValueReply(KeyNotExist, None, 0)
    ensures err.Nil? && key in store.kv ==>
              r == ValueReply(OK, Some(store.kv[key]), |store.kv[key]|)
  {
    var errCode := GetErrCode(err);
    if errCode != OK {
      return ValueReply(errCode, None, 0);
    }
    var kvs := store.PointRead(key);
    if |kvs| <= 0 {
      return ValueReply(KeyNotExist, None, 0);
    }
    r := ValueReply(errCode, Some(kvs[0].1), |kvs[0].1|);
  }

  /** EtcdClientPut: a single write, whose code is the call's. */
  method ClientPut(store: Store, key: Key, value: Value, err: Error) returns (code: EtcdErrCode)
    modifies store
    ensures code == GetErrCode(err)
    ensures store.kv == if err.Nil? then old(store.kv)[key := value] else old(store.kv)
  {
    ApplyAllOne(store.kv, Put(key, value));
    var _ := store.Commit(Always, [Put(key, value)], err);
    code := GetErrCode(err);
  }

  /** EtcdClientDelete: a single delete, whose code is the call's. */
  method ClientDelete(store: Store, key: Key, err: Error) returns (code: EtcdErrCode)
    modifies store
    ensures code == GetErrCode(err)
    ensures store.kv == if err.Nil? then old(store.kv) - {key} else old(store.kv)
  {
    ApplyAllOne(store.kv, Delete(key));
    var _ := store.Commit(Always, [Delete(key)], err);
    code := GetErrCode(err);
  }

  /** The range List asks for: an empty end key means "every key from start on". */
  function RangeFor(startKey: Key, endKey: Key): Selection
  {
    if endKey == "" then FromKey(startKey) else Interval(startKey, endKey)
  }

  /** EtcdClientList. `rangeRead` is the store's answer to a range read of
      each selection; List picks the selection from the end key, and on
      success registers the answer and returns its handle and length. */
  method List(store: Store, reg: Registry, startKey: Key, endKey: Key, err: Error,
              rangeRead: Selection -> seq<(Key, Value)>)
    returns (code: EtcdErrCode, oid: nat, count: int)
    requires reg.Valid()
    requires err.Failure? ==> GetErrCode(err) != OK
    requires err.Nil? ==> forall sel :: IsListing(store.kv, sel, rangeRead(sel))
    modifies reg
    ensures reg.Valid()
    ensures code == GetErrCode(err)
    ensures code != OK ==>
              oid == 0 && count == 0 && reg.objects == old(reg.objects) && reg.next == old(reg.next)
    ensures code == OK ==>
              && oid == old(reg.next) && oid !in old(reg.objects) && reg.next == old(reg.next) + 1
              && oid in reg.objects && reg.objects[oid].KVList?
              && reg.objects == old(reg.objects)[oid := reg.objects[oid]]
              && count == |reg.objects[oid].kvs|
              && IsListing(store.kv, RangeFor(startKey, endKey), reg.objects[oid].kvs)
    ensures code == OK ==>
              forall k :: k in store.kv ==>
                (HasKey(reg.objects[oid].kvs, k) <==>
                   !KeyLess(k, startKey) && (endKey == "" || KeyLess(k, endKey)))
  {
    code := GetErrCode(err);
    if code != OK {
      return code, 0, 0;
    }
    var kvs;
    if endKey == "" {
      // keys from startKey on
      kvs := rangeRead(FromKey(startKey));
    } else {
      // keys in [startKey, endKey)
      kvs := rangeRead(Interval(startKey, endKey));
    }
    oid := reg.Add(KVList(kvs));
    count := |kvs|;
  }

  /** EtcdClientTxn2: both operations in one unguarded transaction, or
      TxnUnkownOp without any store call. */
  method Txn2(store: Store, op1: Operation, op2: Operation, err: Error) returns (code: EtcdErrCode)
    modifies store
    ensures !(KnownOp(op1) && KnownOp(op2)) ==>
              code == TxnUnkownOp && store.kv == old(store.kv)
    ensures KnownOp(op1) && KnownOp(op2) ==>
              && code == GetErrCode(err)
              && store.kv == if err.Nil? then ApplyAll(old(store.kv), [Translate(op1), Translate(op2)])
                             else old(store.kv)
  {
    var ops := [op1, op2];
    assert ops[0] == op1 && ops[1] == op2;
    var etcdOps, ok := GenOpList(ops);
    if !ok {
      return TxnUnkownOp;
    }
    assert etcdOps == [Translate(op1), Translate(op2)];
    var _ := store.Commit(Always, etcdOps, err);
    code := GetErrCode(err);
  }

  /** EtcdClientTxn3: as Txn2 with three operations. */
  method Txn3(store: Store, op1: Operation, op2: Operation, op3: Operation, err: Error)
    returns (code: EtcdErrCode)
    modifies store
    ensures !(KnownOp(op1) && KnownOp(op2) && KnownOp(op3)) ==>
              code == TxnUnkownOp && store.kv == old(store.kv)
    ensures KnownOp(op1) && KnownOp(op2) && KnownOp(op3) ==>
              && code == GetErrCode(err)
              && store.kv == if err.Nil?
                             then ApplyAll(old(store.kv), [Translate(op1), Translate(op2), Translate(op3)])
                             else old(store.kv)
  {
    var ops := [op1, op2, op3];
    assert ops[0] == op1 && ops[1] == op2 && ops[2] == op3;
    var etcdOps, ok := GenOpList(ops);
    if !ok {
      return TxnUnkownOp;
    }
    assert etcdOps == [Translate(op1), Translate(op2), Translate(op3)];
    var _ := store.Commit(Always, etcdOps, err);
    code := GetErrCode(err);
  }

  /** The store after CompareAndSwap as written: "put target if the key is
      absent", then, separately, "put target if the value is prev"; `err1` and
      `err2` are what the two calls reported. */
  function CasAsWritten(kv: KV, key: Key, prev: Value, target: Value, err1: Error, err2: Error): (r: KV)
    ensures err1.Nil? && err2.Nil? ==>
              r == if key !in kv || kv[key] == prev then kv[key := target] else kv
    ensures err1.Failure? && err2.Nil? ==>
              r == if key in kv && kv[key] == prev then kv[key := target] else kv
    ensures err2.Failure? ==>
              r == if err1.Nil? && key !in kv then kv[key := target] else kv
  {
    var afterFirst := TxnEffect(kv, KeyAbsent(key), [Put(key, target)], err1);
    ApplyAllOne(kv, Put(key, target));
    ApplyAllOne(afterFirst, Put(key, target));
    TxnEffect(afterFirst, ValueIs(key, prev), [Put(key, target)], err2)
  }

  /** EtcdClientCompareAndSwap as written: the code is the second call's alone. */
  method CompareAndSwap(store: Store, key: Key, prev: Value, target: Value, err1: Error, err2: Error)
    returns (code: EtcdErrCode)
    modifies store
    ensures code == GetErrCode(err2)
    ensures store.kv == CasAsWritten(old(store.kv), key, prev, target, err1, err2)
  {
    var _ := store.Commit(KeyAbsent(key), [Put(key, target)], err1);
    var _ := store.Commit(ValueIs(key, prev), [Put(key, target)], err2);
    code := GetErrCode(err2);
  }

  /** Two inputs on which CompareAndSwap reports OK although the key does not
      hold `target` afterwards: a losing compare, and a failed first call. */
  lemma CasReportsOkWithoutSwap()
    ensures var kv := map["k" := "a"];
            GetErrCode(Nil) == OK && CasAsWritten(kv, "k", "b", "c", Nil, Nil) == kv && kv["k"] != "c"
    ensures var unavailable := Failure(None, Some(14), NoSentinel);
            CasAsWritten(map[], "k", "b", "c", unavailable, Nil) == map[]
  {
  }

  /** Compare-and-swap as one transaction whose code tells whether the swap
      happened: OK exactly when the key was absent or held `prev` and it now
      holds `target`; a losing compare is FailedPrecondition; a failed call
      passes its own code on. */
  method CompareAndSwapChecked(store: Store, key: Key, prev: Value, target: Value, err: Error)
    returns (code: EtcdErrCode)
    requires err.Failure? ==> GetErrCode(err) != OK
    modifies store
    ensures code == OK <==> err.Nil? && (key !in old(store.kv) || old(store.kv)[key] == prev)
    ensures code == OK ==> store.kv == old(store.kv)[key := target]
    ensures code != OK ==> store.kv == old(store.kv)
    ensures err.Failure? ==> code == GetErrCode(err)
    ensures err.Nil? && code != OK ==> code == FailedPrecondition
  {
    ApplyAllOne(store.kv, Put(key, target));
    var swapped := store.Commit(AbsentOrValueIs(key, prev), [Put(key, target)], err);
    if err.Failure? {
      code := GetErrCode(err);
    } else if swapped {
      code := OK;
    } else {
      code := FailedPrecondition;
    }
  }

  /** EtcdClientGetSingleObject: the first entry of a registered range result. */
  function GetSingleObject(reg: Registry, oid: nat): (r: ValueReply)
    reads reg
    requires oid in reg.objects && reg.objects[oid].KVList? ==> |reg.objects[oid].kvs| > 0
    ensures r.code == ObjectNotExist <==> oid !in reg.objects
    ensures r.code == ErrObjectType <==> oid in reg.objects && reg.objects[oid].ElectionH?
    ensures r.code == OK <==> oid in reg.objects && reg.objects[oid].KVList?
    ensures r.code == OK ==>
              r.value == Some(reg.objects[oid].kvs[0].1) && r.length == |reg.objects[oid].kvs[0].1|
    ensures r.code != OK ==> r.value == None && r.length == 0
  {
    match reg.Get(oid)
    case None => ValueReply(ObjectNotExist, None, 0)
    case Some(KVList(kvs)) => ValueReply(OK, Some(kvs[0].1), |kvs[0].1|)
    case Some(ElectionH(_)) => ValueReply(ErrObjectType, None, 0)
  }

  /** EtcdClientGetMultiObject: entry `serial` of a registered range result. */
  function GetMultiObject(reg: Registry, oid: nat, serial: int): (r: ValueReply)
    reads reg
    requires oid in reg.objects && reg.objects[oid].KVList? ==> 0 <= serial < |reg.objects[oid].kvs|
    ensures r.code == ObjectNotExist <==> oid !in reg.objects
    ensures r.code == ErrObjectType <==> oid in reg.objects && reg.objects[oid].ElectionH?
    ensures r.code == OK <==> oid in reg.objects && reg.objects[oid].KVList?
    ensures r.code == OK ==>
              r.value == Some(reg.objects[oid].kvs[serial].1)
              && r.length == |reg.objects[oid].kvs[serial].1|
    ensures r.code != OK ==> r.value == None && r.length == 0
  {
    match reg.Get(oid)
    case None => ValueReply(ObjectNotExist, None, 0)
    case Some(KVList(kvs)) => ValueReply(OK, Some(kvs[serial].1), |kvs[serial].1|)
    case Some(ElectionH(_)) => ValueReply(ErrObjectType, None, 0)
  }

  /** The single-object read is the multi-object read at index 0. */
  lemma SingleIsMultiAtZero(reg: Registry, oid: nat)
    requires oid in reg.objects && reg.objects[oid].KVList? ==> |reg.objects[oid].kvs| > 0
    ensures GetSingleObject(reg, oid) == GetMultiObject(reg, oid, 0)
  {
  }

  /** Every key a List handle covers can be read back through that handle,
      with the value the store held. */
  lemma ListedKeyReadBack(reg: Registry, oid: nat, kv: KV, sel: Selection, k: Key)
    requires oid in reg.objects && reg.objects[oid].KVList?
    requires IsListing(kv, sel, reg.objects[oid].kvs)
    requires k in kv && Selects(sel, k)
    ensures exists i :: 0 <= i < |reg.objects[oid].kvs| &&
              GetMultiObject(reg, oid, i) == ValueReply(OK, Some(kv[k]), |kv[k]|)
  {
    var kvs := reg.objects[oid].kvs;
    var i :| 0 <= i < |kvs| && kvs[i].0 == k;
    assert GetMultiObject(reg, oid, i) == ValueReply(OK, Some(kv[k]), |kv[k]|);
  }

  /** EtcdClientRemoveObject: hands the handle back to the registry. */
  method RemoveObject(reg: Registry, oid: nat)
    requires reg.Valid()
    modifies reg
    ensures reg.Valid()
    ensures reg.objects == old(reg.objects) - {oid} && reg.next == old(reg.next)
  {
    reg.Remove(oid);
  }

  /** GetLeaderElection: the election behind a handle; nothing both for an
      unknown handle and for a handle holding a range result. */
  function GetLeaderElection(reg: Registry, oid: nat): (r: Option<Election>)
    reads reg
    ensures r.Some? <==> oid in reg.objects && reg.objects[oid].ElectionH?
    ensures r.Some? ==> reg.objects[oid] == ElectionH(r.value)
  {
    match reg.Get(oid)
    case Some(ElectionH(e)) => Some(e)
    case _ => None
  }
}
