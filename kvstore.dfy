/** The etcd key-value store as this client sees it: a map from keys to
    values, byte-wise key order, transactions of puts and deletes behind an
    optional compare, and the contract a range read satisfies. */
module KvStore {
  import opened Codes

  type Key = string
  type Value = string
  type KV = map<Key, Value>

  /** One write of a transaction (clientv3.OpPut / clientv3.OpDelete on a single key). */
  datatype Op = Put(key: Key, value: Value) | Delete(key: Key)

  function Apply(kv: KV, op: Op): KV
  {
    match op
    case Put(k, v) => kv[k := v]
    case Delete(k) => kv - {k}
  }

  /** The writes of a transaction, applied in order. */
  function ApplyAll(kv: KV, ops: seq<Op>): KV
    decreases ops
  {
    if ops == [] then kv else ApplyAll(Apply(kv, ops[0]), ops[1..])
  }

  /** A one-write transaction is that write. */
  lemma ApplyAllOne(kv: KV, op: Op)
    ensures ApplyAll(kv, [op]) == Apply(kv, op)
  {
    assert [op][1..] == [];
  }

  /** Applying a concatenation is applying its parts one after the other. */
  lemma {:induction false} ApplyAllAppend(kv: KV, a: seq<Op>, b: seq<Op>)
    ensures ApplyAll(kv, a + b) == ApplyAll(ApplyAll(kv, a), b)
    decreases a
  {
    if a != [] {
      assert (a + b)[0] == a[0];
      assert (a + b)[1..] == a[1..] + b;
      ApplyAllAppend(Apply(kv, a[0]), a[1..], b);
    } else {
      assert a + b == b;
    }
  }

  /** A key no write names keeps its binding, or its absence. */
  lemma {:induction false} ApplyAllFrame(kv: KV, ops: seq<Op>, k: Key)
    requires forall i :: 0 <= i < |ops| ==> ops[i].key != k
    ensures k in ApplyAll(kv, ops) <==> k in kv
    ensures k in kv ==> ApplyAll(kv, ops)[k] == kv[k]
    decreases ops
  {
    if ops != [] {
      assert ops[0].key != k;
      ApplyAllFrame(Apply(kv, ops[0]), ops[1..], k);
    }
  }

  /** The compare a transaction is guarded by: none, "create revision = 0"
      (the key is absent), or "value = v" (which fails on an absent key). */
  datatype Guard =
    | Always
    | KeyAbsent(key: Key)
    | ValueIs(key: Key, value: Value)
    | AbsentOrValueIs(key: Key, value: Value)  // two exclusive branches of one transaction

  predicate Holds(g: Guard, kv: KV)
  {
    match g
    case Always => true
    case KeyAbsent(k) => k !in kv
    case ValueIs(k, v) => k in kv && kv[k] == v
    case AbsentOrValueIs(k, v) => k !in kv || kv[k] == v
  }

  /** The store after one transaction whose call reported `err`: the writes
      land when the call succeeded and the compare held, and not otherwise. */
  function TxnEffect(kv: KV, guard: Guard, ops: seq<Op>, err: Error): KV
  {
    if err.Nil? && Holds(guard, kv) then ApplyAll(kv, ops) else kv
  }

  /** Byte-wise lexicographic order on keys, the order etcd ranges use. */
  predicate KeyLess(a: Key, b: Key)
  {
    if a == [] then b != []
    else if b == [] then false
    else if a[0] != b[0] then a[0] < b[0]
    else KeyLess(a[1..], b[1..])
  }

  lemma {:induction false} KeyLessIrreflexive(a: Key)
    ensures !KeyLess(a, a)
  {
    if a != [] {
      KeyLessIrreflexive(a[1..]);
    }
  }

  lemma {:induction false} KeyLessAsymmetric(a: Key, b: Key)
    requires KeyLess(a, b)
    ensures !KeyLess(b, a)
  {
    if a != [] && b != [] && a[0] == b[0] {
      KeyLessAsymmetric(a[1..], b[1..]);
    }
  }

  /** Which keys a range read covers: all keys from `start` on, or `[start, end)`. */
  datatype Selection = FromKey(start: Key) | Interval(start: Key, end: Key)

  predicate Selects(sel: Selection, k: Key)
  {
    match sel
    case FromKey(s) => !KeyLess(k, s)
    case Interval(s, e) => !KeyLess(k, s) && KeyLess(k, e)
  }

  /** Whether some entry of `kvs` has key `k`. */
  predicate HasKey(kvs: seq<(Key, Value)>, k: Key)
  {
    exists i :: 0 <= i < |kvs| && kvs[i].0 == k
  }

  predicate StrictlyAscending(kvs: seq<(Key, Value)>)
  {
    forall i, j :: 0 <= i < j < |kvs| ==> KeyLess(kvs[i].0, kvs[j].0)
  }

  /** What a successful range read returns: every selected key of the store
      with its value, each once, in ascending key order, and nothing else. */
  predicate IsListing(kv: KV, sel: Selection, kvs: seq<(Key, Value)>)
  {
    && StrictlyAscending(kvs)
    && (forall i :: 0 <= i < |kvs| ==>
          kvs[i].0 in kv && kv[kvs[i].0] == kvs[i].1 && Selects(sel, kvs[i].0))
    && (forall k :: k in kv && Selects(sel, k) ==>
          exists i :: 0 <= i < |kvs| && kvs[i].0 == k)
  }

  lemma HeadIsMember(s: seq<(Key, Value)>)
    ensures s != [] ==> s[0] in s
  {
  }

  /** Two ascending sequences with the same elements are the same sequence. */
  lemma {:induction false} AscendingSameElements(a: seq<(Key, Value)>, b: seq<(Key, Value)>)
    requires StrictlyAscending(a) && StrictlyAscending(b)
    requires forall p :: p in a <==> p in b
    ensures a == b
  {
    HeadIsMember(b);
    if a != [] {
      assert a[0] in a;
      var j :| 0 <= j < |b| && b[j] == a[0];
      assert b[0] in b;
      var i :| 0 <= i < |a| && a[i] == b[0];
      if i > 0 {
        KeyLessAsymmetric(a[0].0, a[i].0);
      } else {
        KeyLessIrreflexive(a[0].0);
      }
      assert j == 0;
      forall p
        ensures p in a[1..] <==> p in b[1..]
      {
        if p in a[1..] {
          var m :| 1 <= m < |a| && a[m] == p;
          KeyLessIrreflexive(a[0].0);
          assert p != b[0];
          assert p in b;
        }
        if p in b[1..] {
          var m :| 1 <= m < |b| && b[m] == p;
          KeyLessIrreflexive(b[0].0);
          assert p != a[0];
          assert p in a;
        }
      }
      AscendingSameElements(a[1..], b[1..]);
      assert a == [a[0]] + a[1..] && b == [b[0]] + b[1..];
    }
  }

  /** A range read has exactly one possible answer for a given store and range. */
  lemma {:induction false} ListingUnique(kv: KV, sel: Selection, a: seq<(Key, Value)>, b: seq<(Key, Value)>)
    requires IsListing(kv, sel, a) && IsListing(kv, sel, b)
    ensures a == b
  {
    forall p
      ensures p in a <==> p in b
    {
      if p in a {
        var i :| 0 <= i < |a| && a[i] == p;
        var j :| 0 <= j < |b| && b[j].0 == p.0;
        assert b[j] == p;
      }
      if p in b {
        var i :| 0 <= i < |b| && b[i] == p;
        var j :| 0 <= j < |a| && a[j].0 == p.0;
        assert a[j] == p;
      }
    }
    AscendingSameElements(a, b);
  }

  /** The store reached through the process-wide client connection. */
  class Store {
    var kv: KV

    constructor (initial: KV)
      ensures kv == initial
    {
      kv := initial;
    }

    /** A single-key read: the (at most one) stored entry for `key`. */
    function PointRead(key: Key): (kvs: seq<(Key, Value)>)
      reads this
      ensures |kvs| <= 1
      ensures |kvs| == 1 <==> key in kv
      ensures key in kv ==> kvs[0] == (key, kv[key])
    {
      if key in kv then [(key, kv[key])] else []
    }

    /** One transaction `If(guard).Then(ops).Commit()`, with `err` the error the
        call reports. The writes take effect together, in order, exactly when the
        call succeeds and the compare holds; otherwise nothing changes. */
    method Commit(guard: Guard, ops: seq<Op>, err: Error) returns (succeeded: bool)
      modifies this
      ensures succeeded <==> err.Nil? && Holds(guard, old(kv))
      ensures kv == TxnEffect(old(kv), guard, ops, err)
    {
      succeeded := err.Nil? && Holds(guard, kv);
      if succeeded {
        kv := ApplyAll(kv, ops);
      }
    }
  }
}
