/** The cross-boundary object registry: opaque numeric handles standing for
    results the C side cannot hold directly. Its implementation lives outside
    the modelled file; it is modelled as a map from handle to a tagged object
    and a counter that only grows. */
module ObjectRegistry {
  import opened Wrappers

  /** A lease-bound session: the lease id the store granted and its time-to-live in seconds. */
  datatype Session = Session(lease: nat, ttlSec: nat)

  /** An election on a key prefix, campaigned for with a session. */
  datatype Election = Election(prefix: string, session: Session)

  /** The two kinds of object the registry holds: the key-value pairs of a
      range read, and a won election. */
  datatype Obj = KVList(kvs: seq<(string, string)>) | ElectionH(election: Election)

  class Registry {
    var objects: map<nat, Obj>
    var next: nat

    /** Every live handle was issued before the counter's current value, so the
        counter never hands out a handle that is in use. */
    ghost predicate Valid()
      reads this
    {
      forall oid :: oid in objects ==> oid < next
    }

    constructor (first: nat)
      ensures Valid() && objects == map[] && next == first
    {
      objects := map[];
      next := first;
    }

    /** AddManagedObject: stores `o` under a handle never issued before. */
    method Add(o: Obj) returns (oid: nat)
      requires Valid()
      modifies this
      ensures Valid()
      ensures oid == old(next) && next == old(next) + 1
      ensures oid !in old(objects)
      ensures objects == old(objects)[oid := o]
    {
      oid := next;
      objects := objects[oid := o];
      next := next + 1;
    }

    /** GetManagedObject: the stored object, if the handle is live. */
    function Get(oid: nat): (r: Option<Obj>)
      reads this
      ensures r.Some? <==> oid in objects
      ensures r.Some? ==> r.value == objects[oid]
    {
      if oid in objects then Some(objects[oid]) else None
    }

    /** RemoveManagedObject: drops the handle; a handle that is not live is ignored. */
    method Remove(oid: nat)
      requires Valid()
      modifies this
      ensures Valid()
      ensures objects == old(objects) - {oid} && next == old(next)
    {
      objects := objects - {oid};
    }
  }
}
