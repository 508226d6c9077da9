/** The map shared by the workers, from unique ids to pointers, and the queue of woken operations.
    An entry is a union without a tag: a pointer, or a parked operation that waits for one. */
module ConcurrentIdMaps {
  import opened Options

  datatype MapVal<T> = Allocated(ptr: nat) | Pending(op: T)

  // the entries that are pointers
  function Pointers<T>(m: map<nat, MapVal<T>>): map<nat, nat> {
    map id | id in m && m[id].Allocated? :: m[id].ptr
  }

  class ConcurrentIdMap<T(==)> {
    var idMap: map<nat, MapVal<T>>
    var queuedOps: seq<T>

    constructor ()
      ensures idMap == map[] && queuedOps == []
    {
      idMap, queuedOps := map[], [];
    }

    /** The id must not have a pointer yet, or the pointer would be read as an operation.  An
        operation parked under the id is woken: it moves to the queue. */
    method AddAllocation(id: nat, ptr: nat)
      requires id in idMap ==> idMap[id].Pending?
      modifies this
      ensures idMap == old(idMap)[id := Allocated(ptr)]
      ensures queuedOps == old(queuedOps) + if id in old(idMap) then [old(idMap)[id].op] else []
    {
      if id !in idMap {
        idMap := idMap[id := Allocated(ptr)];
      } else {
        var pending := idMap[id].op;
        idMap := idMap[id := Allocated(ptr)];
        queuedOps := queuedOps + [pending];
      }
    }

    // false if there was nothing to erase
    method AddFree(id: nat) returns (found: bool)
      modifies this
      ensures found == (id in old(idMap)) && idMap == old(idMap) - {id} && queuedOps == old(queuedOps)
    {
      found := id in idMap;
      idMap := idMap - {id};
    }

    // the id must not have a parked operation, or it would be read as a pointer
    method LookupAllocation(id: nat) returns (ptr: Option<nat>)
      requires id in idMap ==> idMap[id].Allocated?
      ensures ptr == if id in idMap then Some(idMap[id].ptr) else None
    {
      ptr := if id in idMap then Some(idMap[id].ptr) else None;
    }

    // parks the operation unless there is an entry already
    method MaybeSuspendAllocation(id: nat, op: T) returns (suspended: bool)
      modifies this
      ensures suspended == (id !in old(idMap)) && queuedOps == old(queuedOps)
      ensures idMap == if suspended then old(idMap)[id := Pending(op)] else old(idMap)
    {
      suspended := id !in idMap;
      if suspended {
        idMap := idMap[id := Pending(op)];
      }
    }

    // the oldest operations of the queue, `len` at most
    method TakeFromQueue(len: nat) returns (ops: seq<T>)
      modifies this
      ensures ops + queuedOps == old(queuedOps) && idMap == old(idMap)
      ensures |ops| == if |old(queuedOps)| < len then |old(queuedOps)| else len
    {
      var taken := if |queuedOps| < len then |queuedOps| else len;
      ops := [];
      for i := 0 to taken
        invariant |ops| == i && ops + queuedOps == old(queuedOps) && idMap == old(idMap)
      {
        ops := ops + [queuedOps[0]];
        queuedOps := queuedOps[1..];
      }
    }
  }
}
