/** The identifier source both phone books share: a counter and a stack of returned identifiers. */
module IdManager {
  import opened Wrappers
  import opened BookSpec

  class IdManager {
    var nextId: nat
    var freeIds: seq<nat>

    constructor ()
      ensures nextId == 1 && freeIds == []
    {
      nextId := 1;
      freeIds := [];
    }

    method TakeId() returns (id: Option<nat>)
      modifies this
      ensures var b := old(Book([], nextId, freeIds));
              && id == TakenId(b)
              && Book([], nextId, freeIds) == if id.Some? then AfterTake(b) else b
    {
      if freeIds != [] {
        id := Some(freeIds[0]);
        freeIds := freeIds[1..];
        return;
      }
      if nextId == 0 {
        return None;
      }
      id := Some(nextId);
      nextId := (nextId + 1) % UINT_RANGE;
    }

    method ReleaseId(id: nat) returns (code: int)
      modifies this
      ensures nextId == old(nextId)
      ensures if id == 0 then code == -1 && freeIds == old(freeIds) else code == 0 && freeIds == [id] + old(freeIds)
    {
      if id == 0 {
        return -1;
      }
      freeIds := [id] + freeIds;
      return 0;
    }

    method Clear()
      modifies this
      ensures nextId == 1 && freeIds == []
    {
      while freeIds != []
        decreases |freeIds|
      {
        freeIds := freeIds[1..];
      }
      nextId := 1;
    }
  }
}
