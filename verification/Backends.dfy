/** The local storage engine: entries and verification statuses, updated in place. */
module Backends {
  import opened Entries

  class Backend {
    var entries: Held
    var status: map<Id, VerificationStatus>

    constructor ()
      ensures Valid() && Value() == Store(map[], map[])
    {
      entries, status := map[], map[];
    }

    function Value(): Store
      reads this
    {
      Store(entries, status)
    }

    ghost predicate Valid()
      reads this
    {
      Value().Valid()
    }

    /** A new entry is stored Unverified; a held one keeps its status; an invalid one is refused. */
    method Put(e: Entry) returns (r: Result<(), Error>)
      requires Valid()
      modifies this
      ensures Valid()
      ensures Value() == old(Value()).Put(e)
      ensures r.Ok? <==> e.Validates()
      ensures r.Ok? && e.id !in old(entries) ==>
                entries == old(entries)[e.id := e] && status == old(status)[e.id := Unverified]
      ensures r.Err? || e.id in old(entries) ==> entries == old(entries) && status == old(status)
      ensures old(AllValidate(entries)) ==> AllValidate(entries)
    {
      if !e.Validates() { return Err(ValidationFailed(e.id)); }
      if e.id !in entries {
        entries := entries[e.id := e];
        status := status[e.id := Unverified];
      }
      return Ok(());
    }

    method UpdateVerificationStatus(id: Id, s: VerificationStatus) returns (r: Result<(), Error>)
      requires Valid()
      modifies this`status
      ensures Valid()
      ensures r.Ok? <==> id in old(status)
      ensures status == if r.Ok? then old(status)[id := s] else old(status)
    {
      if id !in status { return Err(EntryNotFound(id)); }
      status := status[id := s];
      return Ok(());
    }
  }
}
