/**
 * The event record (models/event.go) and the event directory the event and
 * ticket services read and write, as a map from event id to event. Each
 * store call takes `fault`, the failure of that one call (`None`: the call
 * reaches the database).
 */
module Events {
  import opened Wrappers
  import opened Errors
  import opened Records

  /** `models.Event`; `Date` in seconds, the bookkeeping timestamps dropped. */
  datatype Event = Event(id: nat, name: string, location: string, date: int)

  /** `dto.EventPatchRequest`: every field optional, `None` meaning "leave as it is". */
  datatype EventPatch = EventPatch(name: Option<string>, location: Option<string>, date: Option<int>)

  class EventStore {
    var events: map<nat, Event>
    var nextId: nat

    /** Every event is stored under its own id; ids are positive and below the next one to assign. */
    ghost predicate Valid()
      reads this
    {
      && nextId >= 1
      && forall id :: id in events ==> events[id].id == id && 1 <= id < nextId
    }

    constructor ()
      ensures Valid()
      ensures events == map[] && nextId == 1
    {
      events := map[];
      nextId := 1;
    }

    method GetMany(fault: Option<string>) returns (r: Result<set<Event>, Error>)
      ensures fault.Some? ==> r == Failure(Opaque(fault.value))
      ensures fault.None? ==> r.Success? && forall e :: e in r.value <==> e in events.Values
    {
      if fault.Some? {
        return Failure(Opaque(fault.value));
      }
      r := Success(events.Values);
    }

    method GetOne(eventId: nat, fault: Option<string>) returns (r: Result<Event, Error>)
      ensures r == if fault.Some? then Failure(Opaque(fault.value)) else Find(events, eventId)
    {
      if fault.Some? {
        return Failure(Opaque(fault.value));
      }
      r := Find(events, eventId);
    }

    method CreateOne(event: Event, fault: Option<string>) returns (r: Result<Event, Error>)
      requires Valid()
      modifies this
      ensures Valid()
      ensures fault.Some? ==>
        r == Failure(Opaque(fault.value)) && events == old(events) && nextId == old(nextId)
      ensures fault.None? ==>
        && r == Success(event.(id := old(nextId)))
        && events == old(events)[old(nextId) := r.value]
        && nextId == old(nextId) + 1
    {
      if fault.Some? {
        return Failure(Opaque(fault.value));
      }
      var created := event.(id := nextId);
      events := events[nextId := created];
      nextId := nextId + 1;
      r := Success(created);
    }

    /** Replaces a stored event by `event`, keeping the stored id. */
    method UpdateOne(eventId: nat, event: Event, fault: Option<string>) returns (r: Result<Event, Error>)
      requires Valid()
      modifies this
      ensures Valid()
      ensures nextId == old(nextId)
      ensures fault.Some? ==> r == Failure(Opaque(fault.value)) && events == old(events)
      ensures fault.None? && eventId !in old(events) ==>
        r == Failure(Sentinel(RecordNotFound)) && events == old(events)
      ensures fault.None? && eventId in old(events) ==>
        r == Success(event.(id := eventId)) && events == old(events)[eventId := event.(id := eventId)]
    {
      if fault.Some? {
        return Failure(Opaque(fault.value));
      }
      if eventId !in events {
        return Failure(Sentinel(RecordNotFound));
      }
      var saved := event.(id := eventId);
      events := events[eventId := saved];
      r := Success(saved);
    }

    /** Deletes an event; deleting an absent id reports not-found, as no row is affected. */
    method DeleteOne(eventId: nat, fault: Option<string>) returns (err: Option<Error>)
      requires Valid()
      modifies this
      ensures Valid()
      ensures nextId == old(nextId)
      ensures fault.Some? ==> err == Some(Opaque(fault.value)) && events == old(events)
      ensures fault.None? && eventId !in old(events) ==>
        err == Some(Sentinel(RecordNotFound)) && events == old(events)
      ensures fault.None? && eventId in old(events) ==>
        err.None? && events == old(events) - {eventId}
    {
      if fault.Some? {
        return Some(Opaque(fault.value));
      }
      if eventId !in events {
        return Some(Sentinel(RecordNotFound));
      }
      events := events - {eventId};
      err := None;
    }
  }
}
