/**
 * services/event.go: the event service over the event directory, and the
 * partial update `PatchOne` with its change detection. Dates are seconds;
 * the clock is the parameter `now`.
 */
module EventService {
  import opened Wrappers
  import opened Errors
  import opened Events

  /** The number of bytes a character takes in UTF-8. */
  function Utf8Width(c: char): (n: nat)
    ensures 1 <= n <= 4
  {
    if c as int < 0x80 then 1
    else if c as int < 0x800 then 2
    else if c as int < 0x10000 then 3
    else 4
  }

  /** The byte length of a string in UTF-8, which is what Go's `len` counts on a string. */
  function Utf8Length(s: string): (n: nat)
    ensures |s| <= n <= 4 * |s|
  {
    if s == [] then 0 else Utf8Width(s[0]) + Utf8Length(s[1..])
  }

  /** An ASCII string takes one byte per character. */
  lemma {:induction false} AsciiLength(s: string)
    requires forall i :: 0 <= i < |s| ==> s[i] as int < 0x80
    ensures Utf8Length(s) == |s|
  {
    if s != [] {
      AsciiLength(s[1..]);
    }
  }

  /** The name a patch may set: at least three bytes. */
  predicate NameTooShort(name: string) {
    Utf8Length(name) < 3
  }

  /** The check counts bytes, not characters: a two-character name with a non-ASCII letter passes. */
  lemma TwoCharacterNameCanPass()
    ensures !NameTooShort(['é', 'e'])
  {
  }

  /** The validation error a patch fails with, if any: the name is checked before the date. */
  function PatchProblem(patch: EventPatch, now: int): (r: Option<Error>)
    ensures r.Some? ==> r.value.wraps == {Validation}
    ensures r.None? <==>
      (patch.name.None? || !NameTooShort(patch.name.value)) && (patch.date.None? || patch.date.value >= now)
    ensures patch.name.Some? && NameTooShort(patch.name.value) ==>
      r == Some(NewValidationError("event name too short"))
  {
    if patch.name.Some? && NameTooShort(patch.name.value) then
      Some(NewValidationError("event name too short"))
    else if patch.date.Some? && patch.date.value < now then
      Some(NewValidationError("event date cannot be in the past"))
    else None
  }

  /** A patch that sets no field cannot fail. */
  lemma EmptyPatchAccepted(now: int)
    ensures PatchProblem(EventPatch(None, None, None), now).None?
  {
  }

  /** The event a patch makes of `current`: each field the patch sets is overwritten, the others kept. */
  function Merge(current: Event, patch: EventPatch): (r: Event)
    ensures r.id == current.id
    ensures patch.name.None? ==> r.name == current.name
    ensures patch.location.None? ==> r.location == current.location
    ensures patch.date.None? ==> r.date == current.date
    ensures patch.name.Some? ==> r.name == patch.name.value
    ensures patch.location.Some? ==> r.location == patch.location.value
    ensures patch.date.Some? ==> r.date == patch.date.value
  {
    Event(current.id,
          patch.name.GetOr(current.name),
          patch.location.GetOr(current.location),
          patch.date.GetOr(current.date))
  }

  /** Whether some field the patch sets has a value other than the current one. */
  predicate Differs(current: Event, patch: EventPatch) {
    || (patch.name.Some? && patch.name.value != current.name)
    || (patch.location.Some? && patch.location.value != current.location)
    || (patch.date.Some? && patch.date.value != current.date)
  }

  /** Change detection is exact: a patch is seen to change something if and only if merging it changes the event. */
  lemma DiffersIffMergeChanges(current: Event, patch: EventPatch)
    ensures Differs(current, patch) <==> Merge(current, patch) != current
  {
  }

  /** Patching again with the same patch changes nothing more. */
  lemma MergeIdempotent(current: Event, patch: EventPatch)
    ensures Merge(Merge(current, patch), patch) == Merge(current, patch)
    ensures !Differs(Merge(current, patch), patch)
  {
  }

  class EventService {
    const repository: EventStore

    constructor (repository: EventStore)
      ensures this.repository == repository
    {
      this.repository := repository;
    }

    /** All events; any store error becomes `InternalError`. */
    method GetMany(fault: Option<string>) returns (r: Result<set<Event>, Error>)
      ensures fault.Some? ==> r == Failure(InternalError)
      ensures fault.None? ==> r.Success? && forall e :: e in r.value <==> e in repository.events.Values
    {
      var events := repository.GetMany(fault);
      if events.Failure? {
        return Failure(InternalError);
      }
      r := events;
    }

    /** One event; not-found stays distinct from `InternalError`. */
    method GetOne(eventId: nat, fault: Option<string>) returns (r: Result<Event, Error>)
      ensures r.Success? <==> fault.None? && eventId in repository.events
      ensures r.Success? ==> r.value == repository.events[eventId]
      ensures r.Failure? ==> r.error == if fault.None? then Sentinel(RecordNotFound) else InternalError
    {
      var event := repository.GetOne(eventId, fault);
      if event.Failure? {
        return Failure(NotFoundOrInternal(event.error));
      }
      r := event;
    }

    /** Stores a new event under a fresh id; any store error becomes `InternalError`. */
    method CreateOne(event: Event, fault: Option<string>) returns (r: Result<Event, Error>)
      requires repository.Valid()
      modifies repository
      ensures repository.Valid()
      ensures fault.Some? ==> r == Failure(InternalError) && repository.events == old(repository.events)
      ensures fault.None? ==>
        && r == Success(event.(id := old(repository.nextId)))
        && repository.events == old(repository.events)[r.value.id := r.value]
    {
      var created := repository.CreateOne(event, fault);
      if created.Failure? {
        return Failure(InternalError);
      }
      r := created;
    }

    /** Replaces an event; not-found stays distinct, other store errors become `InternalError`. */
    method UpdateOne(eventId: nat, event: Event, fault: Option<string>) returns (r: Result<Event, Error>)
      requires repository.Valid()
      modifies repository
      ensures repository.Valid()
      ensures r.Success? <==> fault.None? && eventId in old(repository.events)
      ensures r.Failure? ==>
        && r.error == (if fault.None? then Sentinel(RecordNotFound) else InternalError)
        && repository.events == old(repository.events)
      ensures r.Success? ==>
        r.value == event.(id := eventId) && repository.events == old(repository.events)[eventId := r.value]
    {
      var updated := repository.UpdateOne(eventId, event, fault);
      if updated.Failure? {
        return Failure(NotFoundOrInternal(updated.error));
      }
      r := updated;
    }

    /** Deletes an event; not-found stays distinct, other store errors become `InternalError`. */
    method DeleteOne(eventId: nat, fault: Option<string>) returns (err: Option<Error>)
      requires repository.Valid()
      modifies repository
      ensures repository.Valid()
      ensures err.None? <==> fault.None? && eventId in old(repository.events)
      ensures err.Some? ==>
        && err.value == (if fault.None? then Sentinel(RecordNotFound) else InternalError)
        && repository.events == old(repository.events)
      ensures err.None? ==> repository.events == old(repository.events) - {eventId}
    {
      var e := repository.DeleteOne(eventId, fault);
      if e.Some? {
        return Some(NotFoundOrInternal(e.value));
      }
      err := None;
    }

    /**
     * Applies a partial update to a stored event. The stored event is
     * written only when the patch passes its checks and actually changes
     * a field; otherwise the current event comes back as it is.
     */
    method PatchOne(eventId: nat, input: Option<EventPatch>, now: int,
                    getFault: Option<string>, updateFault: Option<string>)
      returns (r: Result<Event, Error>)
      requires repository.Valid()
      modifies repository
      ensures repository.Valid()
      ensures getFault.Some? ==>
        r == Failure(InternalError) && repository.events == old(repository.events)
      ensures getFault.None? && eventId !in old(repository.events) ==>
        r == Failure(Sentinel(RecordNotFound)) && repository.events == old(repository.events)
      ensures getFault.None? && eventId in old(repository.events) ==>
        var current := old(repository.events)[eventId];
        && (input.None? ==>
              r == Success(current) && repository.events == old(repository.events))
        && (input.Some? && PatchProblem(input.value, now).Some? ==>
              r == Failure(PatchProblem(input.value, now).value) && repository.events == old(repository.events))
        && (input.Some? && PatchProblem(input.value, now).None? && !Differs(current, input.value) ==>
              r == Success(current) && repository.events == old(repository.events))
        && (input.Some? && PatchProblem(input.value, now).None? && Differs(current, input.value) ==>
              && (updateFault.Some? ==>
                    r == Failure(InternalError) && repository.events == old(repository.events))
              && (updateFault.None? ==>
                    && r == Success(Merge(current, input.value))
                    && repository.events == old(repository.events)[eventId := r.value]))
    {
      var got := repository.GetOne(eventId, getFault);
      if got.Failure? {
        if Is(got.error, RecordNotFound) {
          return Failure(Sentinel(RecordNotFound));
        }
        return Failure(InternalError);
      }
      var current := got.value;
      if input.None? {
        return Success(current);
      }
      var patch := input.value;
      var isChanged := false;

      if patch.name.Some? {
        if NameTooShort(patch.name.value) {
          return Failure(NewValidationError("event name too short"));
        }
        if current.name != patch.name.value {
          current := current.(name := patch.name.value);
          isChanged := true;
        }
      }

      if patch.location.Some? {
        if current.location != patch.location.value {
          current := current.(location := patch.location.value);
          isChanged := true;
        }
      }

      if patch.date.Some? {
        if patch.date.value < now {
          return Failure(NewValidationError("event date cannot be in the past"));
        }
        if current.date != patch.date.value {
          current := current.(date := patch.date.value);
          isChanged := true;
        }
      }

      assert current == Merge(got.value, patch);
      assert isChanged == Differs(got.value, patch);
      if !isChanged {
        return Success(current);
      }

      var updated := repository.UpdateOne(eventId, current, updateFault);
      if updated.Failure? {
        return Failure(InternalError);
      }
      r := Success(updated.value);
    }
  }
}
