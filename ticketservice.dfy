/**
 * services/ticket.go: the ticket service over the ticket and event
 * directories. Store failures collapse to `InternalError` except where the
 * service keeps not-found apart; `ValidateEntry` passes the store's errors
 * through unchanged.
 */
module TicketService {
  import opened Wrappers
  import opened Errors
  import opened Events
  import opened Tickets

  /** The statuses an update may set. */
  const ValidStatuses: set<string> := {"sold", "available", "reserved"}

  /**
   * The checks `UpdateOne` makes before any store call, in order: a missing
   * input, a negative price, an unknown status. `None` lets the update
   * through.
   */
  function CheckUpdateInput(input: Option<UpdateTicketInput>): (r: Option<Error>)
    ensures r.Some? ==> r.value.wraps == {Validation}
    ensures r.None? <==>
      && input.Some?
      && (input.value.price.None? || input.value.price.value >= 0.0)
      && (input.value.status.None? || input.value.status.value in ValidStatuses)
    ensures input.None? ==> r == Some(NewValidationError("update data cannot be empty"))
    ensures input.Some? && input.value.price.Some? && input.value.price.value < 0.0 ==>
      r == Some(NewValidationError("price cannot be negative"))
  {
    if input.None? then Some(NewValidationError("update data cannot be empty"))
    else if input.value.price.Some? && input.value.price.value < 0.0 then
      Some(NewValidationError("price cannot be negative"))
    else if input.value.status.Some? && input.value.status.value !in ValidStatuses then
      Some(NewValidationError("invalid status: " + input.value.status.value))
    else None
  }

  /** An unknown status is reported by name, once the price has passed. */
  lemma UnknownStatusNamed(input: UpdateTicketInput, s: string)
    requires input.price.None? || input.price.value >= 0.0
    requires input.status == Some(s) && s !in ValidStatuses
    ensures CheckUpdateInput(Some(input)) == Some(NewValidationError("invalid status: " + s))
  {
  }

  class TicketService {
    const repository: TicketStore
    const eventRepo: EventStore

    constructor (repository: TicketStore, eventRepo: EventStore)
      ensures this.repository == repository && this.eventRepo == eventRepo
    {
      this.repository := repository;
      this.eventRepo := eventRepo;
    }

    /** The user's tickets; any store error becomes `InternalError`. */
    method GetMany(userId: nat, fault: Option<string>) returns (r: Result<set<Ticket>, Error>)
      ensures fault.Some? ==> r == Failure(InternalError)
      ensures fault.None? ==>
        && r.Success?
        && forall t :: t in r.value <==> t in repository.tickets.Values && t.owner == userId
    {
      var tickets := repository.GetMany(userId, fault);
      if tickets.Failure? {
        return Failure(InternalError);
      }
      r := tickets;
    }

    /** One of the user's tickets; not-found stays distinct from `InternalError`. */
    method GetOne(userId: nat, ticketId: nat, fault: Option<string>) returns (r: Result<Ticket, Error>)
      ensures r.Success? <==>
        fault.None? && ticketId in repository.tickets && repository.tickets[ticketId].owner == userId
      ensures r.Success? ==> r.value == repository.tickets[ticketId]
      ensures r.Failure? ==>
        r.error == if fault.None? then Sentinel(RecordNotFound) else InternalError
    {
      var ticket := repository.GetOne(userId, ticketId, fault);
      if ticket.Failure? {
        return Failure(NotFoundOrInternal(ticket.error));
      }
      r := ticket;
    }

    /**
     * Creates a ticket for the user once its event is known to exist. Only a
     * successful call changes the ticket directory.
     */
    method CreateOne(userId: nat, ticket: Ticket, eventFault: Option<string>, createFault: Option<string>)
      returns (r: Result<Ticket, Error>)
      requires repository.Valid()
      modifies repository
      ensures repository.Valid()
      ensures eventFault.Some? ==> r == Failure(InternalError)
      ensures eventFault.None? && ticket.eventId !in eventRepo.events ==> r == Failure(Sentinel(EventNotFound))
      ensures eventFault.None? && ticket.eventId in eventRepo.events && createFault.Some? ==>
        r == Failure(InternalError)
      ensures r.Success? <==> eventFault.None? && ticket.eventId in eventRepo.events && createFault.None?
      ensures r.Failure? ==>
        repository.tickets == old(repository.tickets) && repository.nextId == old(repository.nextId)
      ensures r.Success? ==>
        && r.value == ticket.(id := old(repository.nextId), owner := userId)
        && r.value.id !in old(repository.tickets)
        && repository.tickets == old(repository.tickets)[r.value.id := r.value]
    {
      var event := eventRepo.GetOne(ticket.eventId, eventFault);
      if event.Failure? {
        if Is(event.error, RecordNotFound) {
          return Failure(Sentinel(EventNotFound));
        }
        return Failure(InternalError);
      }
      var created := repository.CreateOne(userId, ticket, createFault);
      if created.Failure? {
        return Failure(InternalError);
      }
      r := created;
    }

    /**
     * Validates the input before any store call, then updates the user's
     * ticket; not-found stays distinct, every other store error becomes
     * `InternalError`.
     */
    method UpdateOne(userId: nat, ticketId: nat, input: Option<UpdateTicketInput>, fault: Option<string>)
      returns (r: Result<Ticket, Error>)
      requires repository.Valid()
      modifies repository
      ensures repository.Valid()
      ensures CheckUpdateInput(input).Some? ==>
        r == Failure(CheckUpdateInput(input).value) && repository.tickets == old(repository.tickets)
      ensures CheckUpdateInput(input).None? && fault.Some? ==>
        r == Failure(InternalError) && repository.tickets == old(repository.tickets)
      ensures CheckUpdateInput(input).None? && fault.None? && Fetch(old(repository.tickets), userId, ticketId).Failure? ==>
        r == Failure(Sentinel(RecordNotFound)) && repository.tickets == old(repository.tickets)
      ensures CheckUpdateInput(input).None? && fault.None? && Fetch(old(repository.tickets), userId, ticketId).Success? ==>
        && r == Success(ApplyUpdate(old(repository.tickets)[ticketId], input.value))
        && repository.tickets == old(repository.tickets)[ticketId := r.value]
    {
      var problem := CheckUpdateInput(input);
      if problem.Some? {
        return Failure(problem.value);
      }
      var updated := repository.UpdateOne(userId, ticketId, input.value, fault);
      if updated.Failure? {
        return Failure(NotFoundOrInternal(updated.error));
      }
      r := updated;
    }

    /**
     * Admits the user's ticket at the gate: a ticket not yet entered is
     * marked entered, one already entered is refused. Store errors come back
     * as the store gave them. No ticket ever goes from entered to not
     * entered.
     */
    method ValidateEntry(userId: nat, ticketId: nat, getFault: Option<string>, updateFault: Option<string>)
      returns (r: Result<Ticket, Error>)
      requires repository.Valid()
      modifies repository
      ensures repository.Valid()
      ensures getFault.Some? ==>
        r == Failure(Opaque(getFault.value)) && repository.tickets == old(repository.tickets)
      ensures getFault.None? && Fetch(old(repository.tickets), userId, ticketId).Failure? ==>
        r == Failure(Sentinel(RecordNotFound)) && repository.tickets == old(repository.tickets)
      ensures getFault.None? && Fetch(old(repository.tickets), userId, ticketId).Success? ==>
        var t := old(repository.tickets)[ticketId];
        && (t.entered ==>
              r == Failure(Sentinel(TicketAlreadyUsed)) && repository.tickets == old(repository.tickets))
        && (!t.entered && updateFault.Some? ==>
              r == Failure(Opaque(updateFault.value)) && repository.tickets == old(repository.tickets))
        && (!t.entered && updateFault.None? ==>
              r == Success(t.(entered := true)) && repository.tickets == old(repository.tickets)[ticketId := r.value])
      ensures forall id :: id in old(repository.tickets) && old(repository.tickets)[id].entered ==>
        id in repository.tickets && repository.tickets[id].entered
    {
      var ticket := repository.GetOne(userId, ticketId, getFault);
      if ticket.Failure? {
        return ticket;
      }
      if ticket.value.entered {
        return Failure(Sentinel(TicketAlreadyUsed));
      }
      var input := UpdateTicketInput(None, None, None, Some(true));
      r := repository.UpdateOne(userId, ticketId, input, updateFault);
    }
  }

  /**
   * Two gate scans of the same ticket in a row: once the first admits it,
   * the second is refused with `ErrTicketAlreadyUsed` whenever its lookup
   * reaches the store.
   */
  method AdmitTwice(s: TicketService, userId: nat, ticketId: nat,
                    getFault1: Option<string>, updateFault1: Option<string>,
                    getFault2: Option<string>, updateFault2: Option<string>)
    returns (first: Result<Ticket, Error>, second: Result<Ticket, Error>)
    requires s.repository.Valid()
    modifies s.repository
    ensures first.Success? && getFault2.None? ==> second == Failure(Sentinel(TicketAlreadyUsed))
  {
    first := s.ValidateEntry(userId, ticketId, getFault1, updateFault1);
    second := s.ValidateEntry(userId, ticketId, getFault2, updateFault2);
  }
}
