/**
 * The ticket record and update input (models/ticket.go) and the ticket
 * directory the ticket service reads and writes: a map from ticket id to
 * ticket, every ticket carrying the id of the user who owns it, and every
 * lookup scoped to that owner. Each store call takes `fault`, the failure
 * of that one call.
 */
module Tickets {
  import opened Wrappers
  import opened Errors
  import opened Records

  /** `models.Ticket` with its owner; the preloaded event and the timestamps dropped. */
  datatype Ticket = Ticket(id: nat, eventId: nat, owner: nat, entered: bool)

  /** `models.UpdateTicketInput`: every field optional, `None` meaning "leave as it is". */
  datatype UpdateTicketInput = UpdateTicketInput(
    price: Option<real>,
    seatNumber: Option<string>,
    status: Option<string>,
    entered: Option<bool>)

  /**
   * The update a stored ticket undergoes. Of the input's fields only
   * `entered` has a column on the ticket; price, seat number and status
   * have nowhere to go.
   */
  function ApplyUpdate(t: Ticket, input: UpdateTicketInput): (r: Ticket)
    ensures r.id == t.id && r.eventId == t.eventId && r.owner == t.owner
    ensures input.entered.None? ==> r == t
    ensures input.entered.Some? ==> r.entered == input.entered.value
  {
    match input.entered
    case None => t
    case Some(e) => t.(entered := e)
  }

  /** The owner-scoped lookup: a ticket that exists but belongs to someone else is not found. */
  function Fetch(tickets: map<nat, Ticket>, owner: nat, id: nat): (r: Result<Ticket, Error>)
    ensures r.Success? <==> id in tickets && tickets[id].owner == owner
    ensures r.Success? ==> r.value == tickets[id]
    ensures r.Failure? ==> r.error == Sentinel(RecordNotFound)
  {
    match Find(tickets, id)
    case Success(t) => if t.owner == owner then Success(t) else Failure(Sentinel(RecordNotFound))
    case Failure(e) => Failure(e)
  }

  /** The tickets a user owns. */
  function OwnedBy(tickets: map<nat, Ticket>, owner: nat): (r: set<Ticket>)
    ensures forall t :: t in r <==> t in tickets.Values && t.owner == owner
  {
    set t | t in tickets.Values && t.owner == owner
  }

  class TicketStore {
    var tickets: map<nat, Ticket>
    var nextId: nat

    /** Every ticket is stored under its own id; ids are positive and below the next one to assign. */
    ghost predicate Valid()
      reads this
    {
      && nextId >= 1
      && forall id :: id in tickets ==> tickets[id].id == id && 1 <= id < nextId
    }

    constructor ()
      ensures Valid()
      ensures tickets == map[] && nextId == 1
    {
      tickets := map[];
      nextId := 1;
    }

    method GetMany(owner: nat, fault: Option<string>) returns (r: Result<set<Ticket>, Error>)
      ensures fault.Some? ==> r == Failure(Opaque(fault.value))
      ensures fault.None? ==> r == Success(OwnedBy(tickets, owner))
    {
      if fault.Some? {
        return Failure(Opaque(fault.value));
      }
      r := Success(OwnedBy(tickets, owner));
    }

    method GetOne(owner: nat, ticketId: nat, fault: Option<string>) returns (r: Result<Ticket, Error>)
      ensures r == if fault.Some? then Failure(Opaque(fault.value)) else Fetch(tickets, owner, ticketId)
    {
      if fault.Some? {
        return Failure(Opaque(fault.value));
      }
      r := Fetch(tickets, owner, ticketId);
    }

    /** Inserts a ticket for `owner` under a fresh id; the rest of the record is the caller's. */
    method CreateOne(owner: nat, ticket: Ticket, fault: Option<string>) returns (r: Result<Ticket, Error>)
      requires Valid()
      modifies this
      ensures Valid()
      ensures fault.Some? ==>
        r == Failure(Opaque(fault.value)) && tickets == old(tickets) && nextId == old(nextId)
      ensures fault.None? ==>
        && r == Success(ticket.(id := old(nextId), owner := owner))
        && old(nextId) !in old(tickets)
        && tickets == old(tickets)[old(nextId) := r.value]
        && nextId == old(nextId) + 1
    {
      if fault.Some? {
        return Failure(Opaque(fault.value));
      }
      var created := ticket.(id := nextId, owner := owner);
      tickets := tickets[nextId := created];
      nextId := nextId + 1;
      r := Success(created);
    }

    /** Applies `input` to the owner's ticket `ticketId`. */
    method UpdateOne(owner: nat, ticketId: nat, input: UpdateTicketInput, fault: Option<string>)
      returns (r: Result<Ticket, Error>)
      requires Valid()
      modifies this
      ensures Valid()
      ensures nextId == old(nextId)
      ensures fault.Some? ==> r == Failure(Opaque(fault.value)) && tickets == old(tickets)
      ensures fault.None? && Fetch(old(tickets), owner, ticketId).Failure? ==>
        r == Failure(Sentinel(RecordNotFound)) && tickets == old(tickets)
      ensures fault.None? && Fetch(old(tickets), owner, ticketId).Success? ==>
        && r == Success(ApplyUpdate(old(tickets)[ticketId], input))
        && tickets == old(tickets)[ticketId := r.value]
    {
      if fault.Some? {
        return Failure(Opaque(fault.value));
      }
      var current := Fetch(tickets, owner, ticketId);
      if current.Failure? {
        return current;
      }
      var updated := ApplyUpdate(current.value, input);
      tickets := tickets[ticketId := updated];
      r := Success(updated);
    }
  }
}
