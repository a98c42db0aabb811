/** The client's view of the shared rate limiter (`TMDbRateLimiter`): a ticket
    is handed out before a request is sent and handed back when it ends. The
    ghost set `outstanding` holds the tickets in flight, so that each release
    can be checked to match exactly one acquisition. */
module RateLimiting {
  import opened JavaLang

  class RateLimiter {
    /** Tickets handed out so far; the next ticket is this number. */
    var issued: nat
    /** Tickets handed out and not yet released. */
    ghost var outstanding: set<nat>

    ghost predicate Valid()
      reads this
    {
      forall id :: id in outstanding ==> id < issued
    }

    constructor ()
      ensures Valid() && issued == 0 && outstanding == {}
    {
      issued := 0;
      outstanding := {};
    }

    /** `getRequestId()`: waits for admission and returns a new ticket, or ends
        in an InterruptedException (`None`) without taking one when the wait
        is interrupted. */
    method GetRequestId(interrupted: bool) returns (id: Option<nat>)
      requires Valid()
      modifies this
      ensures Valid()
      ensures interrupted ==> id.None? && issued == old(issued) && outstanding == old(outstanding)
      ensures !interrupted ==> && id == Some(old(issued))
                               && old(issued) !in old(outstanding)
                               && outstanding == old(outstanding) + {old(issued)}
                               && issued == old(issued) + 1
    {
      if interrupted {
        id := None;
      } else {
        id := Some(issued);
        outstanding := outstanding + {issued};
        issued := issued + 1;
      }
    }

    /** `setRequestEnd(id)`: hands a ticket back. Only a ticket still in flight
        may be released, so no ticket is released twice. */
    method SetRequestEnd(id: nat)
      requires Valid() && id in outstanding
      modifies this
      ensures Valid()
      ensures outstanding == old(outstanding) - {id} && issued == old(issued)
    {
      outstanding := outstanding - {id};
    }
  }
}
