/** `CurrentUserMiddleware`: publish the requesting user in the ambient slot
    for the duration of a request, then clear it. The view it wraps is a
    parameter: a function from the user it sees in the slot to what it does. */
module Middleware {

  import opened Outcomes
  import opened Entities
  import opened ChangeUser

  /** What `get_response` does: return a response or raise. Django converts
      a view's exception into an error response before it reaches the
      middleware, so `Raised` is an exception that escapes that conversion. */
  datatype Outcome<R> = Returned(response: R) | Raised(error: string)

  /** The slot value the middleware publishes for a requester. */
  function ActorOf(who: Requester): (u: Option<UserId>)
    ensures u.Some? <==> who.IsAuthenticated()
    ensures who.Authenticated? ==> u == Some(who.user.id)
  {
    match who
    case Authenticated(user) => Some(user.id)
    case Anonymous => None
  }

  /** `__call__`: the handler sees the requester (or nothing) in the slot;
      its response is passed back unchanged and the slot is cleared; when an
      exception escapes Django's response conversion, the clearing line is
      never reached and the user stays published on this thread. */
  method Call<R>(slot: ActorSlot, t: ThreadId, who: Requester, handler: Option<UserId> -> Outcome<R>)
    returns (r: Outcome<R>)
    modifies slot
    ensures r == handler(ActorOf(who))
    ensures r.Returned? ==> slot.values == old(slot.values)[t := None]
    ensures r.Raised? ==> slot.values == old(slot.values)[t := ActorOf(who)]
  {
    slot.Set(t, ActorOf(who));
    var seen := slot.Get(t);
    r := handler(seen);
    if r.Returned? {
      slot.Set(t, None);
    }
  }
}
