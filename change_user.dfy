/** The ambient "who is changing this" slot of apps/main/utils.py: one value
    per thread, overwritten by every set, read as nothing when the thread
    never set it. */
module ChangeUser {

  import opened Outcomes
  import opened Entities

  type ThreadId = nat

  class ActorSlot {
    /** The per-thread attribute; a thread absent from the map never set it. */
    var values: map<ThreadId, Option<UserId>>

    constructor ()
      ensures values == map[]
    {
      values := map[];
    }

    /** `get_change_user()` on thread `t`. */
    function Get(t: ThreadId): (u: Option<UserId>)
      reads this
      ensures t !in values ==> u.None?
      ensures t in values ==> u == values[t]
    {
      if t in values then values[t] else None
    }

    /** `set_change_user(user)` on thread `t`: the next read on `t` returns
        `user`, and no other thread's value moves. */
    method Set(t: ThreadId, user: Option<UserId>)
      modifies this
      ensures values == old(values)[t := user]
      ensures Get(t) == user
      ensures forall t' :: t' != t ==> Get(t') == old(Get(t'))
    {
      values := values[t := user];
    }
  }
}
