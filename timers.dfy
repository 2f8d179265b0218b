/**
 * The browser's timer facility (`setTimeout`, `setInterval`, `clearTimeout`,
 * `clearInterval`) as seen by one controller, without a clock: the set of
 * timers that are armed, each with the value its callback captured when it
 * was scheduled. Which timer fires next, and when, is left to the caller.
 */
module Timers {
  import opened Wrappers

  /** A timer id as the browser hands it out: always a positive integer, so a
      scheduled handle is truthy and `null` stands for "no timer". */
  type Handle = h: int | h > 0 witness 1

  /** The handles an optional handle field holds. */
  function Held(o: Option<Handle>): (s: set<Handle>)
    ensures o.None? <==> s == {}
    ensures forall h :: h in s <==> o == Some(h)
  {
    if o.Some? then {o.value} else {}
  }

  class TimerTable<T> {
    /** Armed timers and the value each callback captured. */
    var armed: map<Handle, T>
    /** Number of handles issued so far; the handles issued are 1..issued. */
    var issued: nat

    ghost predicate Valid()
      reads this
    {
      forall h :: h in armed ==> h <= issued
    }

    constructor ()
      ensures Valid() && armed == map[] && issued == 0
    {
      armed := map[];
      issued := 0;
    }

    /** `setTimeout` / `setInterval`: arm a timer under a handle never used before. */
    method Schedule(payload: T) returns (h: Handle)
      requires Valid()
      modifies this
      ensures Valid()
      ensures h !in old(armed) && h > old(issued)
      ensures armed == old(armed)[h := payload]
    {
      issued := issued + 1;
      h := issued;
      armed := armed[h := payload];
    }

    /** `clearTimeout` / `clearInterval`: disarm a timer; a handle that is not
        armed (already fired, already cleared) is ignored. */
    method Cancel(h: Handle)
      requires Valid()
      modifies this
      ensures Valid() && issued == old(issued)
      ensures armed == old(armed) - {h}
    {
      armed := armed - {h};
    }

    /** A one-shot timer fires: it leaves the table and hands its captured
        value to the callback. Only an armed timer can fire. */
    method Fire(h: Handle) returns (payload: T)
      requires Valid() && h in armed
      modifies this
      ensures Valid() && issued == old(issued)
      ensures payload == old(armed)[h]
      ensures armed == old(armed) - {h}
    {
      payload := armed[h];
      armed := armed - {h};
    }
  }
}
