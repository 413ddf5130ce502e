/** `debounce(fn, wait)` (script.js) as a state machine: each call clears the
    armed timer and arms a new one `wait` milliseconds later with its own
    arguments; the timer fires `fn` once when the clock reaches it. */
module Debounce {
  import opened Wrappers

  /** An armed `setTimeout`: the arguments it will pass and when it fires. */
  datatype Timer<A> = Timer(args: A, due: int)

  /** The closure's state: its `wait`, the timer `t` if one is armed, and the
      arguments of every invocation of `fn` so far, oldest first. */
  datatype Debouncer<A> = Debouncer(wait: nat, armed: Option<Timer<A>>, fired: seq<A>)

  /** A fresh wrapper: nothing armed, nothing fired. */
  function Create<A>(wait: nat): (d: Debouncer<A>)
    ensures d.wait == wait && d.armed.None? && d.fired == []
  {
    Debouncer(wait, None, [])
  }

  /** The wrapper called at time `now`: whatever was armed is cancelled and
      only this call's arguments are pending; nothing fires now. */
  function Call<A>(d: Debouncer<A>, now: int, args: A): (d': Debouncer<A>)
    ensures d'.armed == Some(Timer(args, now + d.wait))
    ensures d'.fired == d.fired && d'.wait == d.wait
  {
    d.(armed := Some(Timer(args, now + d.wait)))
  }

  /** The clock reaches `now`: an armed timer that is due fires `fn` once. */
  function Advance<A>(d: Debouncer<A>, now: int): (d': Debouncer<A>)
    ensures d'.wait == d.wait
    ensures d'.armed.None? ==> d'.fired == d.fired + (if d.armed.Some? then [d.armed.value.args] else [])
    ensures d'.armed.Some? ==> d' == d
    ensures d.armed.Some? && now < d.armed.value.due ==> d' == d
    ensures d.armed.Some? && d.armed.value.due <= now ==>
              d'.armed.None? && d'.fired == d.fired + [d.armed.value.args]
    ensures d.armed.None? ==> d' == d
  {
    match d.armed
    case Some(t) =>
      if t.due <= now then d.(armed := None, fired := d.fired + [t.args]) else d
    case None => d
  }

  /** A stream of calls `(time, args)`: before each call the clock reaches
      the call's time, so a timer armed earlier fires if it is due. */
  function Replay<A>(d: Debouncer<A>, calls: seq<(int, A)>): Debouncer<A>
    decreases |calls|
  {
    if |calls| == 0 then d
    else Replay(Call(Advance(d, calls[0].0), calls[0].0, calls[0].1), calls[1..])
  }

  /** A burst: each call comes less than `wait` after the one before it. */
  predicate Burst<A>(calls: seq<(int, A)>, wait: nat) {
    forall i :: 0 < i < |calls| ==> calls[i - 1].0 <= calls[i].0 < calls[i - 1].0 + wait
  }

  /** After a non-empty burst only the last call's timer is armed, and the
      burst itself fired nothing beyond what was already due when it began. */
  lemma {:induction false} ReplayBurstArmsLast<A>(d: Debouncer<A>, calls: seq<(int, A)>)
    requires |calls| > 0 && Burst(calls, d.wait)
    ensures Replay(d, calls).wait == d.wait
    ensures Replay(d, calls).armed == Some(Timer(calls[|calls| - 1].1, calls[|calls| - 1].0 + d.wait))
    ensures Replay(d, calls).fired == Advance(d, calls[0].0).fired
    decreases |calls|
  {
    var d1 := Call(Advance(d, calls[0].0), calls[0].0, calls[0].1);
    if |calls| > 1 {
      var rest := calls[1..];
      assert Burst(rest, d1.wait) by {
        forall i | 0 < i < |rest|
          ensures rest[i - 1].0 <= rest[i].0 < rest[i - 1].0 + d1.wait
        {
          assert rest[i - 1] == calls[i] && rest[i] == calls[i + 1];
        }
      }
      ReplayBurstArmsLast(d1, rest);
      assert calls[1].0 < calls[0].0 + d.wait;
      assert Advance(d1, rest[0].0) == d1;
      assert rest[|rest| - 1] == calls[|calls| - 1];
    }
  }

  /** Once the clock passes the end of a burst, `fn` has run exactly once for
      the whole burst, with the last call's arguments (beyond a timer that
      was already due before the burst began). */
  lemma BurstFiresOnce<A>(d: Debouncer<A>, calls: seq<(int, A)>, later: int)
    requires |calls| > 0 && Burst(calls, d.wait)
    requires later >= calls[|calls| - 1].0 + d.wait
    ensures Advance(Replay(d, calls), later).fired == Advance(d, calls[0].0).fired + [calls[|calls| - 1].1]
    ensures Advance(Replay(d, calls), later).armed.None?
  {
    ReplayBurstArmsLast(d, calls);
  }
}
