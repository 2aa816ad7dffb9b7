/**
  The gift-alert queue of the session: gifts worth diamonds wait in a FIFO
  queue; whenever no alert is on screen the head of the queue is shown, and
  an alert leaves the screen when its 5-second timer fires.
 */
module Alerts {
  import opened Types

  datatype AlertState = AlertState(queue: seq<GiftMessage>, current: Option<GiftMessage>, visible: bool)

  const NoAlerts := AlertState([], None, false)

  /** An alert is only ever visible with a gift to show. */
  predicate Consistent(a: AlertState) {
    a.visible ==> a.current.Some?
  }

  /** What the two effects leave behind: an alert on screen, or nothing waiting. */
  predicate Settled(a: AlertState) {
    Consistent(a) && (!a.visible ==> a.queue == [])
  }

  /** The alert on screen, then the gifts still waiting, in the order they will be shown. */
  function Showing(a: AlertState): seq<GiftMessage>
    requires Consistent(a)
  {
    (if a.visible then [a.current.value] else []) + a.queue
  }

  /** The dequeue effect: with nothing on screen, the head of the queue is shown. */
  function Pump(a: AlertState): (r: AlertState)
    requires Consistent(a)
    ensures Settled(r)
    ensures Showing(r) == Showing(a)
    ensures a.visible ==> r == a
  {
    if !a.visible && |a.queue| > 0 then AlertState(a.queue[1..], Some(a.queue[0]), true)
    else a
  }

  /** A gift joins the queue only when it is worth diamonds. */
  function Enqueue(a: AlertState, g: GiftMessage): (r: AlertState)
    requires Consistent(a)
    ensures g.diamondCount > 0 ==> Settled(r)
    ensures g.diamondCount <= 0 ==> r == a
    ensures Showing(r) == Showing(a) + (if g.diamondCount > 0 then [g] else [])
  {
    if g.diamondCount > 0 then Pump(a.(queue := a.queue + [g])) else a
  }

  /** The 5-second timer of the alert on screen fires; the next gift, if any, takes its place. */
  function Expire(a: AlertState): (r: AlertState)
    requires Consistent(a)
    ensures a.visible ==> Settled(r)
    ensures !a.visible ==> r == a
    ensures Showing(r) == if a.visible then Showing(a)[1..] else Showing(a)
  {
    if a.visible then Pump(a.(visible := false)) else a
  }

  function ExpireTimes(a: AlertState, n: nat): (r: AlertState)
    requires Settled(a)
    ensures Settled(r)
    decreases n
  {
    if n == 0 then a else ExpireTimes(Expire(a), n - 1)
  }

  /**
    First in, first out: after `k` expiries the screen shows the `k`-th gift
    that was waiting, and the rest keep their order.
   */
  lemma {:induction false} GiftsShownInOrder(a: AlertState, k: nat)
    requires Settled(a) && k <= |Showing(a)|
    ensures Showing(ExpireTimes(a, k)) == Showing(a)[k..]
    ensures k < |Showing(a)| ==> ExpireTimes(a, k).visible && ExpireTimes(a, k).current == Some(Showing(a)[k])
    decreases k
  {
    if k > 0 {
      assert a.visible;
      var b := Expire(a);
      assert Showing(b) == Showing(a)[1..];
      GiftsShownInOrder(b, k - 1);
      assert ExpireTimes(a, k) == ExpireTimes(b, k - 1);
      assert Showing(a)[1..][k - 1..] == Showing(a)[k..];
      assert k < |Showing(a)| ==> Showing(b)[k - 1] == Showing(a)[k];
    } else if |Showing(a)| > 0 {
      assert a.visible;
    }
  }
}
