/**
 The release condition of the long-poll handler. A request carries the last
 version its client saw; it is answered as soon as the room's counter has
 moved past that version, and otherwise waits on the room's condition and
 re-checks after every notification.
 */
module LongPoll {

  /** The guard of the handler's wait loop: the client already has this version. */
  predicate MustWait(counter: int, lastSeen: int)
  {
    counter <= lastSeen
  }

  datatype Outcome = Released(wake: nat) | StillWaiting

  /**
   The wait loop. `counters[0]` is the room's counter when the request
   arrives and `counters[k]` the counter it reads after the k-th
   notification; the notifications themselves are outside the model, so the
   sequence stands for whatever the room did meanwhile. The result names the
   check at which the request is released, or says that it is still waiting
   when the observed wake-ups run out (the connection may close then).
   */
  method Await(lastSeen: int, counters: seq<int>) returns (o: Outcome)
    ensures o.Released? ==> o.wake < |counters| && !MustWait(counters[o.wake], lastSeen)
    ensures o.Released? ==> forall k :: 0 <= k < o.wake ==> MustWait(counters[k], lastSeen)
    ensures o.StillWaiting? <==> forall k :: 0 <= k < |counters| ==> MustWait(counters[k], lastSeen)
    ensures |counters| > 0 && !MustWait(counters[0], lastSeen) ==> o == Released(0)
  {
    var k := 0;
    while k < |counters| && MustWait(counters[k], lastSeen)
      invariant 0 <= k <= |counters|
      invariant forall j :: 0 <= j < k ==> MustWait(counters[j], lastSeen)
    {
      k := k + 1;
    }
    if k < |counters| {
      o := Released(k);
    } else {
      o := StillWaiting;
    }
  }
}
