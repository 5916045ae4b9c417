/** The two timed waits of key generation. Each wait reads events from a broadcast receiver
    until one carries the expected key (the lookup's query id, or the generation-id topic) or
    the timer fires. The race between the receiver and the timer is modelled as a finite
    sequence of events in which `Timeout` marks the timer firing; running out of events also
    means the timer fired. */
module Waits {
  import opened Types

  datatype Event<K> = Timeout | Arrived(key: K, peers: seq<PeerId>)

  /** An event the wait discards and keeps waiting after. */
  predicate Skipped<K(==)>(e: Event<K>, key: K)
  {
    e.Arrived? && e.key != key
  }

  /** Event `i` ends the wait with a result: it carries `key` and every earlier event was discarded. */
  predicate IsFirstMatch<K(==)>(events: seq<Event<K>>, key: K, i: int)
  {
    0 <= i < |events| && events[i].Arrived? && events[i].key == key &&
    forall j :: 0 <= j < i ==> Skipped(events[j], key)
  }

  /** The peers the wait returns, or None when the timer fires first. */
  function FirstArrival<K(==)>(events: seq<Event<K>>, key: K): Option<seq<PeerId>>
  {
    if events == [] then None
    else match events[0]
      case Timeout => None
      case Arrived(k, peers) => if k == key then Some(peers) else FirstArrival(events[1..], key)
  }

  /** The wait returns a result exactly when some event is the first match, and then it
      returns that event's peers. */
  lemma {:induction false} FirstArrivalIsFirstMatch<K>(events: seq<Event<K>>, key: K)
    ensures FirstArrival(events, key).Some? <==> exists i :: IsFirstMatch(events, key, i)
    ensures forall i :: IsFirstMatch(events, key, i) ==> FirstArrival(events, key) == Some(events[i].peers)
  {
    if events != [] && Skipped(events[0], key) {
      var tail := events[1..];
      FirstArrivalIsFirstMatch(tail, key);
      forall i | IsFirstMatch(events, key, i)
        ensures i >= 1 && IsFirstMatch(tail, key, i - 1)
      {
        assert i != 0;
        forall j | 0 <= j < i - 1 ensures Skipped(tail[j], key) {
          assert tail[j] == events[j + 1];
        }
      }
      forall i | IsFirstMatch(tail, key, i) ensures IsFirstMatch(events, key, i + 1) {
        forall j | 0 <= j < i + 1 ensures Skipped(events[j], key) {
          if j > 0 { assert events[j] == tail[j - 1]; }
        }
      }
    } else if events != [] && events[0].Arrived? {
      assert IsFirstMatch(events, key, 0);
      assert !Skipped(events[0], key);
      forall i | IsFirstMatch(events, key, i) ensures i == 0 { }
    } else {
      if events != [] { assert !Skipped(events[0], key); }
      forall i ensures !IsFirstMatch(events, key, i) { }
    }
  }

  /** A timer firing before any matching event ends the wait without a result, whatever
      arrives after it. */
  lemma {:induction false} TimeoutBeforeMatch<K>(events: seq<Event<K>>, key: K, t: nat)
    requires t < |events| && events[t].Timeout?
    requires forall j :: 0 <= j < t ==> Skipped(events[j], key)
    ensures FirstArrival(events, key) == None
  {
    if t > 0 {
      var tail := events[1..];
      forall j | 0 <= j < t - 1 ensures Skipped(tail[j], key) {
        assert tail[j] == events[j + 1];
      }
      TimeoutBeforeMatch(tail, key, t - 1);
    }
  }

  /** The wait loop: discard events whose key differs, stop at the first match or at the timer. */
  method AwaitFirst<K(==)>(events: seq<Event<K>>, key: K) returns (r: Option<seq<PeerId>>)
    ensures r == FirstArrival(events, key)
  {
    var k := 0;
    while k < |events|
      invariant 0 <= k <= |events|
      invariant FirstArrival(events[k..], key) == FirstArrival(events, key)
    {
      assert events[k..][1..] == events[k + 1..];
      match events[k]
      case Timeout =>
        return None;
      case Arrived(received, peers) =>
        if received == key {
          return Some(peers);
        }
      k := k + 1;
    }
    return None;
  }
}
