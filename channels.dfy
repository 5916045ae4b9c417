/** The outgoing side of the network facade as a coordinator sees it: the subscription
    channel, the direct-message channel and the topic-publish channel. Every send is
    recorded, in the order it is made, in one append-only log. */
module Channels {
  import opened Types

  class Outbox {
    /** Every send made so far, oldest first. */
    var log: seq<Action>

    constructor ()
      ensures log == []
    {
      log := [];
    }

    /** Asks the network to subscribe to a topic. */
    method Subscribe(topic: Topic)
      modifies this
      ensures log == old(log) + [Subscription(topic)]
    {
      log := log + [Subscription(topic)];
    }

    /** Sends a payload directly to one peer. */
    method SendDirect(peer: PeerId, payload: Payload)
      modifies this
      ensures log == old(log) + [DirectMessage(peer, payload)]
    {
      log := log + [DirectMessage(peer, payload)];
    }

    /** Publishes a payload on a topic. */
    method Publish(topic: Topic, payload: Payload)
      modifies this
      ensures log == old(log) + [Broadcast(topic, payload)]
    {
      log := log + [Broadcast(topic, payload)];
    }
  }
}
