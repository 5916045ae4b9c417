/** The distributed-key-generation coordinator: wait for the peer lookup, draw the
    participants, subscribe to the session topic, invite every participant, wait for the
    join confirmation, check the responders and start round one. */
module Generation {
  import opened Types
  import opened Ids
  import opened Waits
  import opened Selection
  import opened Channels

  /** The invitations, in send order: invitation `k` goes to the `k`-th participant and
      carries its 1-based position, cast to 16 bits. */
  function Invitations(generationId: string, inviter: PeerId, peerMap: seq<PeerId>,
                       listeners: seq<Multiaddr>): (r: seq<Action>)
    ensures |r| == |peerMap|
    ensures forall k :: 0 <= k < |r| ==>
      && r[k].DirectMessage? && r[k].peer == peerMap[k]
      && r[k].payload.JoinGen? && Header(r[k].payload) == "JOIN_GEN "
      && r[k].payload.generationId == generationId
      && r[k].payload.inviter == inviter
      && r[k].payload.listeners == listeners
    ensures |peerMap| < 0x1_0000 ==> forall k :: 0 <= k < |r| ==> r[k].payload.index as int == k + 1
  {
    seq(|peerMap|, k requires 0 <= k < |peerMap| =>
      DirectMessage(peerMap[k], JoinGen(generationId, inviter, AsUint16(k + 1), listeners)))
  }

  /** The invitation loop: for each position `count` in `1 ..= |peerMap|`, send JOIN_GEN to
      the participant at `count - 1`. */
  method SendInvitations(out: Outbox, generationId: string, inviter: PeerId,
                         peerMap: seq<PeerId>, listeners: seq<Multiaddr>)
    modifies out
    ensures out.log == old(out.log) + Invitations(generationId, inviter, peerMap, listeners)
  {
    ghost var all := Invitations(generationId, inviter, peerMap, listeners);
    for count := 1 to |peerMap| + 1
      invariant out.log == old(out.log) + all[..count - 1]
    {
      var peer := peerMap[count - 1];
      out.SendDirect(peer, JoinGen(generationId, inviter, AsUint16(count), listeners));
      assert all[..count] == all[..count - 1] + [all[count - 1]];
    }
    assert all[..|peerMap|] == all;
  }

  /** Every responder is one of the selected participants. */
  predicate AllSelected(responses: seq<PeerId>, peerMap: seq<PeerId>)
  {
    forall i :: 0 <= i < |responses| ==> responses[i] in peerMap
  }

  /** The validation loop: reject at the first responder that was not selected. */
  method Validate(responses: seq<PeerId>, peerMap: seq<PeerId>) returns (ok: bool)
    ensures ok <==> AllSelected(responses, peerMap)
  {
    for i := 0 to |responses|
      invariant forall j :: 0 <= j < i ==> responses[j] in peerMap
    {
      if responses[i] !in peerMap {
        return false;
      }
    }
    return true;
  }

  /** One generation run. The random source supplies `idDraws` (the generation id) and
      `pickDraws` (the participant draws); `lookups` and `joins` are what the lookup-result
      and subscription receivers deliver before their timers fire. */
  method Generate(out: Outbox, maxSigners: nat, peerId: PeerId, listeners: seq<Multiaddr>,
                  queryId: QueryId, idDraws: seq<nat>, lookups: seq<Event<QueryId>>,
                  pickDraws: seq<nat>, joins: seq<Event<Topic>>)
    returns (r: Outcome)
    requires 0 < maxSigners
    requires |idDraws| >= IdLength && |pickDraws| >= maxSigners
    modifies out
    // A lookup timeout fails the run before anything is sent.
    ensures FirstArrival(lookups, queryId).None? ==>
      r == Failed(TimedOut) && out.log == old(out.log)
    // Too few peers found: the random draw over an empty range panics, nothing is sent.
    ensures FirstArrival(lookups, queryId).Some? && |FirstArrival(lookups, queryId).value| < maxSigners ==>
      r == Panicked && out.log == old(out.log)
    // Otherwise: subscribe, then one invitation per participant, then GEN_R1 only when the
    // join confirmation arrives in time and names no foreign peer.
    ensures FirstArrival(lookups, queryId).Some? && |FirstArrival(lookups, queryId).value| >= maxSigners ==>
      var generationId := RandomId(idDraws);
      var picked := Drawn(FirstArrival(lookups, queryId).value, pickDraws, maxSigners);
      picked.Some? &&
      (var invited := old(out.log) + [Subscription(generationId)] +
                      Invitations(generationId, peerId, picked.value.chosen, listeners);
       match FirstArrival(joins, generationId)
       case None => r == Failed(TimedOut) && out.log == invited
       case Some(responses) =>
         if AllSelected(responses, picked.value.chosen) then
           r == Done && out.log == invited + [Broadcast(generationId, GenR1)]
         else
           r == Failed(InvalidPeer) && out.log == invited)
  {
    var generationId := RandomId(idDraws);

    var found := AwaitFirst(lookups, queryId);
    if found.None? {
      return Failed(TimedOut);
    }

    DrawnSucceeds(found.value, pickDraws, maxSigners);
    var picked := SelectPeers(found.value, pickDraws, maxSigners);
    if picked.None? {
      return Panicked;
    }
    var peerMap := picked.value.chosen;

    out.Subscribe(generationId);
    SendInvitations(out, generationId, peerId, peerMap, listeners);

    var responses := AwaitFirst(joins, generationId);
    if responses.None? {
      return Failed(TimedOut);
    }

    var valid := Validate(responses.value, peerMap);
    if !valid {
      return Failed(InvalidPeer);
    }

    out.Publish(generationId, GenR1);
    return Done;
  }
}
