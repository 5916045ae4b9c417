/** Peer selection: draw `m` peers without replacement from a lookup result by removing a
    random index from the candidate list and appending the removed peer to the participant
    list, `m` times. */
module Selection {
  import opened Types

  /** The participants drawn, in draw order, and the candidates left over. */
  datatype Picked = Picked(chosen: seq<PeerId>, rest: seq<PeerId>)

  predicate Distinct<T(==)>(s: seq<T>)
  {
    forall i, j :: 0 <= i < j < |s| ==> s[i] != s[j]
  }

  /** `Vec::remove`: takes out the element at `i`; the later elements shift down by one. */
  function RemoveAt<T>(s: seq<T>, i: nat): (r: seq<T>)
    requires i < |s|
    ensures |r| == |s| - 1
    ensures multiset(r) + multiset{s[i]} == multiset(s)
    ensures forall j :: 0 <= j < i ==> r[j] == s[j]
    ensures forall j :: i <= j < |r| ==> r[j] == s[j + 1]
  {
    assert s == s[..i] + [s[i]] + s[i + 1..];
    s[..i] + s[i + 1..]
  }

  /** The selection determined by the random draws: draw `k` removes the candidate at
      `draws[k] % n`, `n` being the number of candidates left. None when the candidates run
      out before `m` draws (the random range `0 .. 0` is empty and the draw panics). */
  function Drawn(peers: seq<PeerId>, draws: seq<nat>, m: nat): Option<Picked>
    requires |draws| >= m
    decreases m
  {
    if m == 0 then Some(Picked([], peers))
    else if |peers| == 0 then None
    else
      var i := draws[0] % |peers|;
      match Drawn(RemoveAt(peers, i), draws[1..], m - 1)
      case None => None
      case Some(p) => Some(Picked([peers[i]] + p.chosen, p.rest))
  }

  /** Selection succeeds exactly when the lookup returned at least `m` peers. */
  lemma {:induction false} DrawnSucceeds(peers: seq<PeerId>, draws: seq<nat>, m: nat)
    requires |draws| >= m
    ensures Drawn(peers, draws, m).Some? <==> |peers| >= m
  {
    if m > 0 && |peers| > 0 {
      DrawnSucceeds(RemoveAt(peers, draws[0] % |peers|), draws[1..], m - 1);
    }
  }

  /** A successful selection picks exactly `m` peers, and the picked peers together with the
      remaining candidates are the lookup result: no entry is picked twice and every picked
      peer came from the result. */
  lemma {:induction false} DrawnPartition(peers: seq<PeerId>, draws: seq<nat>, m: nat)
    requires |draws| >= m
    requires Drawn(peers, draws, m).Some?
    ensures var p := Drawn(peers, draws, m).value;
      |p.chosen| == m && |p.rest| == |peers| - m &&
      multiset(p.chosen) + multiset(p.rest) == multiset(peers)
  {
    if m > 0 {
      var i := draws[0] % |peers|;
      DrawnPartition(RemoveAt(peers, i), draws[1..], m - 1);
    }
  }

  /** Removing one element of a list without duplicates leaves a list without duplicates
      that no longer holds the element. */
  lemma RemoveAtDistinct<T>(s: seq<T>, i: nat)
    requires i < |s| && Distinct(s)
    ensures Distinct(RemoveAt(s, i)) && s[i] !in RemoveAt(s, i)
  {
  }

  lemma ConsDistinct<T>(x: T, s: seq<T>)
    requires Distinct(s) && x !in s
    ensures Distinct([x] + s)
  {
  }

  /** When the lookup result has no duplicates, neither has the participant list. */
  lemma {:induction false} DrawnDistinct(peers: seq<PeerId>, draws: seq<nat>, m: nat)
    requires |draws| >= m
    requires Drawn(peers, draws, m).Some?
    requires Distinct(peers)
    ensures Distinct(Drawn(peers, draws, m).value.chosen)
  {
    if m > 0 {
      var i := draws[0] % |peers|;
      var left := RemoveAt(peers, i);
      var sub := Drawn(left, draws[1..], m - 1).value;
      RemoveAtDistinct(peers, i);
      DrawnDistinct(left, draws[1..], m - 1);
      DrawnPartition(left, draws[1..], m - 1);
      assert peers[i] !in sub.chosen by {
        assert multiset(left)[peers[i]] == 0;
      }
      ConsDistinct(peers[i], sub.chosen);
    }
  }

  function Prefixed(pre: seq<PeerId>, o: Option<Picked>): Option<Picked>
  {
    match o
    case None => None
    case Some(p) => Some(Picked(pre + p.chosen, p.rest))
  }

  /** One iteration of the selection loop, stated on the remaining draws. */
  lemma DrawStep(pre: seq<PeerId>, candidates: seq<PeerId>, draws: seq<nat>, k: nat, m: nat)
    requires k < m <= |draws| && |candidates| > 0
    ensures var i := draws[k] % |candidates|;
      Prefixed(pre, Drawn(candidates, draws[k..], m - k)) ==
      Prefixed(pre + [candidates[i]], Drawn(RemoveAt(candidates, i), draws[k + 1..], m - (k + 1)))
  {
    assert draws[k..][1..] == draws[k + 1..];
    var i := draws[k] % |candidates|;
    var o := Drawn(RemoveAt(candidates, i), draws[k + 1..], m - (k + 1));
    if o.Some? {
      assert pre + ([candidates[i]] + o.value.chosen) == pre + [candidates[i]] + o.value.chosen;
    }
  }

  lemma PrefixedNothing(o: Option<Picked>)
    ensures Prefixed([], o) == o
  {
    if o.Some? {
      assert [] + o.value.chosen == o.value.chosen;
    }
  }

  lemma DrawnNone(pre: seq<PeerId>, candidates: seq<PeerId>, draws: seq<nat>)
    ensures Prefixed(pre, Drawn(candidates, draws, 0)) == Some(Picked(pre, candidates))
  {
    assert pre + [] == pre;
  }

  /** The selection loop: `m` times, remove a random candidate and append it to the
      participant list. None stands for the panic of an empty random range. */
  method SelectPeers(peers: seq<PeerId>, draws: seq<nat>, m: nat) returns (r: Option<Picked>)
    requires |draws| >= m
    ensures r == Drawn(peers, draws, m)
  {
    var candidates := peers;
    var peerMap: seq<PeerId> := [];
    assert draws[0..] == draws;
    PrefixedNothing(Drawn(peers, draws, m));
    for k := 0 to m
      invariant Prefixed(peerMap, Drawn(candidates, draws[k..], m - k)) == Drawn(peers, draws, m)
    {
      if |candidates| == 0 {
        return None;
      }
      var i := draws[k] % |candidates|;
      DrawStep(peerMap, candidates, draws, k, m);
      var peer := candidates[i];
      candidates := RemoveAt(candidates, i);
      peerMap := peerMap + [peer];
    }
    DrawnNone(peerMap, candidates, draws[m..]);
    return Some(Picked(peerMap, candidates));
  }
}
