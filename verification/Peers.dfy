/** Bindings between socket arrays: windows of indices that are forwarded to peer arrays. */
module Peers {
  import opened Wrappers

  /** Indices from `offset` on go to a peer with `limit` sockets, starting at its index `peerOffset`. */
  datatype Peer = Peer(offset: nat, limit: nat, peerOffset: nat)

  const SIZE_MAX: nat := 0xFFFF_FFFF_FFFF_FFFF

  /** The last index of a window, saturating at the largest index. */
  function LastSafe(start: nat, length: nat): (last: nat)
    requires start <= SIZE_MAX && length <= SIZE_MAX
    ensures length > 0 ==> start <= last <= SIZE_MAX
  {
    if length == 0 then start else if SIZE_MAX - start < length then SIZE_MAX else start + length - 1
  }

  /** The index belongs to the window: one of `limit` consecutive ones that exist. */
  predicate InWindow(p: Peer, i: int) {
    p.offset <= i < p.offset + p.limit && i <= SIZE_MAX
  }

  lemma WindowEndsAtLast(p: Peer, i: int)
    requires Plausible(p)
    ensures InWindow(p, i) <==> p.offset <= i <= LastSafe(p.offset, p.limit)
  {
  }

  predicate Plausible(p: Peer) {
    p.offset <= SIZE_MAX && 0 < p.limit <= SIZE_MAX
  }

  /** Some index from `start` to `end` lies in the window of the peer. */
  ghost predicate Meets(p: Peer, start: nat, end: nat) {
    exists i: nat :: start <= i <= end && InWindow(p, i)
  }

  class SocketArray {
    const size: nat
    /** The peers in ascending order of their offsets. */
    var peers: seq<Peer>

    constructor (size: nat)
      requires size <= SIZE_MAX
      ensures this.size == size && peers == [] && Valid()
    {
      this.size, peers := size, [];
    }

    ghost predicate Valid()
      reads this
    {
      && size <= SIZE_MAX
      && (forall i :: 0 <= i < |peers| ==> Plausible(peers[i]) && peers[i].offset < size)
      && (forall i, j :: 0 <= i < j < |peers| ==> LastSafe(peers[i].offset, peers[i].limit) < peers[j].offset)
    }

    /** The first peer whose window begins behind `end`. */
    method UpperBound(end: nat) returns (k: nat)
      requires Valid()
      ensures k <= |peers|
      ensures forall i :: 0 <= i < |peers| ==> (i < k <==> peers[i].offset <= end)
    {
      k := 0;
      while k < |peers| && peers[k].offset <= end
        invariant k <= |peers| && forall i :: 0 <= i < k ==> peers[i].offset <= end
      {
        k := k + 1;
      }
    }

    /** One step back from the upper bound finds the last window that meets the interval, and none only if no
    window does. */
    method FindPeer(start: nat, end: nat) returns (found: Option<Peer>)
      requires Valid() && start <= end <= SIZE_MAX
      ensures found.Some? ==> found.value in peers && Meets(found.value, start, end)
      ensures found.Some? ==> forall p :: p in peers && Meets(p, start, end) ==> p.offset <= found.value.offset
      ensures found.None? ==> forall p :: p in peers ==> !Meets(p, start, end)
    {
      var k := UpperBound(end);
      MeetsAtBound(peers, start, end, k);
      if k > 0 {
        var peer := peers[k - 1];
        if start <= LastSafe(peer.offset, peer.limit) {
          return Some(peer);
        }
      }
      found := None;
    }

    /** Bind a window to a peer. */
    method AddPeer(limit: nat, offset: nat, peerOffset: nat) returns (ok: bool)
      requires Valid() && limit <= SIZE_MAX
      modifies this`peers
      ensures Valid()
      ensures ok <==> (offset < size && peerOffset < limit &&
                       forall p :: p in old(peers) ==> !Meets(p, offset, LastSafe(offset, limit)))
      ensures !ok ==> peers == old(peers)
      ensures ok ==> forall p :: p in peers <==> p in old(peers) || p == Peer(offset, limit, peerOffset)
      ensures ok ==> |peers| == |old(peers)| + 1
    {
      if offset >= size || peerOffset >= limit {
        return false;
      }
      var last := LastSafe(offset, limit);
      var overlap := FindPeer(offset, last);
      if overlap.Some? {
        return false;
      }
      var k := UpperBound(last);
      InsertBetween(peers, Peer(offset, limit, peerOffset), k);
      peers := peers[..k] + [Peer(offset, limit, peerOffset)] + peers[k..];
      ok := true;
    }

    /** The peer index that a new socket is bound to. The window is as long as the peer has sockets, so it reaches
    beyond the peer's last socket when it does not start at its first. */
    method PeerIndex(idx: nat) returns (target: Option<(Peer, nat)>)
      requires Valid() && idx < size
      ensures target.None? <==> forall p :: p in peers ==> !Meets(p, idx, idx)
      ensures target.Some? ==>
        var (p, i) := target.value;
        && p in peers && Meets(p, idx, idx) && i - p.peerOffset == idx - p.offset
        && (i < p.limit <==> idx - p.offset < p.limit - p.peerOffset)
    {
      var info := FindPeer(idx, idx);
      if info.None? {
        return None;
      }
      target := Some((info.value, idx - info.value.offset + info.value.peerOffset));
    }
  }

  ghost predicate Ordered(peers: seq<Peer>) {
    && (forall i :: 0 <= i < |peers| ==> Plausible(peers[i]))
    && (forall i, j :: 0 <= i < j < |peers| ==> LastSafe(peers[i].offset, peers[i].limit) < peers[j].offset)
  }

  /** No index is bound twice. */
  lemma WindowsAreDisjoint(peers: seq<Peer>, i: nat, j: nat, idx: int)
    requires Ordered(peers) && i < |peers| && j < |peers| && InWindow(peers[i], idx) && InWindow(peers[j], idx)
    ensures i == j
  {
    WindowEndsAtLast(peers[i], idx);
    WindowEndsAtLast(peers[j], idx);
  }

  lemma MeetsIff(p: Peer, start: nat, end: nat)
    requires Plausible(p) && start <= end
    ensures Meets(p, start, end) <==> p.offset <= end && start <= LastSafe(p.offset, p.limit)
  {
    if p.offset <= end && start <= LastSafe(p.offset, p.limit) {
      var i := if start < p.offset then p.offset else start;
      assert start <= i <= end && InWindow(p, i);
    }
  }

  lemma MeetsAtBound(peers: seq<Peer>, start: nat, end: nat, k: nat)
    requires Ordered(peers) && start <= end && k <= |peers|
    requires forall i :: 0 <= i < |peers| ==> (i < k <==> peers[i].offset <= end)
    ensures k > 0 ==> (Meets(peers[k - 1], start, end) <==> start <= LastSafe(peers[k - 1].offset, peers[k - 1].limit))
    ensures forall i :: 0 <= i < |peers| && Meets(peers[i], start, end) ==>
      k > 0 && peers[i].offset <= peers[k - 1].offset && Meets(peers[k - 1], start, end)
  {
    if k > 0 {
      MeetsIff(peers[k - 1], start, end);
    }
    forall i | 0 <= i < |peers| && Meets(peers[i], start, end)
      ensures k > 0 && peers[i].offset <= peers[k - 1].offset && Meets(peers[k - 1], start, end)
    {
      MeetsIff(peers[i], start, end);
    }
  }

  lemma InsertBetween(peers: seq<Peer>, p: Peer, k: nat)
    requires Ordered(peers) && Plausible(p) && k <= |peers|
    requires forall i :: 0 <= i < |peers| ==> (i < k <==> peers[i].offset <= LastSafe(p.offset, p.limit))
    requires forall q :: q in peers ==> !Meets(q, p.offset, LastSafe(p.offset, p.limit))
    ensures Ordered(peers[..k] + [p] + peers[k..])
    ensures forall q :: q in peers[..k] + [p] + peers[k..] <==> q in peers || q == p
  {
    var n := peers[..k] + [p] + peers[k..];
    assert peers == peers[..k] + peers[k..];
    forall i | 0 <= i < k ensures LastSafe(peers[i].offset, peers[i].limit) < p.offset {
      MeetsIff(peers[i], p.offset, LastSafe(p.offset, p.limit));
      assert peers[i] in peers;
    }
    forall i, j | 0 <= i < j < |n| ensures LastSafe(n[i].offset, n[i].limit) < n[j].offset {
      if i < k && j < k {
        assert n[i] == peers[i] && n[j] == peers[j];
      }
    }
  }
}
