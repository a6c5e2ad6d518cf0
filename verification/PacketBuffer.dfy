/** The bounded drop-oldest queue between the receive thread and the writer thread. */
module PacketBuffer {
  import opened Bytes
  import opened Wrappers

  function TotalSize(q: seq<bytes>): nat
  {
    if q == [] then 0 else |q[0]| + TotalSize(q[1..])
  }

  /** A packet of the given size may follow the queued packets q without dropping any. */
  predicate HasRoom(q: seq<bytes>, size: nat, capacity: nat, maxBytes: nat)
  {
    q == [] || (|q| < capacity && TotalSize(q) + size <= maxBytes)
  }

  /** How many packets `Push` drops from the front. */
  function Evictions(q: seq<bytes>, size: nat, capacity: nat, maxBytes: nat): (k: nat)
    ensures k <= |q|
  {
    if HasRoom(q, size, capacity, maxBytes) then 0 else 1 + Evictions(q[1..], size, capacity, maxBytes)
  }

  /** `Push` keeps the longest suffix of the queue that leaves room: what it keeps has room, and
      no longer suffix has. */
  lemma {:induction false} EvictsAsFewAsPossible(q: seq<bytes>, size: nat, capacity: nat, maxBytes: nat)
    ensures var k := Evictions(q, size, capacity, maxBytes);
            && HasRoom(q[k..], size, capacity, maxBytes)
            && forall j :: 0 <= j < k ==> !HasRoom(q[j..], size, capacity, maxBytes)
  {
    if HasRoom(q, size, capacity, maxBytes) {
    } else {
      EvictsAsFewAsPossible(q[1..], size, capacity, maxBytes);
      var k := Evictions(q[1..], size, capacity, maxBytes);
      assert q[1..][k..] == q[k + 1..];
      forall j | 0 <= j < k + 1
        ensures !HasRoom(q[j..], size, capacity, maxBytes)
      {
        if j == 0 {
          assert q[0..] == q;
        } else {
          assert q[1..][j - 1..] == q[j..];
        }
      }
    }
  }

  lemma {:induction false} TotalSizeOfSnoc(q: seq<bytes>, p: bytes)
    ensures TotalSize(q + [p]) == TotalSize(q) + |p|
  {
    if q == [] {
    } else {
      TotalSizeOfSnoc(q[1..], p);
      assert (q + [p])[1..] == q[1..] + [p];
    }
  }

  /** Within one `Push`, a queue that had room for its packets still respects both limits,
      except that a single packet larger than the byte limit is kept. */
  lemma PushRespectsLimits(q: seq<bytes>, p: bytes, capacity: nat, maxBytes: nat)
    ensures var q' := q[Evictions(q, |p|, capacity, maxBytes)..] + [p];
            |q'| == 1 || (|q'| <= capacity && TotalSize(q') <= maxBytes)
  {
    var k := Evictions(q, |p|, capacity, maxBytes);
    EvictsAsFewAsPossible(q, |p|, capacity, maxBytes);
    TotalSizeOfSnoc(q[k..], p);
  }

  class PacketBuffer {
    const capacityPackets: nat
    const maxBytes: nat
    var queue: seq<bytes>
    var totalBytes: nat
    var dropped: nat
    var degraded: bool
    ghost var pushes: seq<bytes>
    ghost var pops: nat

    ghost predicate Valid()
      reads this
    {
      && totalBytes == TotalSize(queue)
      && |pushes| == pops + dropped + |queue|
      && queue == pushes[pops + dropped..]
      && (degraded <==> dropped > 0)
      && (|queue| <= 1 || (|queue| <= capacityPackets && totalBytes <= maxBytes))
    }

    constructor (capacityPackets: nat, maxBytes: nat)
      ensures Valid() && this.capacityPackets == capacityPackets && this.maxBytes == maxBytes
      ensures queue == pushes == [] && pops == 0 && dropped == 0
    {
      this.capacityPackets := capacityPackets;
      this.maxBytes := maxBytes;
      queue, totalBytes, dropped, degraded := [], 0, 0, false;
      pushes, pops := [], 0;
    }

    method Push(packet: bytes)
      requires Valid()
      modifies this
      ensures Valid()
      ensures var k := Evictions(old(queue), |packet|, capacityPackets, maxBytes);
              queue == old(queue)[k..] + [packet] && dropped == old(dropped) + k
      ensures pushes == old(pushes) + [packet] && pops == old(pops)
    {
      hide Evictions, HasRoom, TotalSize;
      ghost var q0, a := queue, pops + dropped;
      MakeRoom(|packet|);
      TotalSizeOfSnoc(queue, packet);
      PushRespectsLimits(q0, packet, capacityPackets, maxBytes);
      SuffixOfHistory(pushes, a, Evictions(q0, |packet|, capacityPackets, maxBytes), packet);
      totalBytes := totalBytes + |packet|;
      queue := queue + [packet];
      pushes := pushes + [packet];
    }

    /** The eviction loop of `Push`. */
    method MakeRoom(size: nat)
      requires totalBytes == TotalSize(queue) && (degraded <==> dropped > 0)
      modifies `queue, `totalBytes, `dropped, `degraded
      ensures var k := Evictions(old(queue), size, capacityPackets, maxBytes);
              queue == old(queue)[k..] && dropped == old(dropped) + k
      ensures totalBytes == TotalSize(queue) && (degraded <==> dropped > 0)
    {
      hide Evictions, HasRoom, TotalSize;
      ghost var q0, n := queue, 0;
      ghost var k := Evictions(queue, size, capacityPackets, maxBytes);
      while queue != [] && (|queue| >= capacityPackets || totalBytes + size > maxBytes)
        invariant n <= |q0| && queue == q0[n..]
        invariant totalBytes == TotalSize(queue) && dropped == old(dropped) + n
        invariant n + Evictions(queue, size, capacityPackets, maxBytes) == k
        invariant degraded <==> dropped > 0
        decreases |queue|
      {
        EvictionsStep(queue, size, capacityPackets, maxBytes);
        TailIsLighter(queue);
        assert q0[n..][1..] == q0[n + 1..];
        totalBytes := totalBytes - |queue[0]|;
        queue := queue[1..];
        dropped := dropped + 1;
        degraded := true;
        n := n + 1;
      }
      EvictionsStep(queue, size, capacityPackets, maxBytes);
    }

    method Pop() returns (packet: Option<bytes>)
      requires Valid()
      modifies this
      ensures Valid() && dropped == old(dropped) && pushes == old(pushes)
      ensures old(queue) == [] ==> packet == None && queue == [] && pops == old(pops)
      ensures old(queue) != [] ==>
                packet == Some(old(queue)[0]) && queue == old(queue)[1..] && pops == old(pops) + 1
    {
      if queue == [] {
        return None;
      }
      packet := Some(queue[0]);
      TailIsLighter(queue);
      queue := queue[1..];
      totalBytes := totalBytes - |packet.value|;
      pops := pops + 1;
    }
  }

  lemma TailIsLighter(q: seq<bytes>)
    requires q != []
    ensures TotalSize(q) == |q[0]| + TotalSize(q[1..])
  {}

  lemma EvictionsStep(q: seq<bytes>, size: nat, capacity: nat, maxBytes: nat)
    ensures Evictions(q, size, capacity, maxBytes) ==
      if q == [] || (|q| < capacity && TotalSize(q) + size <= maxBytes) then 0
      else 1 + Evictions(q[1..], size, capacity, maxBytes)
  {}

  lemma SuffixOfHistory(history: seq<bytes>, a: nat, k: nat, p: bytes)
    requires a + k <= |history|
    ensures (history + [p])[a + k..] == history[a..][k..] + [p]
  {}
}
