/** Index arithmetic of the generated kernel and its launch: which threads
    exist, which integration points each thread's grid-stride loop visits, and
    where the component-major device vectors keep component `comp` of point `i`. */
module DeviceLayout {
  import opened RunningTotals

  /** The entry function launches `<<<256,256>>>`: 256 blocks of 256 threads. */
  const GridDim: nat := 256
  const BlockDim: nat := 256

  /** Threads in the grid; also the loop stride `blockDim.x*gridDim.x`. */
  const Lanes: nat := GridDim * BlockDim

  /** `tid = blockIdx.x*blockDim.x+threadIdx.x`. */
  function ThreadId(block: nat, thread: nat): nat {
    block * BlockDim + thread
  }

  /** Thread ids number the threads of the grid one to one: each (block,
      thread) pair gets a distinct lane below `Lanes`, and every lane belongs
      to exactly the pair it decodes to. */
  lemma ThreadIdBijective(block: nat, thread: nat, lane: nat)
    ensures block < GridDim && thread < BlockDim ==>
              ThreadId(block, thread) < Lanes &&
              ThreadId(block, thread) / BlockDim == block &&
              ThreadId(block, thread) % BlockDim == thread
    ensures lane < Lanes ==>
              lane / BlockDim < GridDim && lane % BlockDim < BlockDim &&
              ThreadId(lane / BlockDim, lane % BlockDim) == lane
  {
    if block < GridDim && thread < BlockDim {
      DivModUnique(ThreadId(block, thread), BlockDim, block, thread);
    }
  }

  lemma MulMonotone(a: nat, b: nat, d: nat)
    requires a <= b
    ensures a * d <= b * d
  {
    assert b * d == a * d + (b - a) * d;
  }

  /** Euclidean division is determined by quotient and remainder. */
  lemma DivModUnique(x: nat, d: nat, q: nat, r: nat)
    requires 0 < d && r < d && x == q * d + r
    ensures x / d == q && x % d == r
  {
    var q', r' := x / d, x % d;
    assert x == q' * d + r';
    if q' < q {
      MulMonotone(q' + 1, q, d);
    } else if q < q' {
      MulMonotone(q + 1, q', d);
    }
  }

  /** The points thread `tid` visits in
      `for (int i = tid; i < nip; i += blockDim.x*gridDim.x)`, in visiting order. */
  function LaneVisits(tid: nat, nip: nat): seq<nat>
    decreases nip - tid
  {
    if tid < nip then [tid] + LaneVisits(tid + Lanes, nip) else []
  }

  lemma ConsAssoc(a: seq<nat>, x: nat, b: seq<nat>)
    ensures a + [x] + b == a + ([x] + b)
  {
  }

  /** One thread's grid-stride loop, as the generated kernel runs it. */
  method RunLane(tid: nat, nip: nat) returns (visited: seq<nat>)
    ensures visited == LaneVisits(tid, nip)
  {
    visited := [];
    var i := tid;
    while i < nip
      invariant visited + LaneVisits(i, nip) == LaneVisits(tid, nip)
      decreases nip - i
    {
      ConsAssoc(visited, i, LaneVisits(i + Lanes, nip));
      visited := visited + [i];
      i := i + Lanes;
    }
    assert visited + [] == visited;
  }

  /** A thread visits exactly the points below `nip` that are congruent to
      its id modulo the stride, in strictly increasing order. */
  lemma {:induction false} LaneVisitsExactly(tid: nat, nip: nat)
    ensures forall x :: x in LaneVisits(tid, nip) <==> tid <= x < nip && x % Lanes == tid % Lanes
    ensures forall a, b :: 0 <= a < b < |LaneVisits(tid, nip)| ==>
              LaneVisits(tid, nip)[a] < LaneVisits(tid, nip)[b]
    decreases nip - tid
  {
    if tid < nip {
      var rest := LaneVisits(tid + Lanes, nip);
      LaneVisitsExactly(tid + Lanes, nip);
      assert (tid + Lanes) % Lanes == tid % Lanes;
      forall x | tid < x < tid + Lanes
        ensures x % Lanes != tid % Lanes
      {
      }
      forall b | 0 < b < |LaneVisits(tid, nip)|
        ensures tid < LaneVisits(tid, nip)[b]
      {
        assert LaneVisits(tid, nip)[b] in rest;
      }
    }
  }

  /** Grid-stride coverage: every point below `nip` is visited by exactly
      one thread of the grid, the one whose id is the point modulo the
      stride; with no points no thread iterates. */
  lemma GridCoversEachPointOnce(x: nat, tid: nat, nip: nat)
    requires tid < Lanes
    ensures x < nip ==> x in LaneVisits(x % Lanes, nip)
    ensures x in LaneVisits(tid, nip) ==> x < nip && tid == x % Lanes
    ensures nip == 0 ==> LaneVisits(tid, nip) == []
  {
    LaneVisitsExactly(x % Lanes, nip);
    LaneVisitsExactly(tid, nip);
  }

  /** Where a component-major vector with stride `dist` keeps component
      `comp` of point `i`: the kernel's `i + comp*dist`. */
  function BatchedIndex(i: nat, comp: nat, dist: nat): nat {
    i + comp * dist
  }

  /** With stride `nip`, the batched index is a bijection between
      [0, nip) x [0, total) and [0, total*nip). */
  lemma BatchedIndexBijective(i: nat, comp: nat, nip: nat, total: nat, x: nat)
    ensures i < nip && comp < total ==>
              BatchedIndex(i, comp, nip) < total * nip &&
              BatchedIndex(i, comp, nip) % nip == i &&
              BatchedIndex(i, comp, nip) / nip == comp
    ensures x < total * nip ==>
              x / nip < total && BatchedIndex(x % nip, x / nip, nip) == x
  {
    if i < nip && comp < total {
      DivModUnique(BatchedIndex(i, comp, nip), nip, comp, i);
      MulMonotone(comp + 1, total, nip);
    }
    if x < total * nip {
      if total <= x / nip {
        MulMonotone(total, x / nip, nip);
      }
    }
  }

  /** The accessor bound to trial proxy `p` reads, for a point below `nip`
      and a component below the proxy's dimension, an entry of the input
      vector that lies inside that proxy's own slab: the component it lands
      in is owned by `p` and nobody else. */
  lemma AccessorReadsOwnSlab(ds: seq<nat>, p: nat, comp: nat, i: nat, nip: nat)
    requires p < |ds| && comp < ds[p] && i < nip
    ensures Offsets(ds)[p] + ds[p] <= Sum(ds)
    ensures BatchedIndex(i, comp + Offsets(ds)[p], nip) < Sum(ds) * nip
    ensures BatchedIndex(i, comp + Offsets(ds)[p], nip) / nip == comp + Offsets(ds)[p]
    ensures Owner(ds, comp + Offsets(ds)[p]) == p
  {
    RangeWithinTotal(ds, p);
    BatchedIndexBijective(i, comp + Offsets(ds)[p], nip, Sum(ds), 0);
    OwnerUnique(ds, comp + Offsets(ds)[p], p);
  }
}
