/** The round-robin choice of a backend node for each shorten request. */
module Dispatch {

  /** Go's int32, the type of currentNodeIndex and of the port computed from it. */
  newtype int32 = x: int | -0x8000_0000 <= x < 0x8000_0000

  const NumNodes: nat := 3
  /** Node i listens on port 8081 + i. */
  const FirstNodePort: nat := 8081

  /** One step of the counter: (index + 1) % numNodes. */
  function Advance(index: nat): (next: nat)
    ensures next < NumNodes
    ensures index < NumNodes - 1 ==> next == index + 1
    ensures index == NumNodes - 1 ==> next == 0
  {
    (index + 1) % NumNodes
  }

  /** The ports handed out by k dispatches starting with the counter at index. */
  function PortsFrom(index: nat, k: nat): seq<int>
    decreases k
  {
    if k == 0 then [] else [FirstNodePort + index] + PortsFrom(Advance(index), k - 1)
  }

  /** Dispatch j (counting from 0) goes to the node (index + j) mod 3. */
  lemma {:induction false} PortsCycle(index: nat, k: nat, j: nat)
    requires index < NumNodes && j < k
    ensures |PortsFrom(index, k)| == k
    ensures PortsFrom(index, k)[j] == FirstNodePort + (index + j) % NumNodes
    decreases k
  {
    if j == 0 {
      PortsLength(index, k);
    } else {
      PortsCycle(Advance(index), k - 1, j - 1);
      assert (Advance(index) + (j - 1)) % NumNodes == (index + j) % NumNodes;
    }
  }

  lemma {:induction false} PortsLength(index: nat, k: nat)
    ensures |PortsFrom(index, k)| == k
    decreases k
  {
    if k > 0 {
      PortsLength(Advance(index), k - 1);
    }
  }

  /** From a fresh start, k + 1 dispatches are k dispatches and one more to
      node k mod 3: the ports cycle 8081, 8082, 8083, 8081, ... */
  lemma PortsExtend(k: nat)
    ensures PortsFrom(0, k + 1) == PortsFrom(0, k) + [FirstNodePort + k % NumNodes]
  {
    PortsLength(0, k);
    PortsLength(0, k + 1);
    var longer, extended := PortsFrom(0, k + 1), PortsFrom(0, k) + [FirstNodePort + k % NumNodes];
    forall j | 0 <= j < k + 1 ensures longer[j] == extended[j] {
      PortsCycle(0, k + 1, j);
      if j < k {
        PortsCycle(0, k, j);
      }
    }
  }

  /** The global currentNodeIndex and the critical section that reads and
      advances it. The mutex only makes the step atomic, so one object with
      sequential methods is an exact model. */
  class RoundRobin {
    var currentNodeIndex: int32
    /** Every port handed out so far, in order. */
    ghost var Dispatched: seq<int>

    ghost predicate Valid()
      reads this
    {
      0 <= currentNodeIndex as int < NumNodes &&
      currentNodeIndex as int == |Dispatched| % NumNodes &&
      Dispatched == PortsFrom(0, |Dispatched|)
    }

    /** Go's zero value: the counter starts at 0. */
    constructor ()
      ensures Valid()
      ensures currentNodeIndex == 0 && Dispatched == []
    {
      currentNodeIndex := 0;
      Dispatched := [];
    }

    /** The port of the chosen node, and the counter moved on by one. */
    method NextPort() returns (port: int32)
      requires Valid()
      modifies this
      ensures Valid()
      ensures port as int == FirstNodePort + old(currentNodeIndex) as int
      ensures currentNodeIndex as int == Advance(old(currentNodeIndex) as int)
      ensures Dispatched == old(Dispatched) + [port as int]
      ensures port as int == FirstNodePort + |old(Dispatched)| % NumNodes
    {
      port := FirstNodePort as int32 + currentNodeIndex;
      currentNodeIndex := (currentNodeIndex + 1) % NumNodes as int32;
      PortsExtend(|Dispatched|);
      Dispatched := Dispatched + [port as int];
    }
  }
}
