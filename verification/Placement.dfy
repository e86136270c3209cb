/**
  * Automatic placement: a machine goes to the online node with the most free memory, memory
  * counted with the node's overcommit factor.
  */
module Placement {
  import opened Basics

  datatype Node = Node(memoryMb: nat, memOvercommit: real, vms: seq<nat>)

  function Sum(sizes: seq<nat>): nat {
    if sizes == [] then 0 else Sum(sizes[..|sizes| - 1]) + sizes[|sizes| - 1]
  }

  function Capacity(node: Node): real { node.memoryMb as real * node.memOvercommit }

  function Free(node: Node): real { Capacity(node) - Sum(node.vms) as real }

  // ---------------------------------------------------------------------------
  // pickNode

  datatype Candidate = Candidate(index: nat, freeMb: real)

  function FreeMb(nodes: seq<Node>): (r: seq<real>)
    ensures |r| == |nodes| && forall i :: 0 <= i < |r| ==> r[i] == Free(nodes[i])
  {
    seq(|nodes|, i requires 0 <= i < |nodes| => Free(nodes[i]))
  }

  /** The nodes from i on that have room, in their order. */
  function Candidates(freeMb: seq<real>, memoryMb: real, i: nat): seq<Candidate>
    requires i <= |freeMb|
    decreases |freeMb| - i
  {
    if i == |freeMb| then []
    else (if freeMb[i] >= memoryMb then [Candidate(i, freeMb[i])] else []) + Candidates(freeMb, memoryMb, i + 1)
  }

  /** Puts a candidate before the first that has no more free memory. */
  function Insert(c: Candidate, sorted: seq<Candidate>): (r: seq<Candidate>)
    ensures multiset(r) == multiset(sorted) + multiset{c}
  {
    if sorted == [] || c.freeMb >= sorted[0].freeMb then
      [c] + sorted
    else
      assert sorted == [sorted[0]] + sorted[1..];
      [sorted[0]] + Insert(c, sorted[1..])
  }

  /** The stable sort by falling free memory. */
  function SortByFree(candidates: seq<Candidate>): (r: seq<Candidate>)
    ensures multiset(r) == multiset(candidates)
  {
    if candidates == [] then []
    else
      assert candidates == [candidates[0]] + candidates[1..];
      Insert(candidates[0], SortByFree(candidates[1..]))
  }

  /** The index of the node pickNode returns, None for its exception. */
  function PickNode(nodes: seq<Node>, memoryMb: nat): Option<nat> {
    var candidates := SortByFree(Candidates(FreeMb(nodes), memoryMb as real, 0));
    if candidates == [] then None else Some(candidates[0].index)
  }

  predicate Falling(s: seq<Candidate>) {
    forall i, j :: 0 <= i < j < |s| ==> s[i].freeMb >= s[j].freeMb
  }

  function OfFree(s: seq<Candidate>, freeMb: real): seq<Candidate> {
    if s == [] then [] else (if s[0].freeMb == freeMb then [s[0]] else []) + OfFree(s[1..], freeMb)
  }

  lemma OfFreeCons(c: Candidate, rest: seq<Candidate>, freeMb: real)
    ensures OfFree([c] + rest, freeMb) == (if c.freeMb == freeMb then [c] else []) + OfFree(rest, freeMb)
  {
    assert ([c] + rest)[1..] == rest;
  }

  lemma FallingCons(c: Candidate, rest: seq<Candidate>)
    requires Falling(rest) && (rest != [] ==> c.freeMb >= rest[0].freeMb)
    ensures Falling([c] + rest)
  {
  }

  lemma {:induction false} InsertSorts(c: Candidate, sorted: seq<Candidate>)
    requires Falling(sorted)
    ensures Falling(Insert(c, sorted))
  {
    if sorted == [] || c.freeMb >= sorted[0].freeMb {
      FallingCons(c, sorted);
    } else {
      InsertSorts(c, sorted[1..]);
      FallingCons(sorted[0], Insert(c, sorted[1..]));
    }
  }

  lemma {:induction false} InsertStable(c: Candidate, sorted: seq<Candidate>, freeMb: real)
    ensures OfFree(Insert(c, sorted), freeMb) == OfFree([c] + sorted, freeMb)
  {
    if sorted != [] && c.freeMb < sorted[0].freeMb {
      InsertStable(c, sorted[1..], freeMb);
      OfFreeSwap(sorted[0], c, sorted[1..], freeMb);
      OfFreeCons(sorted[0], Insert(c, sorted[1..]), freeMb);
      OfFreeCons(sorted[0], [c] + sorted[1..], freeMb);
      assert [sorted[0]] + sorted[1..] == sorted;
    }
  }

  lemma OfFreeSwap(a: Candidate, b: Candidate, rest: seq<Candidate>, freeMb: real)
    requires a.freeMb != b.freeMb
    ensures OfFree([a] + ([b] + rest), freeMb) == OfFree([b] + ([a] + rest), freeMb)
  {
    OfFreeCons(a, [b] + rest, freeMb);
    OfFreeCons(b, rest, freeMb);
    OfFreeCons(b, [a] + rest, freeMb);
    OfFreeCons(a, rest, freeMb);
  }

  /** The sort is the stable one: falling, and nodes with equal free memory keep their order. */
  lemma {:induction false} SortIsStable(candidates: seq<Candidate>, freeMb: real)
    ensures Falling(SortByFree(candidates))
    ensures OfFree(SortByFree(candidates), freeMb) == OfFree(candidates, freeMb)
  {
    if candidates != [] {
      var c, rest := candidates[0], SortByFree(candidates[1..]);
      SortIsStable(candidates[1..], freeMb);
      InsertSorts(c, rest);
      InsertStable(c, rest, freeMb);
      OfFreeCons(c, rest, freeMb);
    }
  }

  /** From i on, k is the first of the largest. */
  ghost predicate FirstLargest(freeMb: seq<real>, i: nat, k: nat) {
    && i <= k < |freeMb|
    && (forall j :: i <= j < |freeMb| ==> freeMb[j] <= freeMb[k])
    && (forall j :: i <= j < k ==> freeMb[j] < freeMb[k])
  }

  ghost predicate NoRoom(freeMb: seq<real>, i: nat, memoryMb: real) {
    forall j :: i <= j < |freeMb| ==> freeMb[j] < memoryMb
  }

  /** What the head of the sorted candidates from i on says. */
  ghost predicate Heads(freeMb: seq<real>, memoryMb: real, i: nat, sorted: seq<Candidate>) {
    && (sorted == [] ==> NoRoom(freeMb, i, memoryMb))
    && (sorted != [] ==>
          FirstLargest(freeMb, i, sorted[0].index) && freeMb[sorted[0].index] == sorted[0].freeMb >= memoryMb)
  }

  lemma HeadsStep(freeMb: seq<real>, memoryMb: real, i: nat, sorted: seq<Candidate>)
    requires i < |freeMb| && Heads(freeMb, memoryMb, i + 1, sorted)
    ensures Heads(freeMb, memoryMb, i,
      if freeMb[i] >= memoryMb then Insert(Candidate(i, freeMb[i]), sorted) else sorted)
  {
  }

  lemma {:induction false} SortedHeads(freeMb: seq<real>, memoryMb: real, i: nat)
    requires i <= |freeMb|
    ensures Heads(freeMb, memoryMb, i, SortByFree(Candidates(freeMb, memoryMb, i)))
    decreases |freeMb| - i
  {
    if i < |freeMb| {
      var rest := Candidates(freeMb, memoryMb, i + 1);
      SortedHeads(freeMb, memoryMb, i + 1);
      HeadsStep(freeMb, memoryMb, i, SortByFree(rest));
      assert ([Candidate(i, freeMb[i])] + rest)[1..] == rest && [] + rest == rest;
    }
  }

  /** What counts as free: a node's memory times its overcommit factor, less its machines'. */
  ghost predicate FreeMemory(nodes: seq<Node>, free: seq<real>) {
    && |free| == |nodes|
    && forall i :: 0 <= i < |nodes| ==>
         free[i] == nodes[i].memoryMb as real * nodes[i].memOvercommit - Sum(nodes[i].vms) as real
  }

  lemma FreeMemoryIs(nodes: seq<Node>, free: seq<real>)
    requires FreeMemory(nodes, free)
    ensures free == FreeMb(nodes)
  {
    forall i | 0 <= i < |nodes| ensures free[i] == FreeMb(nodes)[i] {
      assert Free(nodes[i]) == Capacity(nodes[i]) - Sum(nodes[i].vms) as real;
    }
  }

  /** Sorting finds the first node with the most free memory; placement fails exactly when no
    * node has room. */
  lemma PickNodeIff(nodes: seq<Node>, free: seq<real>, memoryMb: nat, k: nat)
    requires FreeMemory(nodes, free)
    ensures PickNode(nodes, memoryMb) == Some(k) <==> FirstLargest(free, 0, k) && free[k] >= memoryMb as real
    ensures PickNode(nodes, memoryMb) == None <==> forall j :: 0 <= j < |free| ==> free[j] < memoryMb as real
  {
    FreeMemoryIs(nodes, free);
    SortedHeads(free, memoryMb as real, 0);
  }

  lemma {:induction false} SumConcat(a: seq<nat>, b: seq<nat>)
    ensures Sum(a + b) == Sum(a) + Sum(b)
  {
    if b == [] {
      assert a + b == a;
    } else {
      assert (a + b)[..|a + b| - 1] == a + b[..|b| - 1];
      SumConcat(a, b[..|b| - 1]);
    }
  }

  lemma SumOne(size: nat)
    ensures Sum([]) == 0 && Sum([size]) == size
  {
    assert [size][..0] == [];
  }

  // ---------------------------------------------------------------------------
  // Runs of placements

  function With(node: Node, memoryMb: nat): Node { node.(vms := node.vms + [memoryMb]) }

  function Placed(nodes: seq<Node>, memoryMb: nat): (r: seq<Node>) {
    var k := PickNode(nodes, memoryMb);
    if k.Some? && k.value < |nodes| then nodes[k.value := With(nodes[k.value], memoryMb)] else nodes
  }

  class Cluster {
    var nodes: seq<Node>

    constructor (online: seq<Node>)
      ensures nodes == online
    {
      nodes := online;
    }

    method Place(memoryMb: nat) returns (node: Option<nat>)
      modifies this
      ensures node == PickNode(old(nodes), memoryMb)
      ensures nodes == Placed(old(nodes), memoryMb)
      ensures node.None? ==> nodes == old(nodes)
      ensures node.Some? ==>
        && node.value < |old(nodes)|
        && nodes == old(nodes)[node.value := old(nodes)[node.value].(vms := old(nodes)[node.value].vms + [memoryMb])]
    {
      node := PickNode(nodes, memoryMb);
      if node.Some? {
        PickedLargest(nodes, memoryMb, node.value);
        nodes := nodes[node.value := With(nodes[node.value], memoryMb)];
      }
    }
  }

  lemma FreeWith(node: Node, memoryMb: nat)
    ensures Free(With(node, memoryMb)) == Free(node) - memoryMb as real
  {
    assert (node.vms + [memoryMb])[..|node.vms|] == node.vms;
  }

  function Run(nodes: seq<Node>, sizes: seq<nat>): seq<Node>
    decreases |sizes|
  {
    if sizes == [] then nodes else Run(Placed(nodes, sizes[0]), sizes[1..])
  }

  /** For each node that a run places machines on, the size of the last one; `last` is what
    * earlier placements left. */
  function LastPlaced(nodes: seq<Node>, sizes: seq<nat>, last: map<nat, nat>): map<nat, nat>
    decreases |sizes|
  {
    if sizes == [] then last
    else LastPlaced(Placed(nodes, sizes[0]), sizes[1..], Noted(nodes, sizes[0], last))
  }

  function Noted(nodes: seq<Node>, memoryMb: nat, last: map<nat, nat>): map<nat, nat> {
    var k := PickNode(nodes, memoryMb);
    if k.Some? then last[k.value := memoryMb] else last
  }

  /** Node i is within its capacity and no node has more free memory by more than `size`. */
  ghost predicate BalancedAt(freeMb: seq<real>, i: nat, size: nat) {
    i < |freeMb| && freeMb[i] >= 0.0 && forall j :: 0 <= j < |freeMb| ==> freeMb[j] <= freeMb[i] + size as real
  }

  ghost predicate Balanced(freeMb: seq<real>, last: map<nat, nat>) {
    forall i :: i in last ==> BalancedAt(freeMb, i, last[i])
  }

  /** Taking memory from the freest node. */
  lemma TakeFromLargest(freeMb: seq<real>, k: nat, memoryMb: nat, i: nat, size: nat)
    requires FirstLargest(freeMb, 0, k) && freeMb[k] >= memoryMb as real
    requires if i == k then size == memoryMb else BalancedAt(freeMb, i, size)
    ensures BalancedAt(freeMb[k := freeMb[k] - memoryMb as real], i, size)
  {
  }

  lemma FreeMbUpdated(nodes: seq<Node>, k: nat, node: Node)
    requires k < |nodes|
    ensures FreeMb(nodes[k := node]) == FreeMb(nodes)[k := Free(node)]
  {
  }

  lemma PickedLargest(nodes: seq<Node>, memoryMb: nat, k: nat)
    requires PickNode(nodes, memoryMb) == Some(k)
    ensures FirstLargest(FreeMb(nodes), 0, k) && FreeMb(nodes)[k] >= memoryMb as real
  {
    SortedHeads(FreeMb(nodes), memoryMb as real, 0);
  }

  lemma TakeKeepsBalance(freeMb: seq<real>, k: nat, memoryMb: nat, last: map<nat, nat>)
    requires FirstLargest(freeMb, 0, k) && freeMb[k] >= memoryMb as real && Balanced(freeMb, last)
    ensures Balanced(freeMb[k := freeMb[k] - memoryMb as real], last[k := memoryMb])
  {
    var last' := last[k := memoryMb];
    forall i | i in last' ensures BalancedAt(freeMb[k := freeMb[k] - memoryMb as real], i, last'[i]) {
      TakeFromLargest(freeMb, k, memoryMb, i, last'[i]);
    }
  }

  /** What a placement does to the free memory. */
  lemma PlacedTakes(nodes: seq<Node>, memoryMb: nat, k: nat)
    requires PickNode(nodes, memoryMb) == Some(k) && k < |nodes|
    ensures FreeMb(Placed(nodes, memoryMb)) == FreeMb(nodes)[k := FreeMb(nodes)[k] - memoryMb as real]
  {
    FreeMbUpdated(nodes, k, With(nodes[k], memoryMb));
    FreeWith(nodes[k], memoryMb);
  }

  lemma PlacedKeepsBalance(nodes: seq<Node>, memoryMb: nat, last: map<nat, nat>)
    requires Balanced(FreeMb(nodes), last)
    ensures Balanced(FreeMb(Placed(nodes, memoryMb)), Noted(nodes, memoryMb, last))
  {
    var k := PickNode(nodes, memoryMb);
    if k.Some? {
      PickedLargest(nodes, memoryMb, k.value);
      PlacedTakes(nodes, memoryMb, k.value);
      TakeKeepsBalance(FreeMb(nodes), k.value, memoryMb, last);
    }
  }

  lemma {:induction false} RunKeepsBalance(nodes: seq<Node>, sizes: seq<nat>, last: map<nat, nat>)
    requires Balanced(FreeMb(nodes), last)
    ensures Balanced(FreeMb(Run(nodes, sizes)), LastPlaced(nodes, sizes, last))
    decreases |sizes|
  {
    if sizes != [] {
      PlacedKeepsBalance(nodes, sizes[0], last);
      RunKeepsBalance(Placed(nodes, sizes[0]), sizes[1..], Noted(nodes, sizes[0], last));
    }
  }

  /** The scheduler's guarantee over all runs, from any allocation: a node that has received a
    * machine is within its capacity, and no node has more free memory than it by more than the
    * size of the last machine placed on it. */
  lemma RunBalances(nodes: seq<Node>, sizes: seq<nat>)
    ensures Balanced(FreeMb(Run(nodes, sizes)), LastPlaced(nodes, sizes, map[]))
  {
    RunKeepsBalance(nodes, sizes, map[]);
  }

  lemma {:induction false} RunKeepsHardware(nodes: seq<Node>, sizes: seq<nat>, i: nat)
    requires i < |nodes|
    ensures |Run(nodes, sizes)| == |nodes|
    ensures Run(nodes, sizes)[i].memoryMb == nodes[i].memoryMb
    ensures Run(nodes, sizes)[i].memOvercommit == nodes[i].memOvercommit
    decreases |sizes|
  {
    if sizes != [] { RunKeepsHardware(Placed(nodes, sizes[0]), sizes[1..], i); }
  }

  /** Machines of these sizes fit into the memory of the node times its overcommit factor. */
  ghost predicate Within(sizes: seq<nat>, node: Node) {
    Sum(sizes) as real <= node.memoryMb as real * node.memOvercommit
  }

  lemma CapacitySame(node: Node, before: Node)
    requires node.memoryMb == before.memoryMb && node.memOvercommit == before.memOvercommit && Free(node) >= 0.0
    ensures Within(node.vms, before)
  {
    assert Capacity(node) == Capacity(before);
  }

  /** After any run the machines of a node that received one fit into it. */
  lemma RunWithinCapacity(nodes: seq<Node>, sizes: seq<nat>, i: nat)
    requires i < |nodes| && i in LastPlaced(nodes, sizes, map[])
    ensures |Run(nodes, sizes)| == |nodes|
    ensures Within(Run(nodes, sizes)[i].vms, nodes[i])
  {
    RunKeepsHardware(nodes, sizes, i);
    LastPlacedFree(nodes, sizes, i);
    CapacitySame(Run(nodes, sizes)[i], nodes[i]);
  }

  lemma LastPlacedFree(nodes: seq<Node>, sizes: seq<nat>, i: nat)
    requires i in LastPlaced(nodes, sizes, map[]) && i < |Run(nodes, sizes)|
    ensures Free(Run(nodes, sizes)[i]) >= 0.0
  {
    RunBalances(nodes, sizes);
    assert BalancedAt(FreeMb(Run(nodes, sizes)), i, LastPlaced(nodes, sizes, map[])[i]);
    assert FreeMb(Run(nodes, sizes))[i] == Free(Run(nodes, sizes)[i]);
  }

  /** The noted size is the node's last machine; an unnoted node is as it was. */
  ghost predicate NotedOf(before: Node, node: Node, last: map<nat, nat>, i: nat) {
    if i in last then node.vms != [] && node.vms[|node.vms| - 1] == last[i] else node == before
  }

  lemma PlacedNoted(before: Node, nodes: seq<Node>, memoryMb: nat, last: map<nat, nat>, i: nat)
    requires i < |nodes| && NotedOf(before, nodes[i], last, i)
    ensures |Placed(nodes, memoryMb)| == |nodes|
    ensures NotedOf(before, Placed(nodes, memoryMb)[i], Noted(nodes, memoryMb, last), i)
  {
    var k := PickNode(nodes, memoryMb);
    if k.Some? {
      PickedLargest(nodes, memoryMb, k.value);
    }
  }

  lemma {:induction false} RunNoted(before: Node, nodes: seq<Node>, sizes: seq<nat>, last: map<nat, nat>, i: nat)
    requires i < |nodes| && NotedOf(before, nodes[i], last, i)
    ensures |Run(nodes, sizes)| == |nodes|
    ensures NotedOf(before, Run(nodes, sizes)[i], LastPlaced(nodes, sizes, last), i)
    decreases |sizes|
  {
    if sizes != [] {
      PlacedNoted(before, nodes, sizes[0], last, i);
      RunNoted(before, Placed(nodes, sizes[0]), sizes[1..], Noted(nodes, sizes[0], last), i);
    }
  }

  /** The sizes the guarantee speaks of are those of the machines last on the nodes, and the nodes
    * it does not speak of are unchanged. */
  lemma LastPlacedIsLast(nodes: seq<Node>, sizes: seq<nat>, i: nat)
    requires i < |nodes|
    ensures |Run(nodes, sizes)| == |nodes|
    ensures NotedOf(nodes[i], Run(nodes, sizes)[i], LastPlaced(nodes, sizes, map[]), i)
  {
    RunNoted(nodes[i], nodes, sizes, map[], i);
  }
}
