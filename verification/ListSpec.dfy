/** Singly linked lists: `next` holds the link of every node, null is None. */
module ListSpec {
  import opened Basics

  type Next = map<nat, Option<nat>>

  ghost predicate LinkedAt(next: Next, nodes: seq<nat>, i: nat)
    requires i < |nodes|
  {
    nodes[i] in next && next[nodes[i]] == At(nodes, i + 1)
  }

  /** `nodes` are chained by their links and end in null. */
  ghost predicate Chained(next: Next, nodes: seq<nat>) {
    forall i :: 0 <= i < |nodes| ==> LinkedAt(next, nodes, i)
  }

  /** Only the links of the nodes matter. */
  lemma ChainedFrame(next: Next, next': Next, nodes: seq<nat>)
    requires Chained(next, nodes)
    requires forall e <- nodes :: e in next ==> e in next' && next'[e] == next[e]
    ensures Chained(next', nodes)
  {
    forall i | 0 <= i < |nodes| ensures LinkedAt(next', nodes, i) {
      assert LinkedAt(next, nodes, i) && nodes[i] in nodes;
    }
  }

  lemma ChainedTail(next: Next, nodes: seq<nat>)
    requires Chained(next, nodes) && nodes != []
    ensures Chained(next, nodes[1..])
    ensures nodes[0] in next && next[nodes[0]] == At(nodes, 1)
  {
    assert LinkedAt(next, nodes, 0);
    forall i | 0 <= i < |nodes| - 1 ensures LinkedAt(next, nodes[1..], i) {
      assert LinkedAt(next, nodes, i + 1);
    }
  }

  lemma ChainedPrepend(next: Next, t: nat, nodes: seq<nat>)
    requires Chained(next, nodes) && t in next && next[t] == At(nodes, 0)
    ensures Chained(next, [t] + nodes)
  {
    forall i | 0 <= i < |nodes| + 1 ensures LinkedAt(next, [t] + nodes, i) {
      assert i > 0 ==> LinkedAt(next, nodes, i - 1);
    }
  }

  /** One store unlinks the node behind node k. */
  lemma ChainedUnlink(next: Next, next': Next, nodes: seq<nat>, k: nat)
    requires Chained(next, nodes) && NoDup(nodes) && k + 1 < |nodes|
    requires forall e <- nodes :: e in next ==>
               e in next' && next'[e] == (if e == nodes[k] then At(nodes, k + 2) else next[e])
    ensures Chained(next', RemoveAt(nodes, k + 1))
  {
    var r := RemoveAt(nodes, k + 1);
    forall i | 0 <= i < |r| ensures LinkedAt(next', r, i) {
      var j := if i <= k then i else i + 1;
      assert LinkedAt(next, nodes, j) && r[i] == nodes[j];
    }
  }

  /** One store appends a list. */
  lemma ChainedAppend(next: Next, next': Next, nodes: seq<nat>, more: seq<nat>)
    requires Chained(next, nodes) && Chained(next, more) && nodes != [] && NoDup(nodes + more)
    requires forall e <- nodes + more :: e in next ==>
               e in next' && next'[e] == (if e == nodes[|nodes| - 1] then At(more, 0) else next[e])
    ensures Chained(next', nodes + more)
  {
    var all := nodes + more;
    var k := |nodes| - 1;
    assert all[k] == nodes[k];
    forall i | 0 <= i < |all| ensures LinkedAt(next', all, i) {
      if i <= k {
        assert LinkedAt(next, nodes, i) && all[i] == nodes[i];
      } else {
        assert LinkedAt(next, more, i - |nodes|) && all[i] == more[i - |nodes|];
      }
    }
  }
}
