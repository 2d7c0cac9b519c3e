/** `RLMObservationInfo::forEach`: the walk over an intrusive doubly linked chain,
    started from any of its nodes. */
module Observation {
  /** Whatever does the observing; only its identity matters here. */
  type Observer = nat

  class Info {
    var next: Info?
    var prev: Info?
    var observer: Observer

    constructor (observer: Observer)
      ensures this.observer == observer && next == null && prev == null
    {
      this.observer := observer;
      next, prev := null, null;
    }

    /** Call back every observer of the chain, and answer the calls in order. The
        callback leaves the chain alone. `chain` and `k` say where this node is,
        `all` are the observers of the chain from the head on. */
    method ForEach(ghost chain: seq<Info>, ghost all: seq<Observer>, ghost k: nat) returns (calls: seq<Observer>)
      requires IsChain(chain, all) && k < |chain| && chain[k] == this
      ensures calls == Back(all, k) + Forth(all, k)
    {
      calls := [];
      var info := prev;
      ghost var j: nat := k;
      while info != null
        invariant j <= k && info == Neighbour(chain, j - 1)
        invariant calls + Back(all, j) == Back(all, k)
        decreases j
      {
        MoveOne(calls, info.observer, Back(all, j - 1));
        calls := calls + [info.observer];
        info := info.prev;
        j := j - 1;
      }
      info := this;
      j := k;
      while info != null
        invariant k <= j <= |chain| && info == Neighbour(chain, j)
        invariant calls + Forth(all, j) == Back(all, k) + Forth(all, k)
        decreases |chain| - j
      {
        assert Forth(all, j) == [info.observer] + Forth(all, j + 1);
        MoveOne(calls, info.observer, Forth(all, j + 1));
        calls := calls + [info.observer];
        info := info.next;
        j := j + 1;
      }
    }
  }

  /** The nodes of a chain, from the head on: neighbours point at each other. */
  ghost predicate IsChain(chain: seq<Info>, all: seq<Observer>)
    reads chain
  {
    && |all| == |chain|
    && (forall i {:trigger chain[i].observer} :: 0 <= i < |chain| ==> chain[i].observer == all[i])
    && (forall i {:trigger chain[i].prev} :: 0 <= i < |chain| ==> chain[i].prev == Neighbour(chain, i - 1))
    && (forall i {:trigger chain[i].next} :: 0 <= i < |chain| ==> chain[i].next == Neighbour(chain, i + 1))
  }

  /** The node at position `i`, null off either end. */
  ghost function Neighbour(chain: seq<Info>, i: int): Info? {
    if 0 <= i < |chain| then chain[i] else null
  }

  /** A chain never runs into itself: one observer for every node, no node twice. */
  lemma {:induction false} NodesDistinct(chain: seq<Info>, all: seq<Observer>, i: nat, j: nat)
    requires IsChain(chain, all) && i < j < |chain|
    ensures chain[i] != chain[j]
    decreases i
  {
    assert chain[i].prev == Neighbour(chain, i - 1) && chain[j].prev == Neighbour(chain, j - 1);
    if i > 0 {
      NodesDistinct(chain, all, i - 1, j - 1);
    }
  }

  /** The observers of the nodes before `k`, nearest first. */
  function Back(all: seq<Observer>, k: nat): seq<Observer>
    requires k <= |all|
  {
    if k == 0 then [] else [all[k - 1]] + Back(all, k - 1)
  }

  /** The observers of the nodes from `k` on, in their order. */
  function Forth(all: seq<Observer>, k: nat): seq<Observer>
    requires k <= |all|
  {
    all[k..]
  }

  lemma MoveOne<T>(x: seq<T>, y: T, z: seq<T>)
    ensures (x + [y]) + z == x + ([y] + z)
  {
  }

  lemma {:induction false} BackAt(all: seq<Observer>, k: nat, i: nat)
    requires i < k <= |all|
    ensures |Back(all, k)| == k && Back(all, k)[i] == all[k - 1 - i]
    decreases k
  {
    if k > 1 {
      BackAt(all, k - 1, if i > 0 then i - 1 else 0);
    }
  }

  /** The order of the calls: the nearest previous node first and outwards from it,
      then the node itself and those that follow it. */
  lemma CallOrder(all: seq<Observer>, k: nat, i: nat)
    requires k < |all| && i < |all|
    ensures var calls := Back(all, k) + Forth(all, k);
            |calls| == |all| && calls[i] == all[if i < k then k - 1 - i else i]
  {
    if k > 0 {
      BackAt(all, k, if i < k then i else 0);
    }
  }

  lemma SameBag<T>(x: T, y: seq<T>, z: seq<T>)
    ensures multiset(([x] + y) + z) == multiset(y + ([x] + z))
  {
    assert multiset(([x] + y) + z) == multiset{x} + multiset(y) + multiset(z);
    assert multiset(y + ([x] + z)) == multiset(y) + (multiset{x} + multiset(z));
  }

  /** Wherever the walk starts, the callback is called exactly once for every node:
      the calls are a rearrangement of the whole chain. */
  lemma {:induction false} EachExactlyOnce(all: seq<Observer>, k: nat)
    requires k <= |all|
    ensures multiset(Back(all, k) + Forth(all, k)) == multiset(all)
    decreases k
  {
    if k == 0 {
      assert Back(all, 0) + Forth(all, 0) == all;
    } else {
      EachExactlyOnce(all, k - 1);
      ForthStep(all, k);
      SameBag(all[k - 1], Back(all, k - 1), Forth(all, k));
    }
  }

  lemma ForthStep(all: seq<Observer>, k: nat)
    requires 0 < k <= |all|
    ensures Forth(all, k - 1) == [all[k - 1]] + Forth(all, k)
  {
  }
}
