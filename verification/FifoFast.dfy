/**
 * The bounded queue used for job queues: a singly linked list whose nodes come
 * from a pool while the queue is short, and from the heap beyond that.
 */
module FifoFasts {
  import opened Common

  class Node<T(0)> {
    var value: T
    var next: Node?<T>
  }

  /** Each node points to the one behind it, the last to none. */
  ghost predicate Chain<T(0)>(nodes: seq<Node<T>>)
    reads nodes
  {
    && Distinct(nodes)
    && (forall i {:trigger nodes[i]} :: 0 <= i < |nodes| - 1 ==> nodes[i].next == nodes[i + 1])
    && (nodes != [] ==> nodes[|nodes| - 1].next == null)
  }

  function HeadOf<T(0)>(nodes: seq<Node<T>>): Node?<T> {
    if nodes == [] then null else nodes[0]
  }

  lemma ChainTail<T(0)>(nodes: seq<Node<T>>)
    requires Chain(nodes) && nodes != []
    ensures Chain(nodes[1..]) && nodes[0].next == HeadOf(nodes[1..]) && nodes[0] !in nodes[1..]
  {
    var t := nodes[1..];
    forall i | 0 <= i < |t| - 1 ensures t[i].next == t[i + 1] {
      assert t[i] == nodes[i + 1];
    }
  }

  /** Every node ever made is in exactly one place: linked, pooled, deleted, or loose in the hand of a method. */
  ghost predicate OnePlaceEach<T(0)>(made: set<Node<T>>, deleted: set<Node<T>>, loose: set<Node<T>>, nodes: seq<Node<T>>, pool: seq<Node?<T>>) {
    && deleted <= made && loose <= made && loose !! deleted
    && (forall x :: x in nodes ==> x in made && x !in deleted && x !in loose && x !in pool)
    && (forall x :: x in pool ==> x in made && x !in deleted && x !in loose)
    && (forall x :: x in made ==> x in deleted || x in loose || x in nodes || x in pool)
  }

  lemma TakenFromPool<T(0)>(made: set<Node<T>>, deleted: set<Node<T>>, nodes: seq<Node<T>>, pool: seq<Node?<T>>, node: Node<T>)
    requires OnePlaceEach(made, deleted, {}, nodes, pool + [node]) && Distinct(pool + [node])
    ensures OnePlaceEach(made, deleted, {node}, nodes, pool) && Distinct(pool)
  {
    var all := pool + [node];
    assert node == all[|pool|];
    forall x | x in pool ensures x in all && x != node {
      var i :| 0 <= i < |pool| && pool[i] == x;
      assert all[i] == x;
    }
    assert forall i :: 0 <= i < |pool| ==> pool[i] == all[i];
    assert forall x :: x in all <==> x in pool || x == node;
  }

  lemma LooseLinked<T(0)>(made: set<Node<T>>, deleted: set<Node<T>>, nodes: seq<Node<T>>, pool: seq<Node?<T>>, node: Node<T>)
    requires OnePlaceEach(made, deleted, {node}, nodes, pool)
    ensures OnePlaceEach(made, deleted, {}, nodes + [node], pool) && node !in nodes && node in made
    ensures forall i :: 0 <= i < |nodes| ==> nodes[i] in made
  {
    assert forall x :: x in nodes + [node] <==> x in nodes || x == node;
  }

  class FifoFast<T(0)> {
    const maxSize: int
    const cashSize: nat
    var indexInCash: nat
    var numOfElements: nat
    var first: Node?<T>
    var last: Node?<T>
    const cashed: array<Node?<T>>

    // The linked nodes in order, and all nodes ever made and deleted.
    ghost var nodes: seq<Node<T>>
    ghost var made: set<Node<T>>
    ghost var deleted: set<Node<T>>

    ghost predicate Linked()
      reads this, nodes
    {
      && Chain(nodes)
      && numOfElements == |nodes|
      && first == HeadOf(nodes)
      && (nodes != [] ==> last == nodes[|nodes| - 1])
    }

    ghost function Pool(): seq<Node?<T>>
      requires indexInCash <= cashed.Length
      reads this, cashed
    {
      cashed[..indexInCash]
    }

    /** The pool holds distinct nodes, and as many as a queue of `n` is short of the pool size. */
    ghost predicate PoolFor(n: nat)
      reads this, cashed
    {
      && cashed.Length == cashSize
      && indexInCash == (if n < cashSize then cashSize - n else 0)
      && Distinct(Pool()) && null !in Pool()
    }

    ghost predicate Accounted(loose: set<Node<T>>)
      requires indexInCash <= cashed.Length
      reads this, cashed
    {
      OnePlaceEach(made, deleted, loose, nodes, Pool())
    }

    ghost predicate Valid()
      reads this, cashed, nodes
    {
      Linked() && PoolFor(numOfElements) && Accounted({})
    }

    ghost function Contents(): (r: seq<T>)
      reads this, nodes
      ensures |r| == |nodes|
    {
      seq(|nodes|, i requires 0 <= i < |nodes| reads this, nodes => nodes[i].value)
    }

    constructor (maxSize: int, cashSize: nat)
      ensures Valid() && Contents() == [] && deleted == {}
      ensures this.maxSize == maxSize && this.cashSize == cashSize
      ensures fresh(cashed) && fresh(made)
    {
      this.maxSize, this.cashSize, indexInCash, numOfElements := maxSize, cashSize, cashSize, 0;
      first, last := null, null;
      cashed := new Node?<T>[cashSize];
      nodes, made, deleted := [], {}, {};
      new;
      var i := 0;
      while i < cashSize
        invariant i <= cashSize == indexInCash == cashed.Length && numOfElements == 0
        invariant nodes == [] && deleted == {} && first == null
        invariant fresh(cashed) && fresh(made)
        invariant Distinct(cashed[..i]) && null !in cashed[..i]
        invariant forall x :: x in made <==> x in cashed[..i]
      {
        var node := new Node<T>;
        cashed[i] := node;
        made := made + {node};
        assert cashed[..i + 1] == cashed[..i] + [node];
        i := i + 1;
      }
      assert cashed[..i] == Pool();
    }

    /** A node from the pool, or a new one when the pool is used up. */
    method TakeNode() returns (node: Node<T>)
      requires Valid()
      modifies this`indexInCash, this`made
      ensures Linked() && PoolFor(numOfElements + 1) && Accounted({node})
      ensures old(made) <= made <= old(made) + {node} && (node in old(made) || fresh(node))
    {
      if indexInCash != 0 {
        ghost var was := Pool();
        indexInCash := indexInCash - 1;
        node := cashed[indexInCash];
        assert was == Pool() + [node];
        TakenFromPool(made, deleted, nodes, Pool(), node);
      } else {
        node := new Node<T>;
        made := made + {node};
      }
    }

    /** Append a node that is not linked yet. */
    method LinkLast(node: Node<T>, x: T)
      requires Linked() && node !in nodes
      modifies this`first, this`last, this`numOfElements, this`nodes, node, nodes
      ensures Linked() && nodes == old(nodes) + [node]
      ensures Contents() == old(Contents()) + [x]
    {
      hide Distinct;
      ghost var was := Contents();
      DistinctAppend(nodes, node);
      node.value, node.next := x, null;
      if numOfElements == 0 { first := node; } else { last.next := node; }
      last := node;
      numOfElements := numOfElements + 1;
      nodes := nodes + [node];
      assert forall i :: 0 <= i < |was| ==> Contents()[i] == was[i];
    }

    method AddElement(x: T) returns (ok: bool)
      requires Valid()
      modifies this, made
      ensures Valid()
      ensures ok == (|old(Contents())| < maxSize)
      ensures Contents() == old(Contents()) + if ok then [x] else []
      ensures deleted == old(deleted) && old(made) <= made && fresh(made - old(made))
    {
      hide OnePlaceEach, Chain, Distinct;
      ok := true;
      if numOfElements < maxSize {
        var node := TakeNode();
        LooseLinked(made, deleted, nodes, Pool(), node);
        LinkLast(node, x);
      } else {
        ok := false;
      }
    }

    /** Put a node that has been unlinked back into the pool, or delete it when the pool is full. */
    method GiveBack(node: Node<T>, n: nat)
      requires Linked() && n == numOfElements + 1 && PoolFor(n) && Accounted({node})
      modifies this`indexInCash, this`deleted, cashed
      ensures Valid() && old(deleted) <= deleted
    {
      if n <= cashSize {
        ghost var was := Pool();
        cashed[indexInCash] := node;
        indexInCash := indexInCash + 1;
        assert Pool() == was + [node];
      } else {
        assert node !in deleted;
        deleted := deleted + {node};
      }
    }

    /** `buffer` is what the caller's variable held, and is left alone when there is nothing. */
    method Extract(buffer: T) returns (ok: bool, x: T)
      requires Valid()
      modifies this, cashed
      ensures Valid()
      ensures ok == (old(Contents()) != [])
      ensures if ok then old(Contents()) == [x] + Contents() else x == buffer && Contents() == []
      ensures made == old(made) && old(deleted) <= deleted
    {
      ok, x := true, buffer;
      if numOfElements != 0 {
        var node := first;
        x := node.value;
        ChainTail(nodes);
        assert nodes == [node] + nodes[1..];
        first := node.next;
        nodes := nodes[1..];
        numOfElements := numOfElements - 1;
        GiveBack(node, numOfElements + 1);
      } else {
        ok := false;
      }
    }

    method Size() returns (size: nat)
      requires Valid()
      ensures size == |Contents()|
    {
      size := numOfElements;
    }

    /** Delete the pooled nodes. */
    method DestroyPool()
      requires Valid()
      modifies this`deleted
      ensures deleted == old(deleted) + set x | x in Pool()
    {
      var i := 0;
      while i < indexInCash
        invariant i <= indexInCash
        invariant deleted == old(deleted) + set x | x in cashed[..i]
      {
        assert cashed[i] in Pool() && cashed[i] == Pool()[i];
        assert cashed[i] !in cashed[..i];
        assert cashed[i] !in deleted;
        deleted := deleted + {cashed[i]};
        assert cashed[..i + 1] == cashed[..i] + [cashed[i]];
        i := i + 1;
      }
      assert cashed[..i] == Pool();
    }

    /** The destructor: when it is done, every node ever made has been deleted, and none twice. */
    method Destroy()
      requires Valid()
      modifies this
      ensures deleted == made == old(made)
    {
      DestroyPool();
      while first != null
        invariant made == old(made) && deleted <= made
        invariant Chain(nodes) && first == HeadOf(nodes)
        invariant forall x :: x in nodes ==> x in made && x !in deleted
        invariant forall x :: x in made ==> x in deleted || x in nodes
        decreases |nodes|
      {
        ChainTail(nodes);
        assert nodes == [first] + nodes[1..];
        var toDel := first.next;
        assert first !in deleted;
        deleted := deleted + {first};
        nodes := nodes[1..];
        first := toDel;
      }
    }
  }
}
