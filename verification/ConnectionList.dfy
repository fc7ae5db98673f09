/** The server's doubly linked list of connection items: appended at the tail, unlinked anywhere. */
module ConnectionLists {
  import opened Common

  class Item {
    const connection: int
    var prev: Item?
    var next: Item?

    constructor (connection: int)
      ensures this.connection == connection && prev == null && next == null
    {
      this.connection := connection;
      prev, next := null, null;
    }
  }

  /** The item at `i`, none outside the list. */
  function At(items: seq<Item>, i: int): Item? {
    if 0 <= i < |items| then items[i] else null
  }

  /** Both pointers of every item lead to its neighbours. */
  ghost predicate Chained(items: seq<Item>)
    reads items
  {
    forall i {:trigger items[i]} :: 0 <= i < |items| ==>
      items[i].prev == At(items, i - 1) && items[i].next == At(items, i + 1)
  }

  function Without(items: seq<Item>, k: nat): (r: seq<Item>)
    requires k < |items|
    ensures |r| == |items| - 1
    ensures forall i :: 0 <= i < |r| ==> r[i] == items[if i < k then i else i + 1]
  {
    items[..k] + items[k + 1..]
  }

  lemma DistinctWithout(items: seq<Item>, k: nat)
    requires k < |items| && Distinct(items)
    ensures Distinct(Without(items, k)) && items[k] !in Without(items, k)
  {
  }

  lemma NeighboursDiffer(items: seq<Item>, k: nat)
    requires k < |items| && Distinct(items)
    ensures At(items, k - 1) != items[k] && At(items, k + 1) != items[k]
    ensures At(items, k - 1) == At(items, k + 1) ==> At(items, k - 1) == null
    ensures forall i :: 0 <= i < |items| && i != k ==> items[i] != items[k]
    ensures forall i :: 0 <= i < |items| && i != k - 1 ==> items[i] != At(items, k - 1)
    ensures forall i :: 0 <= i < |items| && i != k + 1 ==> items[i] != At(items, k + 1)
  {
  }

  /** Who the neighbours of the others are once item `k` is gone. */
  lemma NeighboursWithout(items: seq<Item>, k: nat, i: nat)
    requires k < |items| && i < |items| - 1 && Distinct(items)
    ensures var r, o := Without(items, k), if i < k then i else i + 1;
      && At(r, i - 1) == (if o == k + 1 then At(items, k - 1) else At(items, o - 1))
      && At(r, i + 1) == (if o == k - 1 then At(items, k + 1) else At(items, o + 1))
  {
  }

  /** Who the neighbours are once an item is appended. */
  lemma NeighboursAppend(items: seq<Item>, x: Item, i: nat)
    requires i <= |items|
    ensures At(items + [x], i - 1) == At(items, i - 1)
    ensures At(items + [x], i + 1) == (if i == |items| - 1 then x else if i == |items| then null else At(items, i + 1))
  {
  }

  lemma EndsOf(items: seq<Item>, x: Item)
    ensures At(items, |items| - 1) == if items == [] then null else items[|items| - 1]
    ensures At(items + [x], 0) == if items == [] then x else At(items, 0)
  {
  }

  class ConnectionList {
    var firstItem: Item?
    ghost var items: seq<Item>

    ghost predicate Valid()
      reads this, items
    {
      Distinct(items) && Chained(items) && firstItem == At(items, 0)
    }

    constructor ()
      ensures Valid() && items == []
    {
      firstItem := null;
      items := [];
    }

    /** The walk that NEW_CLIENT does: it ends at the true tail. */
    method Tail() returns (tmpItem: Item)
      requires Valid() && firstItem != null
      ensures tmpItem == items[|items| - 1]
    {
      tmpItem := firstItem;
      var tmpItemNext := tmpItem.next;
      ghost var k: nat := 0;
      while tmpItemNext != null
        invariant k < |items| && tmpItem == items[k]
        invariant tmpItemNext == null ==> k == |items| - 1
        decreases |items| - k, if tmpItemNext != null then 1 else 0
      {
        tmpItemNext := tmpItem.next;
        if tmpItemNext != null {
          tmpItem := tmpItemNext;
          k := k + 1;
        }
      }
    }

    /** The pointers that appending sets; no other item is touched. */
    method LinkAtTail(newItem: Item)
      requires Valid() && newItem !in items && newItem.prev == null
      modifies this`firstItem, items, newItem`prev
      ensures items == [] ==> firstItem == newItem && newItem.prev == null
      ensures items != [] ==>
        var last := items[|items| - 1];
        firstItem == old(firstItem) && newItem.prev == last && last.next == newItem && last.prev == old(last.prev)
      ensures forall i :: 0 <= i < |items| - 1 ==> items[i].prev == old(items[i].prev) && items[i].next == old(items[i].next)
    {
      if firstItem == null {
        firstItem := newItem;
      } else {
        var tmpItem := Tail();
        tmpItem.next := newItem;
        newItem.prev := tmpItem;
      }
    }

    /** Append an item that is in no list. */
    method Append(newItem: Item)
      requires Valid() && newItem !in items && newItem.prev == null && newItem.next == null
      modifies this, items, newItem
      ensures Valid() && items == old(items) + [newItem]
    {
      hide Distinct, At;
      ghost var was := items;
      EndsOf(was, newItem);
      DistinctAppend(was, newItem);
      LinkAtTail(newItem);
      items := items + [newItem];
      forall i | 0 <= i < |items| ensures items[i].prev == At(items, i - 1) && items[i].next == At(items, i + 1) {
        NeighboursAppend(was, newItem, i);
        if i < |was| { assert items[i] == was[i]; }
      }
    }

    /** The four cases of unlinking: the neighbours are joined, the list head follows, nothing else changes. */
    method Bypass(item: Item)
      requires item.prev != item && item.next != item
      requires item.prev == item.next ==> item.prev == null
      modifies this`firstItem, item.prev, item.next
      ensures firstItem == if item.prev == null then item.next else old(firstItem)
      ensures item.prev == old(item.prev) && item.next == old(item.next)
      ensures item.prev != null ==> item.prev.next == item.next && item.prev.prev == old(item.prev.prev)
      ensures item.next != null ==> item.next.prev == item.prev && item.next.next == old(item.next.next)
    {
      if item.prev == null && item.next == null {
        firstItem := null;
      } else if item.prev == null {
        item.next.prev := null;
        firstItem := item.next;
      } else if item.next == null {
        item.prev.next := null;
      } else {
        item.prev.next := item.next;
        item.next.prev := item.prev;
      }
    }

    /** Unlinking item `k`: all other items keep their order and their links to each other. */
    method Unlink(item: Item, ghost k: nat)
      requires Valid() && k < |items| && items[k] == item
      modifies this, items
      ensures Valid() && items == Without(old(items), k)
    {
      hide Distinct, Without;
      assert item.prev == At(items, k - 1) && item.next == At(items, k + 1);
      NeighboursDiffer(items, k);
      Bypass(item);
      items := Without(items, k);
      DistinctWithout(old(items), k);
      forall i | 0 <= i < |items| ensures items[i].prev == At(items, i - 1) && items[i].next == At(items, i + 1) {
        NeighboursWithout(old(items), k, i);
        assert items[i] == old(items)[if i < k then i else i + 1];
      }
    }

    /** The last loop of the resource thread. */
    method Clear()
      requires Valid()
      modifies this, items
      ensures Valid() && items == [] && firstItem == null
    {
      while firstItem != null
        invariant Valid() && forall k :: 0 <= k < |items| ==> items[k] in old(items)
        decreases |items|
      {
        Unlink(firstItem, 0);
      }
    }
  }
}
