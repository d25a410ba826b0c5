/** `lru_file_cache` as written: heap nodes linked through `next`/`prev`. */
module LruCache {
  import opened Options
  import opened CacheSpec

  class ItemNode {
    var next: ItemNode?
    var prev: ItemNode?
    var numLocks: nat
    var buff: nat
    var buffLength: nat
    var fileName: string
    var watch: int
    var outdated: bool

    constructor (name: string, buff: nat, buffLength: nat, wd: int)
      ensures next == null && prev == null && Data() == Fresh(name, buff, buffLength, wd)
    {
      next, prev, numLocks, outdated := null, null, 0, false;
      this.buff, this.buffLength, fileName, watch := buff, buffLength, name, wd;
    }

    function Data(): Item
      reads this`fileName, this`buff, this`buffLength, this`numLocks, this`watch, this`outdated
    {
      Item(fileName, buff, buffLength, numLocks, watch, outdated)
    }
  }

  function At(ns: seq<ItemNode>, i: int): ItemNode? {
    if 0 <= i < |ns| then ns[i] else null
  }

  ghost predicate Distinct(ns: seq<ItemNode>) {
    forall i, j :: 0 <= i < j < |ns| ==> ns[i] != ns[j]
  }

  ghost predicate Within(ns: seq<ItemNode>, repr: set<ItemNode>) {
    forall i :: 0 <= i < |ns| ==> ns[i] in repr
  }

  /** `prev` is the inverse of `next` and the nodes follow each other in the order of `ns`, each once. */
  ghost predicate Chain(ns: seq<ItemNode>, repr: set<ItemNode>)
    reads repr`next, repr`prev
  {
    && Distinct(ns) && Within(ns, repr)
    && (forall i {:trigger ns[i].next} :: 0 <= i < |ns| ==> ns[i].next == At(ns, i + 1))
    && (forall i {:trigger ns[i].prev} :: 0 <= i < |ns| ==> ns[i].prev == At(ns, i - 1))
  }

  /** The payloads of the nodes are `items`. */
  ghost predicate Holds(ns: seq<ItemNode>, items: seq<Item>, repr: set<ItemNode>)
    reads repr`fileName, repr`buff, repr`buffLength, repr`numLocks, repr`watch, repr`outdated
  {
    |ns| == |items| && Within(ns, repr) && forall i :: 0 <= i < |ns| ==> ns[i].Data() == items[i]
  }

  lemma DistinctWithout(ns: seq<ItemNode>, i: nat)
    requires Distinct(ns) && i < |ns|
    ensures Distinct(Without(ns, i)) && ns[i] !in Without(ns, i)
  {
    assert forall k :: 0 <= k < |ns| - 1 ==> Without(ns, i)[k] == ns[if k < i then k else k + 1];
  }

  /** Once the neighbours of node `i` point past it, the other nodes form a chain. */
  lemma ChainWithout(ns: seq<ItemNode>, i: nat, repr: set<ItemNode>)
    requires Distinct(ns) && i < |ns| && Within(ns, repr)
    requires forall j {:trigger ns[j].next} :: 0 <= j < |ns| && j != i ==>
      ns[j].next == At(ns, if j + 1 == i then i + 1 else j + 1)
    requires forall j {:trigger ns[j].prev} :: 0 <= j < |ns| && j != i ==>
      ns[j].prev == At(ns, if j == i + 1 then i - 1 else j - 1)
    ensures Chain(Without(ns, i), repr) && ns[i] !in Without(ns, i)
  {
    hide Distinct;
    DistinctWithout(ns, i);
    var rest := Without(ns, i);
    forall k | 0 <= k < |rest|
      ensures rest[k].next == At(rest, k + 1) && rest[k].prev == At(rest, k - 1) && rest[k] in repr
    {
      assert rest[k] == ns[if k < i then k else k + 1];
    }
  }

  lemma HoldsWithout(ns: seq<ItemNode>, items: seq<Item>, i: nat, repr: set<ItemNode>)
    requires Holds(ns, items, repr) && i < |ns|
    ensures Holds(Without(ns, i), Without(items, i), repr)
  {
  }

  lemma HoldsFirst(n: ItemNode, ns: seq<ItemNode>, items: seq<Item>, repr: set<ItemNode>)
    requires Holds(ns, items, repr)
    ensures Holds([n] + ns, [n.Data()] + items, repr + {n})
  {
  }

  lemma HoldsPromoted(ns: seq<ItemNode>, items: seq<Item>, i: nat, repr: set<ItemNode>)
    requires Holds(ns, items, repr) && i < |ns|
    ensures Holds([ns[i]] + Without(ns, i), [items[i]] + Without(items, i), repr)
  {
  }

  lemma HoldsAt(nodes: seq<ItemNode>, items: seq<Item>, repr: set<ItemNode>, i: nat)
    requires Holds(nodes, items, repr) && i < |nodes|
    ensures i < |items| && nodes[i].Data() == items[i]
  {
  }

  /** Names and number of the items are the same with another buffer. */
  lemma ReplacedWellFormed(c: Cache, i: nat, buff: nat, buffLength: nat)
    requires WellFormed(c) && i < |c.items|
    ensures WellFormed(c.(items := c.items[i := c.items[i].(buff := buff, buffLength := buffLength)],
                          freed := c.freed + [c.items[i].buff]))
  {
  }

  class LruFileCache {
    var head: ItemNode?
    var tail: ItemNode?
    var numItems: nat
    var maxNumItems: nat

    /** The linked nodes from head to tail, and the value they represent. */
    ghost var nodes: seq<ItemNode>
    ghost var state: Cache
    /** Every node ever allocated by this cache. */
    ghost var repr: set<ItemNode>
    /** Every block passed to `FREE` by this cache, in order. */
    ghost var freed: seq<nat>

    /** The list from `head` is `nodes` and ends at `tail`. */
    ghost predicate Linked()
      reads this`nodes, this`head, this`tail, this`repr, repr`next, repr`prev
    {
      && Chain(nodes, repr)
      && head == (if nodes == [] then null else nodes[0])
      && tail == (if nodes == [] then null else nodes[|nodes| - 1])
    }

    ghost predicate Valid()
      reads this, repr
    {
      && Linked()
      && Holds(nodes, state.items, repr)
      && numItems == |nodes| == |state.items|
      && maxNumItems == state.maxNumItems
      && freed == state.freed
      && WellFormed(state)
    }

    constructor (size: nat)
      ensures Valid() && repr == {} && state == Cache([], size, [])
    {
      head, tail, numItems, maxNumItems := null, null, 0, size;
      nodes, state, freed, repr := [], Cache([], size, []), [], {};
    }

    method GetItem(name: string) returns (node: ItemNode?)
      requires Valid()
      ensures node == At(nodes, IndexOf(state.items, name))
      ensures node != null ==> (node == head <==> IndexOf(state.items, name) == 0)
    {
      node := head;
      ghost var i := 0;
      while node != null && node.fileName != name
        invariant 0 <= i <= |nodes| && node == At(nodes, i)
        invariant forall j :: 0 <= j < i ==> state.items[j].fileName != name
        decreases |nodes| - i
      {
        assert nodes[i].Data() == state.items[i];
        node, i := node.next, i + 1;
      }
      if node != null {
        assert nodes[i].Data() == state.items[i];
      }
    }

    /** The pointer surgery of `remove_node`: what is left is the chain without `node`. */
    method Unlink(node: ItemNode, ghost i: nat)
      requires Linked() && i < |nodes| && node == nodes[i]
      modifies this`head, this`tail, this`nodes, repr`next, repr`prev
      ensures Linked() && nodes == Without(old(nodes), i)
    {
      if node == head {
        head := head.next;
      }
      if node == tail {
        tail := tail.prev;
      }
      if node.prev != null {
        node.prev.next := node.next;
      }
      if node.next != null {
        node.next.prev := node.prev;
      }
      ChainWithout(nodes, i, repr);
      nodes := Without(nodes, i);
    }

    method RemoveNode(node: ItemNode?, ghost i: nat) returns (ok: bool)
      requires Valid() && i <= |nodes| && node == At(nodes, i)
      modifies this, repr
      ensures Valid() && repr == old(repr)
      ensures (state, ok) == CacheSpec.RemoveNode(old(state), i)
    {
      hide Chain, WellFormed, Holds;
      if node == null {
        return true;
      }
      HoldsAt(nodes, state.items, repr, i);
      if node.numLocks != 0 {
        return false;
      }
      Unlink(node, i);
      HoldsWithout(old(nodes), state.items, i, repr);
      numItems := numItems - 1;
      freed := freed + [node.buff];
      state := CacheSpec.RemoveNode(state, i).0;
      return true;
    }

    method RemoveItem(name: string) returns (ok: bool)
      requires Valid()
      modifies this, repr
      ensures Valid() && fresh(repr - old(repr))
      ensures (state, ok) == CacheSpec.RemoveItem(old(state), name)
    {
      hide Chain, WellFormed, Holds;
      ghost var i := IndexOf(state.items, name);
      var node := GetItem(name);
      ok := RemoveNode(node, i);
    }

    method FindLocked(name: string) returns (n: ItemNode?)
      requires Valid()
      ensures n == At(nodes, IndexOfLocked(state.items, name))
    {
      n := head;
      ghost var i := 0;
      while n != null && !(n.fileName == name && n.numLocks != 0)
        invariant 0 <= i <= |nodes| && n == At(nodes, i)
        invariant forall j :: 0 <= j < i ==> state.items[j].fileName != name || state.items[j].numLocks == 0
        decreases |nodes| - i
      {
        assert nodes[i].Data() == state.items[i];
        n, i := n.next, i + 1;
      }
      if n != null {
        assert nodes[i].Data() == state.items[i];
      }
    }

    method UnlockItem(name: string)
      requires Valid()
      modifies this`state, repr
      ensures Valid()
      ensures state == Unlock(old(state), name)
    {
      hide WellFormed;
      ghost var i := IndexOfLocked(state.items, name);
      var n := FindLocked(name);
      if n != null {
        assert n.Data() == state.items[i];
        n.numLocks := n.numLocks - 1;
        state := Unlock(state, name);
      }
    }

    method FindWatch(wd: int) returns (n: ItemNode?)
      requires Valid()
      ensures n == At(nodes, IndexOfWatch(state.items, wd))
    {
      n := head;
      ghost var i := 0;
      while n != null && n.watch != wd
        invariant 0 <= i <= |nodes| && n == At(nodes, i)
        invariant forall j :: 0 <= j < i ==> state.items[j].watch != wd
        decreases |nodes| - i
      {
        assert nodes[i].Data() == state.items[i];
        n, i := n.next, i + 1;
      }
      if n != null {
        assert nodes[i].Data() == state.items[i];
      }
    }

    /** `wd` is the `wd` field of a non-null event; the event counts only if its mask is not zero. */
    method ProcessInotifyEvent(mask: nat, wd: int)
      requires Valid()
      modifies this, repr
      ensures Valid() && fresh(repr - old(repr))
      ensures state == if mask != 0 then ProcessEvent(old(state), wd) else old(state)
    {
      hide Chain, WellFormed, Holds;
      if mask != 0 {
        ghost var i := IndexOfWatch(state.items, wd);
        var n := FindWatch(wd);
        if n != null {
          MarkOutdated(n, i);
          var _ := RemoveNode(n, i);
        }
      }
    }

    method MarkOutdated(n: ItemNode, ghost i: nat)
      requires Valid() && i < |nodes| && n == nodes[i]
      modifies this`state, repr
      ensures Valid()
      ensures state == old(state).(items := old(state).items[i := old(state).items[i].(outdated := true)])
    {
      assert nodes[i].Data() == state.items[i];
      n.outdated := true;
      state := state.(items := state.items[i := state.items[i].(outdated := true)]);
    }

    method InsertFront(newNode: ItemNode)
      requires Linked() && newNode !in repr && newNode.next == null && newNode.prev == null
      modifies this`head, this`tail, this`nodes, this`repr, newNode`next, repr`prev
      ensures Linked() && nodes == [newNode] + old(nodes) && repr == old(repr) + {newNode}
    {
      if tail == null {
        head := newNode;
        tail := head;
      } else {
        newNode.next := head;
        head.prev := newNode;
        head := newNode;
      }
      nodes, repr := [newNode] + nodes, repr + {newNode};
    }

    /** The update branch of `add_or_update_item`. */
    method ReplaceBuffer(node: ItemNode, ghost i: nat, buff: nat, buffLength: nat)
      requires Valid() && i < |nodes| && node == nodes[i]
      modifies this`state, this`freed, repr
      ensures Valid()
      ensures state == old(state).(
                items := old(state).items[i := old(state).items[i].(buff := buff, buffLength := buffLength)],
                freed := old(state).freed + [old(state).items[i].buff])
    {
      hide WellFormed;
      assert node.Data() == state.items[i];
      ReplacedWellFormed(state, i, buff, buffLength);
      freed := freed + [node.buff];
      node.buff := buff;
      node.buffLength := buffLength;
      state := state.(items := state.items[i := state.items[i].(buff := buff, buffLength := buffLength)],
                      freed := state.freed + [state.items[i].buff]);
    }

    /** The insertion branch of `add_or_update_item`; `wd` is what `inotify_add_watch` returns. */
    method InsertNew(name: string, buff: nat, buffLength: nat, wd: int)
      requires Valid() && numItems < maxNumItems && IndexOf(state.items, name) == |state.items|
      modifies this, repr
      ensures Valid() && fresh(repr - old(repr))
      ensures (state, true) == AddOrUpdate(old(state), name, buff, buffLength, wd)
    {
      hide Chain, WellFormed, IndexOf, AddOrUpdate, Fresh, Holds;
      InsertedInFront(state, name, buff, buffLength, wd);
      var newNode := new ItemNode(name, buff, buffLength, wd);
      HoldsFirst(newNode, nodes, state.items, repr);
      InsertFront(newNode);
      numItems := numItems + 1;
      state := AddOrUpdate(state, name, buff, buffLength, wd).0;
    }

    method AddOrUpdateItem(name: string, buff: nat, buffLength: nat, wd: int) returns (ok: bool)
      requires Valid()
      modifies this, repr
      ensures Valid() && fresh(repr - old(repr))
      ensures (state, ok) == AddOrUpdate(old(state), name, buff, buffLength, wd)
      decreases |nodes|
    {
      hide Chain, WellFormed, IndexOf;
      ghost var i := IndexOf(state.items, name);
      var node := GetItem(name);
      if node != null {
        assert node.Data() == state.items[i];
        if node.numLocks == 0 {
          hide Holds;
          ReplaceBuffer(node, i, buff, buffLength);
          return true;
        }
        return false;
      }
      hide Holds;
      if numItems < maxNumItems {
        InsertNew(name, buff, buffLength, wd);
        return true;
      } else if tail != null {
        var removed := RemoveNode(tail, |nodes| - 1);
        if removed {
          EvictThenRetry(old(state), name, buff, buffLength, wd);
          hide AddOrUpdate;
          ok := AddOrUpdateItem(name, buff, buffLength, wd);
          return;
        }
      }
      return false;
    }

    /** Takes a node other than the head out of the chain: the last one, or one in the middle. */
    method Detach(node: ItemNode, ghost i: nat)
      requires Linked() && 0 < i < |nodes| && node == nodes[i]
      modifies this`tail, this`nodes, repr`next, repr`prev
      ensures Linked() && nodes == Without(old(nodes), i) && node !in nodes
    {
      if node == tail {
        tail := node.prev;
        tail.next := null;
      } else {
        node.prev.next := node.next;
        node.next.prev := node.prev;
      }
      ChainWithout(nodes, i, repr);
      nodes := Without(nodes, i);
    }

    /** The pointer surgery of `get_and_lock_item`. */
    method Promote(node: ItemNode, ghost i: nat)
      requires Linked() && 0 < i < |nodes| && node == nodes[i]
      modifies this`head, this`tail, this`nodes, repr`next, repr`prev
      ensures Linked() && nodes == [node] + Without(old(nodes), i)
    {
      Detach(node, i);
      node.prev := null;
      node.next := head;
      head.prev := node;
      head := node;
      nodes := [node] + nodes;
    }

    /** The move to the front on a hit of a node that is not the head. */
    method MoveToFront(node: ItemNode, ghost i: nat)
      requires Valid() && 0 < i < |nodes| && node == nodes[i]
      modifies this`head, this`tail, this`nodes, this`state, repr`next, repr`prev
      ensures Valid() && repr == old(repr)
      ensures state == old(state).(items := [old(state).items[i]] + Without(old(state).items, i))
    {
      hide Chain, WellFormed, Holds;
      PromotedWellFormed(state, i, state.items[i]);
      HoldsPromoted(nodes, state.items, i, repr);
      Promote(node, i);
      state := state.(items := [state.items[i]] + Without(state.items, i));
    }

    method TakeLock(node: ItemNode, ghost i: nat)
      requires Valid() && i < |nodes| && node == nodes[i]
      modifies this`state, repr
      ensures Valid()
      ensures node.Data() == old(state).items[i].(numLocks := old(state).items[i].numLocks + 1)
      ensures state == old(state).(items := old(state).items[i := node.Data()])
    {
      assert node.Data() == state.items[i];
      node.numLocks := node.numLocks + 1;
      state := state.(items := state.items[i := node.Data()]);
    }

    method GetAndLockItem(name: string) returns (node: ItemNode?)
      requires Valid()
      modifies this, repr
      ensures Valid() && fresh(repr - old(repr))
      ensures state == GetAndLock(old(state), name).0
      ensures GetAndLock(old(state), name).1 == if node == null then None else Some(node.Data())
    {
      hide Chain, WellFormed, Linked, IndexOf;
      ghost var i := IndexOf(state.items, name);
      node := GetItem(name);
      if node == null {
        return;
      }
      assert node.Data() == state.items[i];
      hide Holds;
      if node.outdated {
        var _ := RemoveNode(node, i);
        return null;
      }
      TakeLock(node, i);
      if node != head {
        MoveToFront(node, i);
      } else {
        assert state.items == [state.items[0]] + Without(state.items, 0);
      }
    }

    method Destroy()
      requires Valid()
      modifies this
      ensures Valid()
      ensures state == CacheSpec.Destroy(old(state))
    {
      var n := head;
      ghost var i := 0;
      while n != null
        invariant i <= |nodes| == |state.items| && n == At(nodes, i)
        invariant unchanged(this`nodes, this`state, this`head, this`maxNumItems)
        invariant freed == old(freed) + Buffers(state.items)[..i]
        decreases |nodes| - i
      {
        assert nodes[i].Data() == state.items[i];
        var next := n.next;
        freed := freed + [n.buff];
        n, i := next, i + 1;
      }
      head, tail, numItems := null, null, 0;
      nodes, state := [], CacheSpec.Destroy(state);
    }
  }
}
