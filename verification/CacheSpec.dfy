/** The file cache of `src/lru.cpp` as a value: the list from head to tail, its capacity and the
    log of buffers it has freed.  Each function states what one member function of
    `lru_file_cache` does to that value; the class in LruCache.dfy is proved against them. */
module CacheSpec {
  import opened Options
  /** The payload of an `item_node`; `buff` is the identity of a heap block. */
  datatype Item = Item(fileName: string, buff: nat, buffLength: nat, numLocks: nat, watch: int, outdated: bool)

  datatype Cache = Cache(items: seq<Item>, maxNumItems: nat, freed: seq<nat>)

  function Fresh(name: string, buff: nat, len: nat, wd: int): Item {
    Item(name, buff, len, 0, wd, false)
  }

  function IndexOf(items: seq<Item>, name: string): (i: nat)
    ensures i <= |items|
    ensures forall j :: 0 <= j < i ==> items[j].fileName != name
    ensures i < |items| ==> items[i].fileName == name
  {
    if items == [] || items[0].fileName == name then 0 else 1 + IndexOf(items[1..], name)
  }

  function IndexOfWatch(items: seq<Item>, wd: int): (i: nat)
    ensures i <= |items|
    ensures forall j :: 0 <= j < i ==> items[j].watch != wd
    ensures i < |items| ==> items[i].watch == wd
  {
    if items == [] || items[0].watch == wd then 0 else 1 + IndexOfWatch(items[1..], wd)
  }

  function IndexOfLocked(items: seq<Item>, name: string): (i: nat)
    ensures i <= |items|
    ensures forall j :: 0 <= j < i ==> items[j].fileName != name || items[j].numLocks == 0
    ensures i < |items| ==> items[i].fileName == name && items[i].numLocks != 0
  {
    if items == [] || (items[0].fileName == name && items[0].numLocks != 0) then 0
    else 1 + IndexOfLocked(items[1..], name)
  }

  function Without<T>(s: seq<T>, i: nat): seq<T>
    requires i < |s|
  {
    s[..i] + s[i + 1..]
  }

  /** What every operation keeps: names are distinct and the capacity is respected. */
  ghost predicate WellFormed(c: Cache) {
    && |c.items| <= c.maxNumItems
    && forall i, j :: 0 <= i < j < |c.items| ==> c.items[i].fileName != c.items[j].fileName
  }

  /** Unlinks node `i` and frees its buffer, unless it is locked or absent. */
  function RemoveNode(c: Cache, i: nat): (r: (Cache, bool))
    requires i <= |c.items|
    ensures WellFormed(c) ==> WellFormed(r.0)
  {
    if i == |c.items| then (c, true)
    else if c.items[i].numLocks != 0 then (c, false)
    else (c.(items := Without(c.items, i), freed := c.freed + [c.items[i].buff]), true)
  }

  function RemoveItem(c: Cache, name: string): (r: (Cache, bool))
    ensures WellFormed(c) ==> WellFormed(r.0)
  {
    RemoveNode(c, IndexOf(c.items, name))
  }

  /** Update in place if present and unlocked, else insert at the front, evicting the last node
      if the cache is full; a locked node is neither updated nor evicted. */
  function AddOrUpdate(c: Cache, name: string, buff: nat, len: nat, wd: int): (r: (Cache, bool))
    ensures WellFormed(c) ==> WellFormed(r.0)
  {
    var i := IndexOf(c.items, name);
    if i < |c.items| then
      if c.items[i].numLocks != 0 then (c, false)
      else (c.(items := c.items[i := c.items[i].(buff := buff, buffLength := len)],
               freed := c.freed + [c.items[i].buff]), true)
    else if |c.items| < c.maxNumItems then
      (c.(items := [Fresh(name, buff, len, wd)] + c.items), true)
    else if c.items == [] || c.items[|c.items| - 1].numLocks != 0 then (c, false)
    else
      (c.(items := [Fresh(name, buff, len, wd)] + c.items[..|c.items| - 1],
          freed := c.freed + [c.items[|c.items| - 1].buff]), true)
  }

  /** A hit takes a lock and moves the node to the front; an outdated node is a miss. */
  function GetAndLock(c: Cache, name: string): (r: (Cache, Option<Item>))
    ensures WellFormed(c) ==> WellFormed(r.0)
  {
    var i := IndexOf(c.items, name);
    if i == |c.items| then (c, None)
    else if c.items[i].outdated then (RemoveNode(c, i).0, None)
    else
      var it := c.items[i].(numLocks := c.items[i].numLocks + 1);
      (c.(items := [it] + Without(c.items, i)), Some(it))
  }

  function Unlock(c: Cache, name: string): (r: Cache)
    ensures WellFormed(c) ==> WellFormed(r)
  {
    var i := IndexOfLocked(c.items, name);
    if i == |c.items| then c
    else c.(items := c.items[i := c.items[i].(numLocks := c.items[i].numLocks - 1)])
  }

  /** A non-null event with a non-zero mask, about watch descriptor `wd`. */
  function ProcessEvent(c: Cache, wd: int): (r: Cache)
    ensures WellFormed(c) ==> WellFormed(r)
  {
    var i := IndexOfWatch(c.items, wd);
    if i == |c.items| then c
    else RemoveNode(c.(items := c.items[i := c.items[i].(outdated := true)]), i).0
  }

  function Destroy(c: Cache): (r: Cache)
    ensures WellFormed(c) ==> WellFormed(r)
  {
    c.(items := [], freed := c.freed + Buffers(c.items))
  }

  function Buffers(items: seq<Item>): (b: seq<nat>)
    ensures |b| == |items| && forall i :: 0 <= i < |b| ==> b[i] == items[i].buff
  {
    seq(|items|, i requires 0 <= i < |items| => items[i].buff)
  }

  /** Evicting the last node and inserting again is what the insertion into a full cache does. */
  lemma EvictThenRetry(c: Cache, name: string, buff: nat, len: nat, wd: int)
    requires WellFormed(c) && IndexOf(c.items, name) == |c.items| >= c.maxNumItems && c.items != []
    requires c.items[|c.items| - 1].numLocks == 0
    ensures AddOrUpdate(c, name, buff, len, wd) ==
            AddOrUpdate(RemoveNode(c, |c.items| - 1).0, name, buff, len, wd)
  {
    var rest := RemoveNode(c, |c.items| - 1).0;
    assert rest.items == c.items[..|c.items| - 1];
  }

  lemma InsertedInFront(c: Cache, name: string, buff: nat, len: nat, wd: int)
    requires IndexOf(c.items, name) == |c.items| < c.maxNumItems
    ensures AddOrUpdate(c, name, buff, len, wd) == (c.(items := [Fresh(name, buff, len, wd)] + c.items), true)
  {
  }

  lemma PromotedWellFormed(c: Cache, i: nat, it: Item)
    requires WellFormed(c) && i < |c.items| && it.fileName == c.items[i].fileName
    ensures WellFormed(c.(items := [it] + Without(c.items, i)))
  {
  }
}
