/** Whole runs of the file cache: what is true after every sequence of operations. */
module CacheRuns {
  import opened Options
  import opened CacheSpec

  datatype Op =
    | Add(name: string, buff: nat, len: nat, wd: int)
    | Lock(name: string)
    | Release(name: string)
    | Remove(name: string)
    | Event(wd: int)

  function Step(c: Cache, op: Op): (r: Cache)
    ensures WellFormed(c) ==> WellFormed(r)
    ensures r.maxNumItems == c.maxNumItems
  {
    match op
    case Add(name, buff, len, wd) => AddOrUpdate(c, name, buff, len, wd).0
    case Lock(name) => GetAndLock(c, name).0
    case Release(name) => Unlock(c, name)
    case Remove(name) => RemoveItem(c, name).0
    case Event(wd) => ProcessEvent(c, wd)
  }

  function Init(size: nat): Cache {
    Cache([], size, [])
  }

  function Run(c: Cache, ops: seq<Op>): (r: Cache)
    ensures WellFormed(c) ==> WellFormed(r)
    ensures r.maxNumItems == c.maxNumItems
  {
    if ops == [] then c else Step(Run(c, ops[..|ops| - 1]), ops[|ops| - 1])
  }

  /** The shapes in which one operation changes the list. */
  datatype Change =
    | Keep
    | Update(i: nat, it: Item)
    | Drop(i: nat)
    | Insert(it: Item)
    | Evict(i: nat, it: Item)
    | Promote(i: nat, it: Item)

  function ChangeOf(c: Cache, op: Op): (ch: Change)
    ensures Indexes(ch) ==> ch.i < |c.items|
    ensures ch.Drop? || ch.Evict? ==> c.items[ch.i].numLocks == 0
    ensures ch.Insert? || ch.Evict? ==>
              op.Add? && ch.it == Fresh(op.name, op.buff, op.len, op.wd) && IndexOf(c.items, op.name) == |c.items|
    ensures ch.Drop? ==> !op.Add?
    ensures ch.Promote? ==> op == Lock(ch.it.fileName) && ch.it == c.items[ch.i].(numLocks := c.items[ch.i].numLocks + 1)
    ensures ch.Update? ==>
              var was := c.items[ch.i];
              && ch.it.fileName == was.fileName && ch.it.watch == was.watch && (was.outdated ==> ch.it.outdated)
              && (was.numLocks > 0 ==> ch.it.buff == was.buff && ch.it.buffLength == was.buffLength)
              && ch.it.buff == (if op.Add? then op.buff else was.buff)
              && ch.it.numLocks + (if op == Release(was.fileName) then 1 else 0) == was.numLocks
  {
    var n := |c.items|;
    match op
    case Add(name, buff, len, wd) =>
      var i := IndexOf(c.items, name);
      if i < n then
        if c.items[i].numLocks != 0 then Keep else Update(i, c.items[i].(buff := buff, buffLength := len))
      else if n < c.maxNumItems then Insert(Fresh(name, buff, len, wd))
      else if n == 0 || c.items[n - 1].numLocks != 0 then Keep
      else Evict(n - 1, Fresh(name, buff, len, wd))
    case Lock(name) =>
      var i := IndexOf(c.items, name);
      if i == n then Keep
      else if c.items[i].outdated then if c.items[i].numLocks != 0 then Keep else Drop(i)
      else Promote(i, c.items[i].(numLocks := c.items[i].numLocks + 1))
    case Release(name) =>
      var i := IndexOfLocked(c.items, name);
      if i == n then Keep else Update(i, c.items[i].(numLocks := c.items[i].numLocks - 1))
    case Remove(name) =>
      var i := IndexOf(c.items, name);
      if i == n || c.items[i].numLocks != 0 then Keep else Drop(i)
    case Event(wd) =>
      var i := IndexOfWatch(c.items, wd);
      if i == n then Keep
      else if c.items[i].numLocks != 0 then Update(i, c.items[i].(outdated := true))
      else Drop(i)
  }

  /** The shapes act on the items and on any projection of them. */
  function Apply<T>(s: seq<T>, ch: Change, x: Item -> T): seq<T>
    requires Indexes(ch) ==> ch.i < |s|
  {
    match ch
    case Keep => s
    case Update(i, it) => s[i := x(it)]
    case Drop(i) => Without(s, i)
    case Insert(it) => [x(it)] + s
    case Evict(i, it) => [x(it)] + Without(s, i)
    case Promote(i, it) => [x(it)] + Without(s, i)
  }

  predicate Fronts(ch: Change) {
    ch.Insert? || ch.Evict? || ch.Promote?
  }

  predicate Indexes(ch: Change) {
    ch.Update? || ch.Drop? || ch.Evict? || ch.Promote?
  }

  /** Where the element at `j` of the changed list stood before. */
  function OldIndex(ch: Change, j: int): int {
    match ch
    case Keep => j
    case Update(_, _) => j
    case Drop(i) => if j < i then j else j + 1
    case Insert(_) => j - 1
    case Evict(i, _) => if j - 1 < i then j - 1 else j
    case Promote(i, _) => if j - 1 < i then j - 1 else j
  }

  lemma ApplyAt<T>(s: seq<T>, ch: Change, x: Item -> T, j: nat)
    requires Indexes(ch) ==> ch.i < |s|
    requires j < |Apply(s, ch, x)|
    ensures Fronts(ch) && j == 0 ==> Apply(s, ch, x)[j] == x(ch.it)
    ensures !(Fronts(ch) && j == 0) ==>
              && 0 <= OldIndex(ch, j) < |s|
              && Apply(s, ch, x)[j] == if ch.Update? && j == ch.i then x(ch.it) else s[OldIndex(ch, j)]
  {
    hide Without;
    match ch
    case Keep =>
    case Update(_, _) =>
    case Drop(i) => WithoutAt(s, i, j);
    case Insert(_) =>
    case Evict(i, _) => BehindFront(s, i, x(ch.it), j);
    case Promote(i, _) => BehindFront(s, i, x(ch.it), j);
  }

  lemma BehindFront<T>(s: seq<T>, i: nat, t: T, j: nat)
    requires i < |s| && j < |[t] + Without(s, i)|
    ensures ([t] + Without(s, i))[j] == if j == 0 then t else if j - 1 < i then s[j - 1] else s[j]
    ensures j <= |s| - 1
  {
  }

  lemma ApplyLength<T>(s: seq<T>, ch: Change, x: Item -> T)
    requires Indexes(ch) ==> ch.i < |s|
    ensures |Apply(s, ch, x)| == |s| + (if ch.Insert? then 1 else 0) - (if ch.Drop? then 1 else 0)
  {
  }

  lemma WithoutAt<T>(s: seq<T>, i: nat, j: nat)
    requires i < |s|
    ensures |Without(s, i)| == |s| - 1
    ensures j < |s| - 1 ==> Without(s, i)[j] == s[if j < i then j else j + 1]
  {
  }

  function Self(it: Item): Item { it }
  function NameOf(it: Item): string { it.fileName }
  function BuffOf(it: Item): nat { it.buff }

  function Map<T>(items: seq<Item>, x: Item -> T): (r: seq<T>)
    ensures |r| == |items| && forall i :: 0 <= i < |r| ==> r[i] == x(items[i])
  {
    seq(|items|, i requires 0 <= i < |items| => x(items[i]))
  }

  lemma Projects<T>(items: seq<Item>, ch: Change, x: Item -> T)
    requires Indexes(ch) ==> ch.i < |items|
    ensures Map(Apply(items, ch, Self), x) == Apply(Map(items, x), ch, x)
  {
    match ch
    case Keep =>
    case Update(i, it) => assert Map(items[i := it], x) == Map(items, x)[i := x(it)];
    case Drop(i) => MapWithout(items, i, x);
    case Insert(it) => MapFront(it, items, x);
    case Evict(i, it) => MapWithout(items, i, x); MapFront(it, Without(items, i), x);
    case Promote(i, it) => MapWithout(items, i, x); MapFront(it, Without(items, i), x);
    hide Map, Without;
  }

  lemma MapFront<T>(it: Item, items: seq<Item>, x: Item -> T)
    ensures Map([it] + items, x) == [x(it)] + Map(items, x)
  {
  }

  lemma MapWithout<T>(items: seq<Item>, i: nat, x: Item -> T)
    requires i < |items|
    ensures Map(Without(items, i), x) == Without(Map(items, x), i)
  {
  }

  /** Every operation changes the list by its shape, and frees the buffer it drops or replaces. */
  lemma StepIsChange(c: Cache, op: Op)
    ensures var ch := ChangeOf(c, op);
            && Step(c, op).items == Apply(c.items, ch, Self)
            && Step(c, op).freed ==
               (if ch.Drop? || ch.Evict? || (ch.Update? && op.Add?) then c.freed + [c.items[ch.i].buff] else c.freed)
            && Step(c, op).maxNumItems == c.maxNumItems
            && (op.Add? ==> AddOrUpdate(c, op.name, op.buff, op.len, op.wd).1 == !ch.Keep?)
            && (op.Lock? ==> GetAndLock(c, op.name).1.Some? == ch.Promote?)
  {
    match op
    case Add(name, buff, len, wd) => AddIsChange(c, name, buff, len, wd);
    case Lock(name) => LockIsChange(c, name);
    case Release(_) =>
    case Remove(_) =>
    case Event(wd) =>
      var i := IndexOfWatch(c.items, wd);
      if i < |c.items| && c.items[i].numLocks == 0 {
        var marked := c.items[i := c.items[i].(outdated := true)];
        assert Without(marked, i) == Without(c.items, i);
      }
    hide AddOrUpdate, GetAndLock;
  }

  lemma AddIsChange(c: Cache, name: string, buff: nat, len: nat, wd: int)
    ensures var op := Add(name, buff, len, wd); var ch, d := ChangeOf(c, op), AddOrUpdate(c, name, buff, len, wd);
            && d.0.items == Apply(c.items, ch, Self) && d.1 == !ch.Keep? && d.0.maxNumItems == c.maxNumItems
            && d.0.freed == (if ch.Drop? || ch.Evict? || ch.Update? then c.freed + [c.items[ch.i].buff] else c.freed)
  {
    hide IndexOf;
    if |c.items| > 0 {
      assert Without(c.items, |c.items| - 1) == c.items[..|c.items| - 1];
    }
  }

  lemma LockIsChange(c: Cache, name: string)
    ensures var op := Lock(name); var ch, d := ChangeOf(c, op), GetAndLock(c, name);
            && d.0.items == Apply(c.items, ch, Self) && d.1.Some? == ch.Promote? && d.0.maxNumItems == c.maxNumItems
            && d.0.freed == (if ch.Drop? || ch.Evict? then c.freed + [c.items[ch.i].buff] else c.freed)
  {
    hide IndexOf;
  }

  // ---------------------------------------------------------------- recency

  /** Operation `op` in state `c` inserts `name` or takes a lock on it. */
  predicate Touches(c: Cache, op: Op, name: string) {
    match op
    case Add(n, buff, len, wd) => n == name && IndexOf(c.items, n) == |c.items| && AddOrUpdate(c, n, buff, len, wd).1
    case Lock(n) => n == name && GetAndLock(c, n).1.Some?
    case _ => false
  }

  /** The time of the last insertion or successful lock of `name`: the number of operations so far. */
  function Stamp(c: Cache, ops: seq<Op>, name: string): (t: nat)
    ensures t <= |ops|
  {
    if ops == [] then 0
    else
      var before := ops[..|ops| - 1];
      if Touches(Run(c, before), ops[|ops| - 1], name) then |ops| else Stamp(c, before, name)
  }

  /** Only an operation that puts an entry at the front touches a name, the name of that entry. */
  lemma TouchesFront(c: Cache, op: Op, name: string)
    ensures Touches(c, op, name) <==>
            var ch := ChangeOf(c, op); Fronts(ch) && ch.it.fileName == name
  {
    StepIsChange(c, op);
  }

  ghost predicate ByRecency(c: Cache, ops: seq<Op>, names: seq<string>) {
    forall i, j :: 0 <= i < j < |names| ==> Stamp(c, ops, names[i]) > Stamp(c, ops, names[j])
  }

  lemma StampStep(c: Cache, ops: seq<Op>, op: Op, name: string)
    ensures var ch := ChangeOf(Run(c, ops), op);
            Stamp(c, ops + [op], name) ==
            if Fronts(ch) && ch.it.fileName == name then |ops| + 1 else Stamp(c, ops, name)
  {
    assert (ops + [op])[..|ops|] == ops;
    TouchesFront(Run(c, ops), op, name);
  }

  /** Moving a name with a fresh stamp to the front, or dropping a name, keeps the order. */
  lemma RecencyStep(c: Cache, ops: seq<Op>, op: Op, names: seq<string>, ch: Change)
    requires ch == ChangeOf(Run(c, ops), op) && |names| == |Run(c, ops).items|
    requires forall i, j :: 0 <= i < j < |names| ==> names[i] != names[j]
    requires ch.Update? || ch.Promote? ==> names[ch.i] == ch.it.fileName
    requires ch.Insert? || ch.Evict? ==> ch.it.fileName !in names
    requires ByRecency(c, ops, names)
    ensures ByRecency(c, ops + [op], Apply(names, ch, NameOf))
  {
    var now := Apply(names, ch, NameOf);
    hide Stamp, Run, ChangeOf;
    forall i, j | 0 <= i < j < |now|
      ensures Stamp(c, ops + [op], now[i]) > Stamp(c, ops + [op], now[j])
    {
      StampStep(c, ops, op, now[i]);
      StampStep(c, ops, op, now[j]);
      ApplyAt(names, ch, NameOf, i);
      ApplyAt(names, ch, NameOf, j);
      hide Apply;
    }
  }

  /** From head to tail the last insertion or lock lies strictly further back, in every reachable state. */
  lemma {:induction false} RecencyOrder(size: nat, ops: seq<Op>)
    ensures ByRecency(Init(size), ops, Map(Run(Init(size), ops).items, NameOf))
  {
    if ops == [] {
      NoItems(size);
    } else {
      var before, op := ops[..|ops| - 1], ops[|ops| - 1];
      RecencyOrder(size, before);
      hide Step, Stamp, ByRecency, Touches, Apply;
      RecencyNext(size, before, op);
      assert ops == before + [op];
    }
  }

  lemma NoItems(size: nat)
    ensures ByRecency(Init(size), [], Map(Run(Init(size), []).items, NameOf))
  {
  }

  lemma RecencyNext(size: nat, ops: seq<Op>, op: Op)
    requires ByRecency(Init(size), ops, Map(Run(Init(size), ops).items, NameOf))
    ensures ByRecency(Init(size), ops + [op], Map(Run(Init(size), ops + [op]).items, NameOf))
  {
    hide Step, Stamp, ByRecency, Touches, Apply, IndexOf;
    var c := Run(Init(size), ops);
    var ch := ChangeOf(c, op);
    assert (ops + [op])[..|ops|] == ops && Run(Init(size), ops + [op]) == Step(c, op);
    StepIsChange(c, op);
    Projects(c.items, ch, NameOf);
    hide Run, ChangeOf;
    RecencyStep(Init(size), ops, op, Map(c.items, NameOf), ch);
  }

  /** An insertion into a full cache evicts the entry least recently inserted or locked, or is
      refused and changes nothing if that entry is locked. */
  lemma EvictsLeastRecent(size: nat, ops: seq<Op>, name: string, buff: nat, len: nat, wd: int)
    requires var c := Run(Init(size), ops); |c.items| == size > 0 && IndexOf(c.items, name) == |c.items|
    ensures var c := Run(Init(size), ops);
            forall i :: 0 <= i < size - 1 ==>
              Stamp(Init(size), ops, c.items[size - 1].fileName) < Stamp(Init(size), ops, c.items[i].fileName)
    ensures var c := Run(Init(size), ops);
            var victim := c.items[size - 1];
            AddOrUpdate(c, name, buff, len, wd) ==
            if victim.numLocks > 0 then (c, false)
               else (c.(items := [Fresh(name, buff, len, wd)] + c.items[..size - 1], freed := c.freed + [victim.buff]), true)
  {
    RecencyOrder(size, ops);
    var c := Run(Init(size), ops);
    var names := Map(c.items, NameOf);
    hide Run, Stamp;
    forall i | 0 <= i < size - 1
      ensures Stamp(Init(size), ops, c.items[size - 1].fileName) < Stamp(Init(size), ops, c.items[i].fileName)
    {
      assert Stamp(Init(size), ops, names[i]) > Stamp(Init(size), ops, names[size - 1]);
    }
  }

  // ---------------------------------------------------------------- pinning

  function Releases(ops: seq<Op>, name: string): nat {
    if ops == [] then 0
    else Releases(ops[..|ops| - 1], name) + if ops[|ops| - 1] == Release(name) then 1 else 0
  }

  /** The node that held `it` is still listed, with the same buffer, and at most `n` locks fewer. */
  predicate StillHolds(c: Cache, it: Item, n: nat) {
    var i := IndexOf(c.items, it.fileName);
    && i < |c.items|
    && c.items[i].buff == it.buff && c.items[i].buffLength == it.buffLength
    && c.items[i].watch == it.watch
    && c.items[i].numLocks + n >= it.numLocks
  }

  lemma FoundByName(c: Cache, i: nat)
    requires WellFormed(c) && i < |c.items|
    ensures IndexOf(c.items, c.items[i].fileName) == i
  {
  }

  lemma LockedStays(c: Cache, op: Op, it: Item, n: nat)
    requires WellFormed(c) && StillHolds(c, it, n) && it.numLocks > n
    ensures StillHolds(Step(c, op), it, if op == Release(it.fileName) then n + 1 else n)
  {
    hide Step, ChangeOf, WellFormed, GetAndLock, IndexOf, AddOrUpdate;
    var i, d, ch := IndexOf(c.items, it.fileName), Step(c, op), ChangeOf(c, op);
    StepIsChange(c, op);
    var j := NewIndex(ch, i);
    ApplyLength(c.items, ch, Self);
    ApplyAt(c.items, ch, Self, j);
    hide Apply;
    FoundByName(d, j);
  }

  /** While fewer locks are given back than a node has, the node and its buffer stay, whatever
      insertions, removals, evictions, updates and events happen. */
  lemma {:induction false} Pinned(c: Cache, ops: seq<Op>, it: Item)
    requires WellFormed(c) && it in c.items && Releases(ops, it.fileName) < it.numLocks
    ensures StillHolds(Run(c, ops), it, Releases(ops, it.fileName))
  {
    if ops == [] {
      var i :| 0 <= i < |c.items| && c.items[i] == it;
      FoundByName(c, i);
    } else {
      var before := ops[..|ops| - 1];
      Pinned(c, before, it);
      LockedStays(Run(c, before), ops[|ops| - 1], it, Releases(before, it.fileName));
    }
  }

  // ---------------------------------------------------------------- locks

  function Locks(c: Cache, name: string): nat {
    var i := IndexOf(c.items, name);
    if i < |c.items| then c.items[i].numLocks else 0
  }

  /** A name that is no longer listed had no locks; one that is listed comes from the same name or is new. */
  lemma LocksLost(c: Cache, op: Op, name: string)
    requires WellFormed(c) && IndexOf(Step(c, op).items, name) == |Step(c, op).items|
    ensures Locks(c, name) == 0
  {
    var i, d, ch := IndexOf(c.items, name), Step(c, op), ChangeOf(c, op);
    StepIsChange(c, op);
    hide Step, WellFormed, GetAndLock, ChangeOf;
    if i < |c.items| && !((ch.Drop? || ch.Evict?) && ch.i == i) {
      ApplyAt(c.items, ch, Self, NewIndex(ch, i));
    }
  }

  lemma LocksKept(c: Cache, op: Op, name: string)
    requires WellFormed(c) && IndexOf(Step(c, op).items, name) < |Step(c, op).items|
    ensures var ch := ChangeOf(c, op);
            Locks(Step(c, op), name) ==
            if ch.Update? && c.items[ch.i].fileName == name then ch.it.numLocks
            else if ch.Promote? && ch.it.fileName == name then Locks(c, name) + 1
            else Locks(c, name)
    ensures var ch := ChangeOf(c, op);
            ch.Update? && c.items[ch.i].fileName == name ==> Locks(c, name) == c.items[ch.i].numLocks
  {
    var d, ch := Step(c, op), ChangeOf(c, op);
    StepIsChange(c, op);
    var j := IndexOf(d.items, name);
    hide Step, WellFormed, GetAndLock, ChangeOf;
    ApplyAt(c.items, ch, Self, 0);
    ApplyAt(c.items, ch, Self, j);
    hide Apply;
    if !(Fronts(ch) && j == 0) {
      FoundByName(c, OldIndex(ch, j));
    } else if ch.Promote? {
      FoundByName(c, ch.i);
    }
    if ch.Update? {
      FoundByName(c, ch.i);
    }
  }

  /** An outdated entry is not served: it is dropped and its buffer freed, or left as it is while it is locked. */
  lemma OutdatedIsMiss(c: Cache, name: string)
    requires WellFormed(c) && IndexOf(c.items, name) < |c.items| && c.items[IndexOf(c.items, name)].outdated
    ensures var i, (d, hit) := IndexOf(c.items, name), GetAndLock(c, name);
            && hit == None
            && if c.items[i].numLocks > 0 then d == c
               else d == c.(items := Without(c.items, i), freed := c.freed + [c.items[i].buff])
                    && forall it :: it in d.items ==> it.fileName != name
  {
    var i := IndexOf(c.items, name);
    forall j | 0 <= j < |c.items| && j != i
      ensures c.items[j].fileName != name
    {
    }
  }

  /** A removal by name is refused exactly if the entry is locked, and changes nothing then; otherwise the name is
      not listed any more, and all other entries still are, in the same order. */
  lemma RemoveAnswers(c: Cache, name: string)
    requires WellFormed(c)
    ensures var (d, ok) := RemoveItem(c, name);
            && (ok <==> Locks(c, name) == 0) && (!ok ==> d == c)
            && (ok ==> var i := IndexOf(c.items, name);
                       && d.items == (if i < |c.items| then Without(c.items, i) else c.items)
                       && forall it :: it in d.items ==> it.fileName != name)
  {
    var i := IndexOf(c.items, name);
    forall j | 0 <= j < |c.items| && j != i
      ensures c.items[j].fileName != name
    {
    }
  }

  /** Only a successful lock of a name and an unlock of it change its lock count, by one. */
  lemma LocksStep(c: Cache, op: Op, name: string)
    requires WellFormed(c)
    ensures Locks(Step(c, op), name) ==
            Locks(c, name)
            + (if op == Lock(name) && GetAndLock(c, name).1.Some? then 1 else 0)
            - (if op == Release(name) && Locks(c, name) > 0 then 1 else 0)
  {
    var d, ch := Step(c, op), ChangeOf(c, op);
    StepIsChange(c, op);
    if op.Release? {
      ReleaseChange(c, op);
    }
    hide WellFormed, GetAndLock, ChangeOf, Apply;
    if IndexOf(d.items, name) < |d.items| {
      hide Step;
      LocksKept(c, op, name);
    } else {
      LocksLost(c, op, name);
      if ch.Promote? {
        ApplyAt(c.items, ch, Self, 0);
      }
    }
  }

  /** An unlock does nothing only if no node of that name is locked. */
  lemma ReleaseChange(c: Cache, op: Op)
    requires op.Release?
    ensures var ch := ChangeOf(c, op);
            if ch.Keep? then forall k :: 0 <= k < |c.items| && c.items[k].fileName == op.name ==> c.items[k].numLocks == 0
            else ch.Update? && c.items[ch.i].fileName == op.name
  {
  }

  /** Where the element at `i` goes, if it is not dropped. */
  function NewIndex(ch: Change, i: nat): nat {
    match ch
    case Keep => i
    case Update(_, _) => i
    case Drop(k) => if i <= k then i else i - 1
    case Insert(_) => i + 1
    case Evict(k, _) => if i < k then i + 1 else i
    case Promote(k, _) => if i == k then 0 else if i < k then i + 1 else i
  }

  // ---------------------------------------------------------------- buffers

  predicate Accepts(c: Cache, op: Op) {
    op.Add? && AddOrUpdate(c, op.name, op.buff, op.len, op.wd).1
  }

  /** The buffers the cache took over in the run, and those it refused. */
  function Taken(c: Cache, ops: seq<Op>, accepted: bool): multiset<nat> {
    if ops == [] then multiset{}
    else
      var before, op := ops[..|ops| - 1], ops[|ops| - 1];
      Taken(c, before, accepted) +
      if op.Add? && Accepts(Run(c, before), op) == accepted then multiset{op.buff} else multiset{}
  }

  function Offered(ops: seq<Op>): multiset<nat> {
    if ops == [] then multiset{}
    else Offered(ops[..|ops| - 1]) + if ops[|ops| - 1].Add? then multiset{ops[|ops| - 1].buff} else multiset{}
  }

  function Owned(c: Cache): multiset<nat> {
    multiset(c.freed) + multiset(Buffers(c.items))
  }

  lemma WithoutMultiset<T>(s: seq<T>, i: nat)
    requires i < |s|
    ensures multiset(s) == multiset(Without(s, i)) + multiset{s[i]}
  {
    assert s == s[..i] + [s[i]] + s[i + 1..];
  }

  lemma ApplyMultiset<T>(s: seq<T>, ch: Change, x: Item -> T)
    requires Indexes(ch) ==> ch.i < |s|
    ensures multiset(Apply(s, ch, x)) ==
            multiset(s) - (if ch.Keep? || ch.Insert? then multiset{} else multiset{s[ch.i]})
            + (if ch.Keep? || ch.Drop? then multiset{} else multiset{x(ch.it)})
  {
    if ch.Update? || ch.Drop? || ch.Evict? || ch.Promote? {
      WithoutMultiset(s, ch.i);
    }
  }

  lemma Exchange(freed: multiset<nat>, held: multiset<nat>, b: nat, more: multiset<nat>)
    requires b in held
    ensures (freed + multiset{b}) + (held - multiset{b} + more) == freed + held + more
    ensures freed + (held - multiset{b} + multiset{b}) == freed + held
  {
  }

  lemma StepConserves(c: Cache, op: Op)
    ensures Owned(Step(c, op)) == Owned(c) + if Accepts(c, op) then multiset{op.buff} else multiset{}
  {
    var d, ch, was, now := Step(c, op), ChangeOf(c, op), Buffers(c.items), Buffers(Step(c, op).items);
    StepIsChange(c, op);
    assert Accepts(c, op) <==> op.Add? && !ch.Keep?;
    hide Step, ChangeOf, Accepts;
    assert was == Map(c.items, BuffOf) && now == Map(d.items, BuffOf);
    Projects(c.items, ch, BuffOf);
    ApplyMultiset(was, ch, BuffOf);
    hide Apply;
    if !ch.Keep? && !ch.Insert? {
      var b := was[ch.i];
      assert b == c.items[ch.i].buff && b in multiset(was);
      Exchange(multiset(c.freed), multiset(was), b, if ch.Drop? then multiset{} else multiset{ch.it.buff});
      assert multiset(c.freed + [b]) == multiset(c.freed) + multiset{b};
      assert multiset(now) == multiset(was) - multiset{b} + if ch.Drop? then multiset{} else multiset{ch.it.buff};
    }
  }

  /** Over every run the buffers taken over are exactly those freed and those held; destruction
      frees the rest. */
  lemma {:induction false} Conservation(size: nat, ops: seq<Op>)
    ensures Owned(Run(Init(size), ops)) == Taken(Init(size), ops, true)
    ensures multiset(Destroy(Run(Init(size), ops)).freed) == Taken(Init(size), ops, true)
  {
    if ops != [] {
      var before := ops[..|ops| - 1];
      Conservation(size, before);
      StepConserves(Run(Init(size), before), ops[|ops| - 1]);
    }
  }

  lemma {:induction false} OfferedSplits(c: Cache, ops: seq<Op>)
    ensures Offered(ops) == Taken(c, ops, true) + Taken(c, ops, false)
  {
    if ops != [] {
      OfferedSplits(c, ops[..|ops| - 1]);
    }
  }

  /** If every buffer is offered once, none is freed twice, none is freed while held, and a
      refused one is never freed, even by the destructor. */
  lemma FreedOnce(size: nat, ops: seq<Op>, b: nat)
    requires forall x :: Offered(ops)[x] <= 1
    ensures var c := Run(Init(size), ops);
            && multiset(c.freed)[b] <= 1
            && (b in c.freed ==> b !in Buffers(c.items))
            && (b in Taken(Init(size), ops, false) ==> b !in Destroy(c).freed)
  {
    var c := Run(Init(size), ops);
    Conservation(size, ops);
    OfferedSplits(Init(size), ops);
    assert Offered(ops)[b] <= 1;
    assert multiset(c.freed)[b] + multiset(Buffers(c.items))[b] == Owned(c)[b];
    assert b in Destroy(c).freed <==> multiset(Destroy(c).freed)[b] > 0;
  }

  // ---------------------------------------------------------------- staleness

  /** No node that watches `wd` can be served. */
  ghost predicate Retired(c: Cache, wd: int) {
    forall it :: it in c.items && it.watch == wd ==> it.outdated
  }

  /** After an event no node with its watch can be served, provided that the nodes behind the
      first match are outdated already, and only then. */
  lemma EventRetires(c: Cache, wd: int)
    ensures Retired(ProcessEvent(c, wd), wd) <==>
            forall j :: IndexOfWatch(c.items, wd) < j < |c.items| && c.items[j].watch == wd ==> c.items[j].outdated
  {
    var i := IndexOfWatch(c.items, wd);
    var d := ProcessEvent(c, wd);
    if i < |c.items| {
      forall j | i < j < |c.items|
        ensures c.items[j] in d.items
      {
        assert d.items[if c.items[i].numLocks == 0 then j - 1 else j] == c.items[j];
      }
    }
  }

  ghost predicate DistinctWatches(c: Cache) {
    forall i, j :: 0 <= i < j < |c.items| ==> c.items[i].watch != c.items[j].watch
  }

  /** `name` is inserted with watch `wd` by one of the operations. */
  ghost predicate InsertedBy(ops: seq<Op>, name: string, wd: int) {
    exists k :: 0 <= k < |ops| && ops[k].Add? && ops[k].name == name && ops[k].wd == wd
  }

  /** Where an item of the next state comes from: the same node before, or this operation. */
  lemma Origin(c: Cache, op: Op, it: Item)
    requires it in Step(c, op).items
    ensures || (exists was :: was in c.items && was.fileName == it.fileName && was.watch == it.watch
                              && (was.outdated ==> it.outdated))
            || (op.Add? && op.name == it.fileName && op.wd == it.watch)
  {
    var d, ch := Step(c, op), ChangeOf(c, op);
    StepIsChange(c, op);
    hide Step, ChangeOf;
    var j :| 0 <= j < |d.items| && d.items[j] == it;
    ApplyAt(c.items, ch, Self, j);
    hide Apply;
    if !(Fronts(ch) && j == 0) {
      assert c.items[OldIndex(ch, j)] in c.items;
    } else if ch.Promote? {
      assert c.items[ch.i] in c.items;
    }
  }

  /** The buffer of an item is the one it had, or the one just added under its name. */
  lemma BufferSource(c: Cache, op: Op, it: Item) returns (was: Item)
    requires it in Step(c, op).items
    ensures || (was in c.items && was.fileName == it.fileName && was.buff == it.buff && was.buffLength == it.buffLength)
            || (op.Add? && op.name == it.fileName && op.buff == it.buff && op.len == it.buffLength)
  {
    was := it;
    var d, ch := Step(c, op), ChangeOf(c, op);
    StepIsChange(c, op);
    AddsLength(c, op);
    hide Step, ChangeOf;
    var j :| 0 <= j < |d.items| && d.items[j] == it;
    ApplyAt(c.items, ch, Self, j);
    hide Apply;
    if !(Fronts(ch) && j == 0) {
      was := c.items[OldIndex(ch, j)];
    } else if ch.Promote? {
      was := c.items[ch.i];
    }
  }

  /** An update in place installs both the buffer and its length, or neither. */
  lemma AddsLength(c: Cache, op: Op)
    ensures var ch := ChangeOf(c, op);
            ch.Update? ==>
              && ch.it.buffLength == (if op.Add? then op.len else c.items[ch.i].buffLength)
              && (op.Add? ==> ch.it.fileName == op.name)
  {
  }

  /** A buffer that is freed was that of an unlocked node whose name is gone or has a new buffer. */
  lemma FreedSource(c: Cache, op: Op, b: nat) returns (was: Item)
    requires WellFormed(c) && b in Step(c, op).freed && b !in c.freed
    ensures was in c.items && was.buff == b && was.numLocks == 0
    ensures forall it :: it in Step(c, op).items && it.fileName == was.fileName ==> op.Add? && it.buff == op.buff
  {
    var d, ch := Step(c, op), ChangeOf(c, op);
    StepIsChange(c, op);
    UpdatesUnlocked(c, op);
    hide Step, ChangeOf;
    was := c.items[ch.i];
    forall it | it in d.items && it.fileName == was.fileName
      ensures op.Add? && it.buff == op.buff
    {
      var j :| 0 <= j < |d.items| && d.items[j] == it;
      ApplyAt(c.items, ch, Self, j);
    }
  }

  lemma UpdatesUnlocked(c: Cache, op: Op)
    ensures var ch := ChangeOf(c, op);
            ch.Update? && op.Add? ==> c.items[ch.i].numLocks == 0
  {
  }

  /** With distinct watches, once an event for a node's watch is processed, nothing with that
      watch is served in any later state in which the watch has not been handed out again; the
      name can be served only by a node inserted after the event. */
  lemma {:induction false} StaleNeverServed(c: Cache, i: nat, ops: seq<Op>, it: Item)
    requires WellFormed(c) && DistinctWatches(c) && i < |c.items|
    requires forall k :: 0 <= k < |ops| && ops[k].Add? ==> ops[k].wd != c.items[i].watch
    requires it in Run(ProcessEvent(c, c.items[i].watch), ops).items
    ensures it.watch == c.items[i].watch ==> it.outdated
    ensures it.fileName == c.items[i].fileName ==> it.outdated || InsertedBy(ops, it.fileName, it.watch)
  {
    var wd, d := c.items[i].watch, ProcessEvent(c, c.items[i].watch);
    if ops == [] {
      EventRetires(c, wd);
      assert IndexOfWatch(c.items, wd) == i;
      if it.fileName == c.items[i].fileName {
        Origin(c, Event(wd), it);
      }
    } else {
      var before, op := ops[..|ops| - 1], ops[|ops| - 1];
      Origin(Run(d, before), op, it);
      if was :| was in Run(d, before).items && was.fileName == it.fileName && was.watch == it.watch
                && (was.outdated ==> it.outdated) {
        StaleNeverServed(c, i, before, was);
        if InsertedBy(before, it.fileName, it.watch) {
          var k :| 0 <= k < |before| && before[k].Add? && before[k].name == it.fileName && before[k].wd == it.watch;
          assert ops[k] == before[k];
        }
      } else {
        assert ops[|ops| - 1] == op;
      }
    }
  }

  /** So once an event for a node's watch is processed, no later lock returns anything with that watch,
      and a lock of the node's name returns only what was inserted after the event. */
  lemma NeverServedAgain(c: Cache, i: nat, ops: seq<Op>, name: string)
    requires WellFormed(c) && DistinctWatches(c) && i < |c.items|
    requires forall k :: 0 <= k < |ops| && ops[k].Add? ==> ops[k].wd != c.items[i].watch
    ensures var wd := c.items[i].watch;
            var hit := GetAndLock(Run(ProcessEvent(c, wd), ops), name).1;
            hit.Some? ==>
              hit.value.watch != wd && (name == c.items[i].fileName ==> InsertedBy(ops, name, hit.value.watch))
  {
    var d := Run(ProcessEvent(c, c.items[i].watch), ops);
    var j := IndexOf(d.items, name);
    if j < |d.items| {
      hide Run;
      StaleNeverServed(c, i, ops, d.items[j]);
    }
  }

  /** Two names that share a watch: one event retires only the first, the other is still served. */
  lemma SharedWatchStaysServed()
    ensures var c := Run(Init(2), [Add("a", 1, 10, 7), Add("b", 2, 10, 7), Event(7)]);
            GetAndLock(c, "a").1.Some? && GetAndLock(c, "a").1.value.watch == 7
  {
    var ops := [Add("a", 1, 10, 7), Add("b", 2, 10, 7), Event(7)];
    assert ops[..2] == [Add("a", 1, 10, 7), Add("b", 2, 10, 7)];
    assert ops[..2][..1] == [Add("a", 1, 10, 7)];
    assert ops[..2][..1][..0] == [];
    assert Run(Init(2), ops[..2][..1]) == Cache([Fresh("a", 1, 10, 7)], 2, []);
    assert Run(Init(2), ops[..2]).items == [Fresh("b", 2, 10, 7), Fresh("a", 1, 10, 7)];
    assert Run(Init(2), ops).items == [Fresh("a", 1, 10, 7)];
  }
}
