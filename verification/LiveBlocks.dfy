/** Nothing leaks: in every run each block that was allocated and not freed is in use, and by whom. */
module LiveBlocks {
  import opened Options
  import opened CacheSpec
  import C = CacheRuns
  import opened Vectored
  import opened Ranges
  import opened ServerSpec
  import opened ServerInvariant
  import opened ServerTheorems
  import I = Interleaving

  /** The block is an entry of the cache, or belongs to an operation in flight: the header of a response, the file
      that is read or waits for the cache, or a response of its own. */
  predicate InUse(s: State, b: nat)
    requires b in s.mem
  {
    match s.mem[b].owner
    case Cached(name) => exists it :: it in s.cache.items && it.fileName == name && it.buff == b
    case HeaderOf(id) =>
      && id in s.ops && s.ops[id].Writev? && id < |s.tasks|
      && s.tasks[id].opType == HttpSendFile && HeaderBlock(s.tasks[id]) == b
    case FileOf(id) =>
      && id in s.ops && id < |s.tasks| && s.tasks[id].opType == HttpSendFile
      && if s.ops[id].Read? then s.tasks[id].buff == Bytes(b) else s.ops[id].Writev? && s.tasks[id].additional == b
    case Reply => exists id :: id in s.ops && s.ops[id].Write? && s.ops[id].block == b
  }

  /** Every block but `x` is in use; no block has the number 0. */
  ghost predicate NoLeakBut(s: State, x: nat) {
    forall b :: b in s.mem && b != x ==> InUse(s, b)
  }

  predicate OwnedBy(s: State, b: nat, id: nat)
    requires b in s.mem
  {
    s.mem[b].owner == HeaderOf(id) || s.mem[b].owner == FileOf(id)
  }

  lemma UseStays(s: State, s2: State, x: nat, b: nat)
    requires Table(s) && DiffersAt(s, s2, x) && b in s.mem && !OwnedBy(s, b, x) && InUse(s, b)
    requires x in s.ops ==> !s.ops[x].Write?
    requires forall id :: id in s.ops ==> id < |s.tasks|
    ensures b in s2.mem && InUse(s2, b)
  {
    if s.mem[b].owner.Reply? {
      var id :| id in s.ops && s.ops[id].Write? && s.ops[id].block == b;
      assert id in s2.ops && s2.ops[id] == s.ops[id];
    }
  }

  /** The new blocks and those of task `x` are in use behind a step. */
  ghost predicate OwnInUse(s: State, s2: State, x: nat, but: nat, but2: nat) {
    forall b :: b in s2.mem && b != but2 && (b !in s.mem || b == but || OwnedBy(s, b, x)) ==> InUse(s2, b)
  }

  /** The table, the memory and the operations are in order. */
  ghost predicate Orderly(s: State) {
    Table(s) && s.freedIdxs == {} && MemoryOk(s) && forall id :: id in s.ops ==> id < |s.tasks|
  }

  /** A step that changes task `x` and its blocks only: it remains to look at those and at the new ones. */
  lemma Framed(s: State, s2: State, x: nat, but: nat, but2: nat)
    requires Orderly(s) && Table(s) && DiffersAt(s, s2, x) && NoLeakBut(s, but) && OwnInUse(s, s2, x, but, but2)
    requires x in s.ops ==> !s.ops[x].Write?
    ensures NoLeakBut(s2, but2)
  {
    hide DiffersAt, InUse, OwnedBy, Table, MemoryOk;
    forall b | b in s2.mem && b != but2
      ensures InUse(s2, b)
    {
      if b in s.mem && b != but && !OwnedBy(s, b, x) {
        UseStays(s, s2, x, b);
      }
    }
  }

  // ---------------------------------------------------------------- the cache

  /** The cache lists what it listed and took over, but for what it has freed. */
  lemma ListedOrFreed(c: Cache, op: C.Op, b: nat)
    requires b in Buffers(c.items) || (C.Accepts(c, op) && op.buff == b)
    ensures b in Buffers(C.Step(c, op).items) || b in C.Step(c, op).freed
  {
    C.StepConserves(c, op);
    var d := C.Step(c, op);
    hide C.Step, C.Accepts;
    assert b in multiset(Buffers(c.items)) ==> b in C.Owned(c);
    assert b in C.Owned(d);
  }

  lemma BufferListed(items: seq<Item>, it: Item)
    requires it in items
    ensures it.buff in Buffers(items)
  {
    var i :| 0 <= i < |items| && items[i] == it;
    assert Buffers(items)[i] == it.buff;
  }

  lemma ListedItem(items: seq<Item>, b: nat) returns (it: Item)
    requires b in Buffers(items)
    ensures it in items && it.buff == b
  {
    var i :| 0 <= i < |items| && Buffers(items)[i] == b;
    it := items[i];
  }

  /** A cache operation leaves nothing behind: what it drops is freed, and what it takes over is listed. */
  lemma CacheKeepsAll(s: State, op: C.Op, but: nat)
    requires MemoryOk(s) && Deposited(s, op) && NoLeakBut(s, if op.Add? then op.buff else but) && (op.Add? ==> C.Accepts(s.cache, op))
    ensures NoLeakBut(WithCache(s, C.Step(s.cache, op)), if op.Add? then 0 else but)
  {
    var d := C.Step(s.cache, op);
    var s2 := WithCache(s, d);
    CacheMemory(s, op);
    hide C.Step, C.Accepts, Deposited;
    forall b | b in s2.mem && b != (if op.Add? then 0 else but)
      ensures InUse(s2, b)
    {
      CachedStays(s, op, b, but);
      if s.mem[b].owner.Reply? {
        var id :| id in s.ops && s.ops[id].Write? && s.ops[id].block == b;
        assert id in s2.ops;
      }
    }
  }

  lemma CachedStays(s: State, op: C.Op, b: nat, but: nat)
    requires MemoryOk(s) && Deposited(s, op) && NoLeakBut(s, if op.Add? then op.buff else but) && (op.Add? ==> C.Accepts(s.cache, op))
    requires MemoryOk(WithCache(s, C.Step(s.cache, op)))
    requires b in WithCache(s, C.Step(s.cache, op)).mem && b != (if op.Add? then 0 else but)
    ensures b in s.mem && (s.mem[b].owner.Cached? ==> InUse(WithCache(s, C.Step(s.cache, op)), b))
    ensures !s.mem[b].owner.Cached? ==> InUse(s, b)
  {
    var d := C.Step(s.cache, op);
    hide C.Step, C.Accepts, WellFormed;
    if s.mem[b].owner.Cached? {
      if !(op.Add? && op.buff == b) {
        var it :| it in s.cache.items && it.fileName == s.mem[b].owner.name && it.buff == b;
        BufferListed(s.cache.items, it);
      }
      ListedOrFreed(s.cache, op, b);
      var it := ListedItem(d.items, b);
      assert CachedItem(WithCache(s, d).mem, it);
    }
  }

  // ---------------------------------------------------------------- the events

  lemma BaseOrderly(s: State)
    requires Base(s)
    ensures Orderly(s)
  {
    OpsInTable(s);
  }

  /** Who may have blocks: a task with nothing in flight has none but the one that is excepted. */
  lemma IdleOwnsNone(s: State, id: nat, but: nat, b: nat)
    requires NoLeakBut(s, but) && id !in s.ops && b in s.mem && OwnedBy(s, b, id)
    ensures b == but
  {
    NotInUse(s, id, b);
    hide InUse;
  }

  lemma NotInUse(s: State, id: nat, b: nat)
    requires id !in s.ops && b in s.mem && OwnedBy(s, b, id)
    ensures !InUse(s, b)
  {
  }

  lemma SubmitDiffers(s: State, id: nat, client: nat, header: string)
    requires Orderly(s) && id < |s.tasks|
    ensures DiffersAt(s, SubmitFile(s, id, client, header), id)
  {
    NoBlockZero(s);
    hide MemoryOk, Gather, Addrs, Body;
  }

  lemma SubmitOwn(s: State, id: nat, client: nat, header: string, b: nat)
    requires Table(s) && id < |s.tasks| && s.tasks[id].opType == HttpSendFile
    requires b in SubmitFile(s, id, client, header).mem
    ensures b == s.next || (b in s.mem && SubmitFile(s, id, client, header).mem[b] == s.mem[b])
    ensures b == s.next || (s.mem[b].owner == FileOf(id) && b == s.tasks[id].additional) ==> InUse(SubmitFile(s, id, client, header), b)
  {
    hide Gather, Addrs, Body;
  }

  /** The submission of a file or its first range by a task with nothing in flight. */
  lemma SubmitUses(s: State, id: nat, client: nat, header: string)
    requires Orderly(s) && id < |s.tasks| && s.tasks[id].opType == HttpSendFile && id !in s.ops
    requires NoLeakBut(s, s.tasks[id].additional)
    requires s.tasks[id].additional in s.mem ==> s.mem[s.tasks[id].additional].owner == FileOf(id)
    ensures NoLeakBut(SubmitFile(s, id, client, header), 0)
  {
    var s2, block := SubmitFile(s, id, client, header), s.tasks[id].additional;
    SubmitDiffers(s, id, client, header);
    hide SubmitFile, NoLeakBut, DiffersAt, InUse, MemoryOk;
    forall b | b in s2.mem && (b !in s.mem || b == block || OwnedBy(s, b, id))
      ensures InUse(s2, b)
    {
      SubmitOwn(s, id, client, header, b);
      if b in s.mem && OwnedBy(s, b, id) {
        IdleOwnsNone(s, id, block, b);
      }
    }
    Framed(s, s2, id, block, 0);
  }

  lemma UnsatisfiableDiffers(s: State, client: nat, header: string)
    requires Orderly(s)
    ensures DiffersAt(s, SendUnsatisfiable(s, client, header), |s.tasks|)
    ensures var s2 := SendUnsatisfiable(s, client, header);
            (forall b :: b in s2.mem ==> b == s.next || b in s.mem) && s.next in s2.mem && InUse(s2, s.next)
  {
    NoBlockZero(s);
    var s2, n := SendUnsatisfiable(s, client, header), |s.tasks|;
    assert n in s2.ops && s2.ops[n].Write? && s2.ops[n].block == s.next;
    hide MemoryOk;
  }

  lemma UnsatisfiableUses(s: State, client: nat, header: string)
    requires Orderly(s) && NoLeakBut(s, 0)
    ensures NoLeakBut(SendUnsatisfiable(s, client, header), 0)
  {
    var s2, n := SendUnsatisfiable(s, client, header), |s.tasks|;
    UnsatisfiableDiffers(s, client, header);
    hide SendUnsatisfiable, DiffersAt, InUse, MemoryOk, NoLeakBut;
    forall b | b in s.mem && OwnedBy(s, b, n)
      ensures b == 0
    {
      IdleOwnsNone(s, n, 0, b);
    }
    Framed(s, s2, n, 0, 0);
  }

  /** A new task with nothing in flight. */
  lemma NewTaskUses(s: State, t: Task)
    requires Orderly(s) && NoLeakBut(s, 0)
    ensures var s2 := s.(tasks := s.tasks + [t], log := s.log + [NO_LOG]); Orderly(s2) && NoLeakBut(s2, 0)
  {
    var s2 := s.(tasks := s.tasks + [t], log := s.log + [NO_LOG]);
    assert DiffersAt(s, s2, |s.tasks|);
    forall b | b in s.mem && OwnedBy(s, b, |s.tasks|)
      ensures b == 0
    {
      IdleOwnsNone(s, |s.tasks|, 0, b);
    }
    hide NoLeakBut, InUse, DiffersAt;
    Framed(s, s2, |s.tasks|, 0, 0);
  }

  lemma CacheOrderly(s: State, op: C.Op)
    requires Orderly(s) && Deposited(s, op)
    ensures Orderly(WithCache(s, C.Step(s.cache, op)))
  {
    CacheMemory(s, op);
    hide C.Step, Deposited;
  }

  lemma LockedUses(s: State, client: nat, path: string, rangeStr: string, header: string, it: Item)
    requires Orderly(s) && NoLeakBut(s, 0) && (rangeStr == "" || rangeStr == "none" || |rangeStr| >= 6)
    ensures NoLeakBut(SendLocked(s, client, path, rangeStr, header, it), 0)
  {
    hide ParseRanges, SubmitFile, SendUnsatisfiable, Unlock, MemoryOk, NoLeakBut;
    var (s1, id) := GetTaskBuffOp(s, HttpSendFile, it.buff, it.buffLength);
    var (ranges, valid) := ParseRanges(rangeStr, it.buffLength);
    var t := s1.tasks[id].(filepath := path, writeRanges := ranges);
    var s2 := SetTask(s1, id, t);
    NewTaskUses(s, t);
    assert s2 == s.(tasks := s.tasks + [t], log := s.log + [NO_LOG]);
    NoBlockZero(s2);
    if valid {
      SubmitUses(s2, id, client, header);
    } else {
      CacheKeepsAll(s2, C.Release(path), 0);
      CacheOrderly(s2, C.Release(path));
      UnsatisfiableUses(WithCache(s2, Unlock(s2.cache, path)), client, header);
    }
  }

  lemma NoBlockZero(s: State)
    requires Orderly(s)
    ensures 0 !in s.mem && 0 < s.next && forall b :: b in s.mem ==> b < s.next
  {
  }

  lemma UncachedUses(s: State, client: nat, path: string, rangeStr: string, header: string, size: nat)
    requires Orderly(s) && NoLeakBut(s, 0) && (rangeStr == "" || rangeStr == "none" || |rangeStr| >= 6)
    ensures NoLeakBut(SendUncached(s, client, path, rangeStr, header, size), 0)
  {
    hide ParseRanges, SendUnsatisfiable, MemoryOk, NoLeakBut;
    var (ranges, valid) := ParseRanges(rangeStr, size);
    var t := BLANK.(forClient := client, buffLength := size, filepath := path, opType := HttpSendFile, writeRanges := ranges);
    var s2 := s.(tasks := s.tasks + [t], log := s.log + [NO_LOG]);
    NewTaskUses(s, t);
    assert SetTask(GetTask(s).0, |s.tasks|, t) == s2;
    if valid {
      FreshReadUses(s2, |s.tasks|, size);
      assert SetTask(Malloc(s2, FileOf(|s.tasks|), seq(size, _ => '\0')).0, |s.tasks|, t.(buff := Bytes(s.next)))
             == SetTask(Malloc(s2, FileOf(|s.tasks|), seq(size, _ => '\0')).0, |s.tasks|, s2.tasks[|s.tasks|].(buff := Bytes(s.next)));
    } else {
      UnsatisfiableUses(s2, client, header);
    }
  }

  lemma FreshReadUses(s: State, id: nat, size: nat)
    requires Orderly(s) && NoLeakBut(s, 0) && id < |s.tasks| && id !in s.ops && s.tasks[id].opType == HttpSendFile
    ensures var (s2, b) := Malloc(s, FileOf(id), seq(size, _ => '\0'));
            var s3 := SetTask(s2, id, s.tasks[id].(buff := Bytes(b)));
            NoLeakBut(s3.(ops := s3.ops[id := Read(b, 0, size)]), 0)
  {
    NoBlockZero(s);
    var (s2, b) := Malloc(s, FileOf(id), seq(size, _ => '\0'));
    var s3 := SetTask(s2, id, s.tasks[id].(buff := Bytes(b)));
    var s4 := s3.(ops := s3.ops[id := Read(b, 0, size)]);
    hide MemoryOk;
    assert DiffersAt(s, s4, id) && InUse(s4, b);
    hide NoLeakBut, InUse, DiffersAt;
    forall b | b in s.mem && OwnedBy(s, b, id)
      ensures b == 0
    {
      IdleOwnsNone(s, id, 0, b);
    }
    Framed(s, s4, id, 0, 0);
  }

  lemma SendUses(s: State, e: Event)
    requires Base(s) && NoLeakBut(s, 0) && MayHappen(s, e) && e.Send?
    ensures NoLeakBut(Step(s, e), 0)
  {
    BaseOrderly(s);
    CacheKeepsAll(s, C.Lock(e.path), 0);
    CacheOrderly(s, C.Lock(e.path));
    hide Base, NoLeakBut, Orderly, GetAndLock, SendLocked, SendUncached, WithCache;
    var (c, hit) := GetAndLock(s.cache, e.path);
    var s1 := WithCache(s, c);
    match hit
    case Some(it) => LockedUses(s1, e.client, e.path, e.rangeStr, e.header, it);
    case None =>
      if e.size.Some? {
        UncachedUses(s1, e.client, e.path, e.rangeStr, e.header, e.size.value);
      }
  }

  /** Task `id` reads a file into its buffer. */
  predicate ReadsFile(s: State, id: nat) {
    && id in s.ops && s.ops[id].Read? && id < |s.tasks| && s.tasks[id].buff.Bytes? && s.tasks[id].opType == HttpSendFile
    && s.tasks[id].buff.block in s.mem && s.mem[s.tasks[id].buff.block].owner == FileOf(id)
  }

  lemma ReadFailedUses(s: State, id: nat)
    requires Orderly(s) && NoLeakBut(s, 0) && ReadsFile(s, id)
    ensures NoLeakBut(ReadFailed(s, id), 0)
  {
    var s2 := ReadFailed(s, id);
    assert DiffersAt(s, s2, id);
    assert forall b :: b in s.mem && OwnedBy(s, b, id) ==> InUse(s, b);
    Framed(s, s2, id, 0, 0);
  }

  /** Other bytes in the buffer of a file do not change who uses it. */
  lemma ArrivedUses(s: State, id: nat, data: string)
    requires Orderly(s) && NoLeakBut(s, 0) && ReadsFile(s, id)
    ensures var s2 := Arrived(s, id, data);
            Orderly(s2) && NoLeakBut(s2, 0) && ReadsFile(s2, id) && s2.ops == s.ops && s2.tasks == s.tasks
  {
    hide Overwrite;
    var s2 := Arrived(s, id, data);
    forall b | b in s2.mem
      ensures b != 0 ==> InUse(s2, b)
    {
      assert b in s.mem && s2.mem[b].owner == s.mem[b].owner;
    }
  }

  /** The only block of a task that reads a file is its buffer. */
  lemma OwnedByReader(s: State, id: nat, b: nat)
    requires NoLeakBut(s, 0) && ReadsFile(s, id) && b in s.mem && b != 0 && OwnedBy(s, b, id)
    ensures b == s.tasks[id].buff.block
  {
    assert InUse(s, b);
  }

  lemma SubmitReadUses(s: State, id: nat, header: string)
    requires Orderly(s) && NoLeakBut(s, 0) && ReadsFile(s, id)
    ensures NoLeakBut(SubmitRead(s, id, header), 0)
  {
    var t := s.tasks[id];
    var s1 := SetTask(s, id, t.(additional := BlockOf(t.buff), forClient := SIZE_MAX));
    var s0 := s1.(ops := Remove(s1.ops, id));
    hide MemoryOk;
    assert DiffersAt(s, s0, id);
    hide SubmitFile, NoLeakBut, DiffersAt, InUse;
    forall b | b in s.mem && OwnedBy(s, b, id) && b != 0
      ensures b == t.buff.block
    {
      OwnedByReader(s, id, b);
    }
    Framed(s, s0, id, 0, t.buff.block);
    SubmitReplaces(s1, id, t.forClient, header);
    SubmitUses(s0, id, t.forClient, header);
    CloseUses(SubmitFile(s1, id, t.forClient, header));
  }

  lemma CloseUses(s: State)
    requires Table(s) && s.freedIdxs == {} && NoLeakBut(s, 0)
    ensures var (s2, closeId) := GetTask(s); NoLeakBut(SetTask(s2, closeId, BLANK.(opType := RawClose)), 0)
  {
    var (s2, closeId) := GetTask(s);
    var s3 := SetTask(s2, closeId, BLANK.(opType := RawClose));
    forall b | b in s3.mem && b != 0
      ensures InUse(s3, b)
    {
      assert InUse(s, b);
    }
  }

  lemma ReadUses(s: State, e: Event)
    requires Base(s) && NoLeakBut(s, 0) && MayHappen(s, e) && e.ReadDone?
    ensures NoLeakBut(Step(s, e), 0)
  {
    assert OpOk(s, e.id);
    BaseOrderly(s);
    hide Base, NoLeakBut, Orderly, FileRead, ReadFailed;
    match e.result
    case ReadInterrupted(resubmitted) => ReadFailedUses(s, e.id); ReadEnds(s, e);
    case ReadError => ReadFailedUses(s, e.id); ReadEnds(s, e);
    case Got(data) => GotUses(s, e.id, data, e.header);
  }

  lemma ReadEnds(s: State, e: Event)
    requires MayHappen(s, e) && e.ReadDone? && !e.result.Got?
    ensures Step(s, e) == ReadFailed(s, e.id) || Step(s, e) == s
  {
    hide ReadFailed;
  }

  lemma GotUses(s: State, id: nat, data: string, header: string)
    requires Orderly(s) && NoLeakBut(s, 0) && ReadsFile(s, id) && Table(s)
    ensures NoLeakBut(FileRead(s, id, Got(data), header), 0)
  {
    hide NoLeakBut, Orderly, ReadsFile, SubmitRead, ReadFailed, Arrived, FileRead, I.MoreToRead;
    ArrivedUses(s, id, data);
    Reader(s, id);
    I.ReadCases(s, id, data, header);
    var s1, t := Arrived(s, id, data), s.tasks[id];
    if data == "" && t.progress != t.buffLength {
      ReadFailedUses(s1, id);
    } else if data != "" && t.progress + |data| < t.buffLength {
      MoreUses(s1, id, t.progress + |data|);
    } else {
      SubmitReadUses(s1, id, header);
    }
  }

  lemma Reader(s: State, id: nat)
    requires ReadsFile(s, id)
    ensures id < |s.tasks|
  {
  }

  lemma MoreUses(s: State, id: nat, total: nat)
    requires NoLeakBut(s, 0) && ReadsFile(s, id) && total <= s.tasks[id].buffLength
    ensures NoLeakBut(I.MoreToRead(s, id, total), 0)
  {
    var s2 := I.MoreToRead(s, id, total);
    forall b | b in s2.mem && b != 0
      ensures InUse(s2, b)
    {
      assert InUse(s, b);
      if s.mem[b].owner.Reply? {
        var i :| i in s.ops && s.ops[i].Write? && s.ops[i].block == b;
        assert i in s2.ops && s2.ops[i] == s.ops[i];
      }
    }
  }

  // writing

  /** Task `id` writes a file from two iovecs. */
  predicate WritesFile(s: State, id: nat) {
    && id in s.ops && s.ops[id].Writev? && id < |s.tasks| && s.tasks[id].opType == HttpSendFile
    && |Orig(s.tasks[id])| == 2 && HeaderHeld(s.mem, HeaderBlock(s.tasks[id]), id)
    && (s.tasks[id].additional != 0 ==> FileBlock(s.mem, s.tasks[id].additional, id, s.tasks[id].buffLength))
  }

  lemma TornUses(s: State, id: nat)
    requires Orderly(s) && NoLeakBut(s, 0) && WritesFile(s, id)
    ensures var s2 := TearDown(s, id); Orderly(s2) && NoLeakBut(s2, s.tasks[id].additional) && id !in s2.ops
    ensures var s2, t := TearDown(s, id), s.tasks[id];
            (t.additional != 0 ==> FileBlock(s2.mem, t.additional, id, t.buffLength)) && s2.cache == s.cache
  {
    var s2 := TearDown(s, id);
    TornDiffers(s, id);
    TornMemory(s, id);
    hide TearDown, NoLeakBut, DiffersAt, InUse, MemoryOk, FileBlock;
    forall b | b in s2.mem && OwnedBy(s, b, id) && b != 0
      ensures b == s.tasks[id].additional
    {
      OwnedByWriter(s, id, b);
    }
    Framed(s, s2, id, 0, s.tasks[id].additional);
  }

  lemma TornDiffers(s: State, id: nat)
    requires Orderly(s) && WritesFile(s, id)
    ensures var s2 := TearDown(s, id);
            && DiffersAt(s, s2, id) && s2.cache == s.cache && id !in s2.ops && HeaderBlock(s.tasks[id]) !in s2.mem
            && forall b :: b in s2.mem ==> b in s.mem && s2.mem[b] == s.mem[b]
  {
    NoBlockZero(s);
    hide MemoryOk, FileBlock;
  }

  lemma TornMemory(s: State, id: nat)
    requires Orderly(s) && WritesFile(s, id)
    ensures var s2, t := TearDown(s, id), s.tasks[id];
            Orderly(s2) && (t.additional != 0 ==> FileBlock(s2.mem, t.additional, id, t.buffLength))
  {
    var s2 := TearDown(s, id);
    forall it | it in s2.cache.items
      ensures CachedItem(s2.mem, it)
    {
      assert CachedItem(s.mem, it);
    }
    hide WellFormed;
  }

  lemma DepositUses(s: State, x: nat, path: string, block: nat, len: nat, wd: int)
    requires Orderly(s) && NoLeakBut(s, block) && x !in s.ops && FileBlock(s.mem, block, x, len)
    ensures NoLeakBut(Deposit(s, path, block, len, wd), 0)
  {
    NoBlockZero(s);
    if AddOrUpdate(s.cache, path, block, len, wd).1 {
      AddUses(s, x, path, block, len, wd);
    } else {
      FreedUses(s, block);
      hide AddOrUpdate, NoLeakBut, Orderly, FileBlock;
    }
  }

  /** The cache takes the buffer over. */
  lemma AddUses(s: State, x: nat, path: string, block: nat, len: nat, wd: int)
    requires Orderly(s) && NoLeakBut(s, block) && x !in s.ops && FileBlock(s.mem, block, x, len)
    requires AddOrUpdate(s.cache, path, block, len, wd).1
    ensures NoLeakBut(Deposit(s, path, block, len, wd), 0)
  {
    hide AddOrUpdate, NoLeakBut, MemoryOk, Deposited;
    var op := C.Add(path, block, len, wd);
    var owned := s.(mem := s.mem[block := s.mem[block].(owner := Cached(path))]);
    OwnedUses(s, x, path, block, len);
    assert C.Accepts(owned.cache, op);
    AddedHeld(s, x, op);
    CacheKeepsAll(owned, op, 0);
    assert Deposit(s, path, block, len, wd) == WithCache(owned, C.Step(owned.cache, op));
  }

  lemma FreedUses(s: State, block: nat)
    requires NoLeakBut(s, block)
    ensures NoLeakBut(Free(s, block), 0)
  {
    var s2 := Free(s, block);
    forall b | b in s2.mem && b != 0
      ensures InUse(s2, b)
    {
      assert InUse(s, b);
    }
  }

  lemma OwnedUses(s: State, x: nat, path: string, block: nat, len: nat)
    requires Orderly(s) && NoLeakBut(s, block) && x !in s.ops && FileBlock(s.mem, block, x, len)
    ensures var owned := s.(mem := s.mem[block := s.mem[block].(owner := Cached(path))]);
            MemoryOk(owned) && NoLeakBut(owned, block) && forall wd :: Deposited(owned, C.Add(path, block, len, wd))
  {
    hide WellFormed;
    var owned := s.(mem := s.mem[block := s.mem[block].(owner := Cached(path))]);
    forall it | it in s.cache.items
      ensures it.buff != block && CachedItem(owned.mem, it)
    {
      assert CachedItem(s.mem, it);
    }
    forall b | b in owned.mem && b != block
      ensures InUse(owned, b)
    {
      assert InUse(s, b);
    }
  }

  /** The buffer just added is not freed by that. */
  lemma AddedHeld(s: State, x: nat, op: C.Op)
    requires Orderly(s) && op.Add? && FileBlock(s.mem, op.buff, x, op.len)
    ensures op.buff !in C.Step(s.cache, op).freed
  {
    forall b | b in C.Step(s.cache, op).freed
      ensures b != op.buff
    {
      if b !in s.cache.freed {
        var was := C.FreedSource(s.cache, op, b);
        assert CachedItem(s.mem, was);
      }
    }
  }

  lemma FinishUses(s: State, id: nat, wd: int)
    requires Orderly(s) && NoLeakBut(s, 0) && WritesFile(s, id)
    ensures NoLeakBut(FinishSend(s, id, wd), 0)
  {
    var t, s1 := s.tasks[id], TearDown(s, id);
    TornUses(s, id);
    CacheKeepsAll(s1, C.Release(t.filepath), t.additional);
    CacheOrderly(s1, C.Release(t.filepath));
    if t.additional != 0 {
      KeptByCache(s1, C.Release(t.filepath), t.additional);
    }
    hide NoLeakBut, Orderly, TearDown, Unlock, Deposit, WritesFile;
    var s2 := WithCache(s1, Unlock(s1.cache, t.filepath));
    if t.additional != 0 {
      DepositUses(s2, id, t.filepath, t.additional, t.buffLength, wd);
    }
  }

  /** The only blocks of a task that writes a file are its header and the file. */
  lemma OwnedByWriter(s: State, id: nat, b: nat)
    requires NoLeakBut(s, 0) && WritesFile(s, id) && b in s.mem && b != 0 && OwnedBy(s, b, id)
    ensures b == HeaderBlock(s.tasks[id]) || (s.mem[b].owner == FileOf(id) && b == s.tasks[id].additional)
  {
    assert InUse(s, b);
  }

  lemma RangeDiffers(s: State, id: nat, client: nat, header: string)
    requires Orderly(s) && WritesFile(s, id)
    ensures DiffersAt(s, NextRange(s, id, client, header), id)
  {
    NoBlockZero(s);
    hide MemoryOk, Body, FileBlock;
  }

  lemma RangeOwn(s: State, id: nat, client: nat, header: string, b: nat)
    requires WritesFile(s, id) && HeaderBlock(s.tasks[id]) < s.next && b in NextRange(s, id, client, header).mem
    ensures b == s.next || (b in s.mem && b != HeaderBlock(s.tasks[id]))
    ensures b == s.next || (b in s.mem && s.mem[b].owner == FileOf(id) && b == s.tasks[id].additional) ==>
              InUse(NextRange(s, id, client, header), b)
  {
    hide Body, FileBlock;
  }

  lemma RangeUses(s: State, id: nat, client: nat, header: string)
    requires Orderly(s) && NoLeakBut(s, 0) && WritesFile(s, id)
    ensures NoLeakBut(NextRange(s, id, client, header), 0)
  {
    var s2 := NextRange(s, id, client, header);
    RangeDiffers(s, id, client, header);
    NoBlockZero(s);
    hide NextRange, NoLeakBut, DiffersAt, InUse, MemoryOk, FileBlock;
    forall b | b in s2.mem && b != 0 && (b !in s.mem || OwnedBy(s, b, id))
      ensures InUse(s2, b)
    {
      RangeOwn(s, id, client, header, b);
      if b in s.mem && OwnedBy(s, b, id) {
        OwnedByWriter(s, id, b);
      }
    }
    Framed(s, s2, id, 0, 0);
  }

  /** A new history of the task. */
  lemma LoggedUses(s: State, id: nat, l: Log)
    requires Orderly(s) && NoLeakBut(s, 0) && id < |s.log|
    ensures var s2 := s.(log := s.log[id := l]); Orderly(s2) && NoLeakBut(s2, 0)
  {
    var s2 := s.(log := s.log[id := l]);
    forall b | b in s2.mem && b != 0
      ensures InUse(s2, b)
    {
      assert InUse(s, b);
    }
  }

  /** A write of the application's own iovecs has no blocks. */
  lemma AppUses(s: State, s2: State, id: nat)
    requires Orderly(s) && NoLeakBut(s, 0) && id in s.ops && s.ops[id].Writev? && s.tasks[id].opType != HttpSendFile
    requires DiffersAt(s, s2, id) && s2.mem == s.mem
    ensures NoLeakBut(s2, 0)
  {
    assert forall b :: b in s.mem && OwnedBy(s, b, id) ==> InUse(s, b);
    Framed(s, s2, id, 0, 0);
  }

  lemma WrittenUses(s: State, e: Event)
    requires Base(s) && NoLeakBut(s, 0) && MayHappen(s, e) && e.Written?
    ensures NoLeakBut(Step(s, e), 0)
  {
    hide Base, NoLeakBut, Orderly, Step, Gather, Addrs, Size, Rebuilt, FinishSend, NextRange, WritesFile;
    var id, t, l := e.id, s.tasks[e.id], s.log[e.id];
    Writer(s, id);
    BaseOrderly(s);
    WrittenCases(s, e);
    match e.outcome
    case Interrupted =>
    case Error =>
      var l2 := l.(status := Failed);
      LoggedUses(s, id, l2);
      EndUses(s, e, s.(log := s.log[id := l2]));
    case Moved(k) =>
      if t.progress + k < Size(Orig(t)) {
        PartDone(s, id, k, e.header, e.wd);
        PartUses(s, id, Rebuilt(Orig(t), t.progress + k), t.progress + k,
                 l.(sent := l.sent + Gather(s.mem, Addrs(s.ops[id].iovs)[..k])));
      } else {
        var l2 := l.(sent := l.sent + Gather(s.mem, Addrs(s.ops[id].iovs)[..k]), status := Done);
        LoggedUses(s, id, l2);
        EndUses(s, e, s.(log := s.log[id := l2]));
      }
  }

  lemma Writer(s: State, id: nat)
    requires Base(s) && id in s.ops && s.ops[id].Writev?
    ensures id < |s.tasks| && id < |s.log|
    ensures s.tasks[id].opType == HttpSendFile ==> forall l :: WritesFile(s.(log := l), id)
  {
    assert OpOk(s, id);
    hide Base;
  }

  /** The end of a write, whose history `s1` shows. */
  lemma EndUses(s: State, e: Event, s1: State)
    requires Orderly(s1) && NoLeakBut(s1, 0) && e.Written? && s1 == s.(log := s1.log)
    requires e.id in s1.ops && s1.ops[e.id].Writev? && e.id < |s1.tasks| && (s1.tasks[e.id].opType == HttpSendFile ==> WritesFile(s1, e.id))
    ensures var t, client := s1.tasks[e.id], s1.ops[e.id].client;
            && (t.opType == HttpSendFile ==> NoLeakBut(FinishSend(s1, e.id, e.wd), 0) && NoLeakBut(NextRange(s1, e.id, client, e.header), 0))
            && (t.opType != HttpSendFile ==>
                 && NoLeakBut(s1.(ops := Remove(s1.ops, e.id)), 0)
                 && NoLeakBut(SetTask(s1, e.id, t.(iovs := [])).(ops := Remove(s1.ops, e.id)), 0))
  {
    hide NoLeakBut, Orderly, FinishSend, NextRange, WritesFile;
    var t := s1.tasks[e.id];
    if t.opType == HttpSendFile {
      FinishUses(s1, e.id, e.wd);
      RangeUses(s1, e.id, s1.ops[e.id].client, e.header);
    } else {
      AppDiffers(s1, e.id);
      AppUses(s1, s1.(ops := Remove(s1.ops, e.id)), e.id);
      AppUses(s1, SetTask(s1, e.id, t.(iovs := [])).(ops := Remove(s1.ops, e.id)), e.id);
    }
  }

  lemma AppDiffers(s: State, id: nat)
    requires Orderly(s) && id < |s.tasks|
    ensures DiffersAt(s, s.(ops := Remove(s.ops, id)), id)
    ensures DiffersAt(s, SetTask(s, id, s.tasks[id].(iovs := [])).(ops := Remove(s.ops, id)), id)
  {
    NoBlockZero(s);
  }

  /** A partial completion. */
  lemma PartUses(s: State, id: nat, iovs: seq<IoVec>, total: nat, l: Log)
    requires Orderly(s) && NoLeakBut(s, 0) && id in s.ops && s.ops[id].Writev? && id < |s.tasks|
    ensures NoLeakBut(s.(tasks := s.tasks[id := s.tasks[id].(iovs := iovs, progress := total)],
                         ops := s.ops[id := Writev(s.ops[id].client, iovs)], log := s.log[id := l]), 0)
  {
    var s2 := s.(tasks := s.tasks[id := s.tasks[id].(iovs := iovs, progress := total)],
                 ops := s.ops[id := Writev(s.ops[id].client, iovs)], log := s.log[id := l]);
    NoBlockZero(s);
    assert DiffersAt(s, s2, id);
    forall b | b in s2.mem && OwnedBy(s, b, id)
      ensures InUse(s2, b)
    {
      assert b in s.mem && b != 0 && InUse(s, b);
    }
    Framed(s, s2, id, 0, 0);
  }

  lemma VecsUses(s: State, client: nat, vecs: seq<IoVec>)
    requires Orderly(s) && NoLeakBut(s, 0)
    ensures NoLeakBut(AppWritev(s, client, vecs), 0)
  {
    var s2 := AppWritev(s, client, vecs);
    NoBlockZero(s);
    assert DiffersAt(s, s2, |s.tasks|);
    assert forall b :: b in s.mem && OwnedBy(s, b, |s.tasks|) ==> InUse(s, b);
    Framed(s, s2, |s.tasks|, 0, 0);
  }

  /** No event leaves a block behind that nobody uses. */
  lemma StepLeaksNothing(s: State, e: Event)
    requires Base(s) && NoLeakBut(s, 0) && MayHappen(s, e)
    ensures NoLeakBut(Step(s, e), 0)
  {
    BaseOrderly(s);
    hide Base, Orderly, NoLeakBut, SendFile, FileRead, WritevDone, AppWritev, ProcessEvent;
    match e
    case Send(_, _, _, _, _) => SendUses(s, e);
    case SendVecs(client, vecs) => VecsUses(s, client, vecs);
    case ReadDone(_, _, _) => ReadUses(s, e);
    case Written(_, _, _, _) => WrittenUses(s, e);
    case Inotify(wd) => EventUses(s, wd);
  }

  lemma EventUses(s: State, wd: int)
    requires Orderly(s) && NoLeakBut(s, 0)
    ensures NoLeakBut(WithCache(s, ProcessEvent(s.cache, wd)), 0)
  {
    CacheKeepsAll(s, C.Event(wd), 0);
  }

  /** In every run, stolen locks or not, every block that was allocated and not freed is in use; so once nothing is
      in flight, what is left in memory are exactly the buffers the cache lists. */
  lemma {:induction false} NothingLeaks(size: nat, es: seq<Event>)
    requires Feasible(Init(size), es)
    ensures var s := RunAll(Init(size), es);
            && Base(s) && NoLeakBut(s, 0)
            && (s.ops.Keys == {} ==> s.mem.Keys == set b | b in Buffers(s.cache.items))
  {
    hide Step, MayHappen, InUse;
    if es == [] {
      InitInv(size, "");
    } else {
      var s, e := RunAll(Init(size), es[..|es| - 1]), es[|es| - 1];
      NothingLeaks(size, es[..|es| - 1]);
      BaseStep(s, e);
      StepLeaksNothing(s, e);
    }
    AtRest(RunAll(Init(size), es));
  }

  lemma AtRest(s: State)
    requires Base(s) && NoLeakBut(s, 0)
    ensures s.ops.Keys == {} ==> s.mem.Keys == set b | b in Buffers(s.cache.items)
  {
    if s.ops.Keys == {} {
      forall b | b in s.mem
        ensures b in Buffers(s.cache.items)
      {
        assert InUse(s, b);
        var it :| it in s.cache.items && it.buff == b;
        BufferListed(s.cache.items, it);
      }
      forall b | b in Buffers(s.cache.items)
        ensures b in s.mem
      {
        var it := ListedItem(s.cache.items, b);
        assert CachedItem(s.mem, it);
      }
    }
  }
}
