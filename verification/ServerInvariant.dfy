/** What every event keeps: memory, cache and in-flight sends fit together. */
module ServerInvariant {
  import opened Options
  import opened CacheSpec
  import C = CacheRuns
  import opened Vectored
  import opened ServerSpec
  import opened Ranges

  predicate FileBlock(mem: map<nat, Block>, b: nat, id: nat, len: nat) {
    b in mem && mem[b].owner == FileOf(id) && |mem[b].bytes| == len
  }

  predicate HeaderHeld(mem: map<nat, Block>, b: nat, id: nat) {
    b in mem && mem[b].owner == HeaderOf(id)
  }

  predicate CachedItem(mem: map<nat, Block>, it: Item) {
    it.buff in mem && mem[it.buff].owner == Cached(it.fileName) && |mem[it.buff].bytes| == it.buffLength
  }

  /** Blocks are allocated below `next`; what the cache freed is gone; what it holds is live, its own,
      and as long as recorded. */
  ghost predicate MemoryOk(s: State) {
    && 0 < s.next
    && (forall b :: b in s.mem ==> 0 < b < s.next)
    && (forall b :: b in s.cache.freed ==> b < s.next && b !in s.mem)
    && WellFormed(s.cache)
    && (forall it :: it in s.cache.items ==> CachedItem(s.mem, it))
  }

  /** An operation in flight owns the blocks it refers to. */
  predicate OpOk(s: State, id: nat)
    requires id in s.ops
  {
    && id < |s.tasks| && id < |s.log|
    && var t := s.tasks[id];
       match s.ops[id]
       case Read(b, off, len) =>
         && t.opType == HttpSendFile && t.buff == Bytes(b) && t.additional == 0 && t.iovs == []
         && s.log[id].file == None && off == t.progress && off + len == t.buffLength && FileBlock(s.mem, b, id, t.buffLength)
       case Writev(_, iovs) =>
         && (s.log[id].file.Some? ==>
               t.opType == HttpSendFile && t.additional == 0 && s.log[id].file == Some(t.filepath))
         && iovs == t.iovs && t.buff.Vecs?
         && (t.opType == HttpSendFile ==>
           && |Orig(t)| == 2 && HeaderHeld(s.mem, HeaderBlock(t), id)
           && (t.additional != 0 ==> FileBlock(s.mem, t.additional, id, t.buffLength)))
       case Write(_, _) => true
  }

  predicate IsCachedSend(s: State, id: nat, f: string) {
    && id in s.ops && s.ops[id].Writev? && id < |s.tasks|
    && s.tasks[id].opType == HttpSendFile && s.tasks[id].additional == 0 && s.tasks[id].filepath == f
  }

  /** The in-flight sends of `f` that took a lock on its cache entry. */
  function Sends(s: State, f: string): set<nat> {
    set id | id in s.ops && IsCachedSend(s, id, f)
  }

  predicate AllBytes(cells: seq<Cell>) {
    forall i :: 0 <= i < |cells| ==> cells[i].Byte?
  }

  /** What was taken of a send of `f` so far is a prefix of what it should be, and all of it at the end. */
  predicate LogOk(l: Log, f: string) {
    l.file == Some(f) ==> AllBytes(l.want) && l.sent <= l.want && (l.status.Done? ==> l.sent == l.want)
  }

  /** An in-flight whole-file send reads the header it allocated and the locked buffer, and stands
      at `progress`. */
  predicate OnCourse(s: State, id: nat, buff: nat, len: nat)
    requires id in s.ops && id < |s.tasks| && id < |s.log|
  {
    var t, l, orig := s.tasks[id], s.log[id], Orig(s.tasks[id]);
    && t.writeRanges == [] && |orig| == 2 && HeaderBlock(t) in s.mem
    && orig[0] == IoVec(Addr(HeaderBlock(t), 0), |s.mem[HeaderBlock(t)].bytes|)
    && orig[1] == IoVec(Addr(buff, 0), len)
    && t.progress <= Size(orig) && Addrs(t.iovs) == Addrs(orig)[t.progress..]
    && l.want == Gather(s.mem, Addrs(orig)) && l.sent == l.want[..t.progress]
  }

  predicate Backed(s: State, id: nat, f: string)
    requires id in s.ops && id < |s.tasks| && id < |s.log|
  {
    var i := IndexOf(s.cache.items, f);
    && (s.log[id].file == None || s.log[id].file == Some(f))
    && (s.log[id].file == Some(f) ==>
         i < |s.cache.items| && OnCourse(s, id, s.cache.items[i].buff, s.cache.items[i].buffLength))
  }

  ghost predicate Base(s: State) {
    Table(s) && s.freedIdxs == {} && MemoryOk(s) && forall id :: id in s.ops ==> OpOk(s, id)
  }

  /** The invariant for file `f`; `extra` locks on it are taken by a send that is being set up or
      torn down. */
  ghost predicate Inv(s: State, f: string, extra: nat) {
    && Base(s)
    && C.Locks(s.cache, f) == |Sends(s, f)| + extra
    && (forall id :: id in Sends(s, f) ==> Backed(s, id, f))
    && (forall l :: l in s.log ==> LogOk(l, f))
  }

  // ---------------------------------------------------------------- steps that leave the cache alone

  /** `s2` differs from `s` at task `x`, in blocks that `x` owns and in new blocks. */
  ghost predicate DiffersAt(s: State, s2: State, x: nat)
    requires Table(s)
  {
    && Table(s2) && s2.freedIdxs == {} && s2.cache == s.cache
    && s.next <= s2.next && |s.tasks| <= |s2.tasks|
    && (forall id :: id != x ==> (id in s.ops <==> id in s2.ops))
    && (forall id :: id != x && id in s.ops && id < |s.tasks| ==>
          s2.ops[id] == s.ops[id] && s2.tasks[id] == s.tasks[id] && s2.log[id] == s.log[id])
    && (forall b :: b in s.mem && s.mem[b].owner != HeaderOf(x) && s.mem[b].owner != FileOf(x) ==>
          b in s2.mem && s2.mem[b] == s.mem[b])
    && (forall b :: b in s2.mem ==> (b in s.mem || s.next <= b) && 0 < b < s2.next)
  }

  lemma OnCourseStays(s: State, s2: State, id: nat, buff: nat, len: nat)
    requires id in s.ops && id < |s.tasks| && id < |s.log| && OnCourse(s, id, buff, len)
    requires id in s2.ops && id < |s2.tasks| && id < |s2.log|
    requires s2.tasks[id] == s.tasks[id] && s2.log[id] == s.log[id]
    requires HeaderBlock(s.tasks[id]) in s2.mem
             && s2.mem[HeaderBlock(s.tasks[id])].bytes == s.mem[HeaderBlock(s.tasks[id])].bytes
    requires buff in s.mem && buff in s2.mem && s2.mem[buff].bytes == s.mem[buff].bytes
    ensures OnCourse(s2, id, buff, len)
  {
    var orig := Orig(s.tasks[id]);
    GatherSame(s.mem, s2.mem, orig);
  }

  lemma GatherSame(m: map<nat, Block>, m2: map<nat, Block>, vs: seq<IoVec>)
    requires forall v :: v in vs ==> v.base.block in m && v.base.block in m2
                                     && m2[v.base.block].bytes == m[v.base.block].bytes
    ensures Gather(m2, Addrs(vs)) == Gather(m, Addrs(vs))
  {
    if vs != [] {
      assert vs[0] in vs && forall v :: v in vs[1..] ==> v in vs;
      GatherSame(m, m2, vs[1..]);
      GatherSplit(m, Span(vs[0]), Addrs(vs[1..]));
      GatherSplit(m2, Span(vs[0]), Addrs(vs[1..]));
      assert Gather(m2, Span(vs[0])) == Gather(m, Span(vs[0]));
      hide Gather;
    }
  }

  lemma GatherSplit(m: map<nat, Block>, a: seq<Addr>, b: seq<Addr>)
    ensures Gather(m, a + b) == Gather(m, a) + Gather(m, b)
  {
  }

  function One(b: bool): nat {
    if b then 1 else 0
  }

  lemma SendsAgree(s: State, s2: State, x: nat, f: string, id: nat)
    requires Table(s) && DiffersAt(s, s2, x) && id != x && (id in s.ops ==> id < |s.tasks|)
    ensures id in Sends(s, f) <==> id in Sends(s2, f)
  {
  }

  lemma SendsDifferAt(s: State, s2: State, x: nat, f: string)
    requires Table(s) && DiffersAt(s, s2, x) && forall id :: id in s.ops ==> id < |s.tasks|
    ensures Sends(s2, f) - {x} == Sends(s, f) - {x}
    ensures |Sends(s2, f)| + One(x in Sends(s, f)) == |Sends(s, f)| + One(x in Sends(s2, f))
  {
    hide Sends, DiffersAt;
    forall id | id != x
      ensures id in Sends(s, f) <==> id in Sends(s2, f)
    {
      SendsAgree(s, s2, x, f, id);
    }
    CountWithout(Sends(s, f), x);
    CountWithout(Sends(s2, f), x);
    assert Sends(s2, f) - {x} == Sends(s, f) - {x};
  }

  lemma CountWithout(ids: set<nat>, x: nat)
    ensures |ids| == |ids - {x}| + One(x in ids)
  {
    if x !in ids {
      assert ids - {x} == ids;
    }
  }

  lemma OpsInTable(s: State)
    requires Base(s)
    ensures Table(s) && s.freedIdxs == {} && forall id :: id in s.ops ==> id < |s.tasks|
  {
    forall id | id in s.ops
      ensures id < |s.tasks|
    {
      assert OpOk(s, id);
    }
  }

  lemma InvBase(s: State, f: string)
    requires Inv(s, f, 0)
    ensures Base(s)
  {
  }

  lemma OpStays(s: State, s2: State, x: nat, id: nat)
    requires Base(s) && DiffersAt(s, s2, x) && id in s2.ops && id != x
    ensures id in s.ops && OpOk(s, id) && OpOk(s2, id)
  {
    hide MemoryOk, CachedItem;
    assert OpOk(s, id);
    BlocksBelow(s);
  }

  lemma BlocksBelow(s: State)
    requires Base(s)
    ensures forall b :: b in s.mem ==> 0 < b < s.next
  {
  }

  lemma BackedStays(s: State, s2: State, x: nat, id: nat, f: string)
    requires Base(s) && DiffersAt(s, s2, x) && id in s.ops && id in s2.ops && id != x && Table(s2) && id < |s.tasks|
    requires id < |s2.tasks| && s.tasks[id].opType == HttpSendFile && s.ops[id].Writev? && Backed(s, id, f)
    ensures Backed(s2, id, f)
  {
    hide WellFormed, OnCourse;
    assert OpOk(s, id);
    if s.log[id].file == Some(f) {
      var i := IndexOf(s.cache.items, f);
      assert s.cache.items[i] in s.cache.items;
      OnCourseStays(s, s2, id, s.cache.items[i].buff, s.cache.items[i].buffLength);
    }
  }

  /** The general step: if task `x` is left in order, the invariant holds again, and the balance of
      locks shifts by whether `x` was and is a cached send of `f`. */
  lemma Frame(s: State, s2: State, x: nat, f: string, extra: nat, extra2: nat)
    requires Inv(s, f, extra) && DiffersAt(s, s2, x)
    requires x in s2.ops ==> OpOk(s2, x)
    requires x in Sends(s2, f) ==> Backed(s2, x, f)
    requires forall l :: l in s2.log ==> l in s.log || LogOk(l, f)
    requires extra2 + One(x in Sends(s2, f)) == extra + One(x in Sends(s, f))
    ensures Inv(s2, f, extra2)
  {
    hide OpOk, Backed, LogOk, WellFormed;
    OpsInTable(s);
    SendsDifferAt(s, s2, x, f);
    forall it | it in s.cache.items
      ensures CachedItem(s2.mem, it)
    {
    }
    forall id | id in s2.ops && id != x
      ensures OpOk(s2, id)
    {
      OpStays(s, s2, x, id);
    }
    forall id | id in Sends(s2, f) && id != x
      ensures Backed(s2, id, f)
    {
      OpStays(s, s2, x, id);
      assert id in Sends(s, f);
      BackedStays(s, s2, x, id, f);
    }
  }

  // ---------------------------------------------------------------- steps of the cache

  /** A block that is not one of the cache's is not freed by it. */
  lemma KeptByCache(s: State, op: C.Op, b: nat)
    requires MemoryOk(s) && b in s.mem && !s.mem[b].owner.Cached?
    ensures b in WithCache(s, C.Step(s.cache, op)).mem
  {
    if b in C.Step(s.cache, op).freed {
      var was := C.FreedSource(s.cache, op, b);
    }
  }

  /** A buffer about to be added is live, already the cache's, and not that of a listed node. */
  ghost predicate Deposited(s: State, op: C.Op) {
    op.Add? ==>
      && op.buff in s.mem && s.mem[op.buff].owner == Cached(op.name) && |s.mem[op.buff].bytes| == op.len
      && forall it :: it in s.cache.items ==> it.buff != op.buff
  }

  /** What the cache holds after an operation is live before it. */
  lemma HeldByCache(s: State, op: C.Op, it: Item)
    requires MemoryOk(s) && Deposited(s, op) && it in C.Step(s.cache, op).items
    ensures CachedItem(s.mem, it)
  {
    var was := C.BufferSource(s.cache, op, it);
    assert was in s.cache.items ==> CachedItem(s.mem, was);
  }

  /** What the cache holds after an operation is not what it frees. */
  lemma HeldNotFreed(s: State, op: C.Op, it: Item)
    requires MemoryOk(s) && Deposited(s, op) && it in C.Step(s.cache, op).items
    ensures it.buff !in C.Step(s.cache, op).freed
  {
    HeldByCache(s, op, it);
    var d := C.Step(s.cache, op);
    forall b | b in d.freed && b !in s.cache.freed
      ensures b != it.buff
    {
      var gone := C.FreedSource(s.cache, op, b);
      assert CachedItem(s.mem, gone);
    }
  }

  lemma CacheMemory(s: State, op: C.Op)
    requires MemoryOk(s) && Deposited(s, op)
    ensures MemoryOk(WithCache(s, C.Step(s.cache, op)))
  {
    var d := C.Step(s.cache, op);
    forall it | it in d.items
      ensures CachedItem(WithCache(s, d).mem, it)
    {
      HeldByCache(s, op, it);
      HeldNotFreed(s, op, it);
    }
    forall b | b in d.freed
      ensures b < s.next
    {
      if b !in s.cache.freed {
        var gone := C.FreedSource(s.cache, op, b);
        assert CachedItem(s.mem, gone);
      }
    }
  }

  /** While `f` is locked its node keeps its buffer. */
  lemma KeepsBuffer(c: Cache, op: C.Op, f: string)
    requires WellFormed(c) && C.Locks(c, f) > 0
    ensures var i, d := IndexOf(c.items, f), C.Step(c, op);
            var j := IndexOf(d.items, f);
            j < |d.items| && d.items[j].buff == c.items[i].buff && d.items[j].buffLength == c.items[i].buffLength
  {
    var it := c.items[IndexOf(c.items, f)];
    C.LockedStays(c, op, it, 0);
  }

  lemma CacheInv(s: State, f: string, extra: nat, op: C.Op, extra2: nat)
    requires Inv(s, f, extra) && Deposited(s, op)
    requires extra2 + One(op == C.Release(f) && C.Locks(s.cache, f) > 0)
             == extra + One(op == C.Lock(f) && GetAndLock(s.cache, f).1.Some?)
    ensures Inv(WithCache(s, C.Step(s.cache, op)), f, extra2)
  {
    hide WellFormed, C.Step, C.Locks, OnCourse, LogOk;
    var s2 := WithCache(s, C.Step(s.cache, op));
    CacheMemory(s, op);
    BaseCache(s);
    C.LocksStep(s.cache, op, f);
    assert Sends(s2, f) == Sends(s, f);
    forall id | id in s2.ops
      ensures OpOk(s2, id)
    {
      OpKept(s, op, id);
    }
    forall id | id in Sends(s2, f)
      ensures Backed(s2, id, f)
    {
      BackedKept(s, op, id, f);
    }
  }

  lemma BaseCache(s: State)
    requires Base(s)
    ensures WellFormed(s.cache)
  {
  }

  /** A cache operation leaves the blocks of an operation in flight alone. */
  lemma OpKept(s: State, op: C.Op, id: nat)
    requires Base(s) && id in s.ops
    ensures OpOk(WithCache(s, C.Step(s.cache, op)), id)
  {
    hide WellFormed, C.Step;
    var s2 := WithCache(s, C.Step(s.cache, op));
    assert OpOk(s, id);
    forall b | b in s.mem && !s.mem[b].owner.Cached?
      ensures b in s2.mem
    {
      KeptByCache(s, op, b);
    }
  }

  /** A send keeps the buffer it locked through a cache operation. */
  lemma BackedKept(s: State, op: C.Op, id: nat, f: string)
    requires Base(s) && Deposited(s, op) && id in Sends(s, f) && Backed(s, id, f) && C.Locks(s.cache, f) > 0 && id < |s.log|
    ensures Backed(WithCache(s, C.Step(s.cache, op)), id, f)
  {
    hide WellFormed, C.Step, C.Locks, OnCourse;
    var s2 := WithCache(s, C.Step(s.cache, op));
    BaseCache(s);
    if s.log[id].file == Some(f) {
      OpKept(s, op, id);
      CacheMemory(s, op);
      KeepsBuffer(s.cache, op, f);
      var i, j := IndexOf(s.cache.items, f), IndexOf(s2.cache.items, f);
      assert s.cache.items[i] in s.cache.items && s2.cache.items[j] in s2.cache.items;
      assert CachedItem(s.mem, s.cache.items[i]) && CachedItem(s2.mem, s2.cache.items[j]);
      assert OpOk(s, id) && OpOk(s2, id);
      OnCourseStays(s, s2, id, s.cache.items[i].buff, s.cache.items[i].buffLength);
    }
  }

  // ---------------------------------------------------------------- the events

  /** `http_send_file_writev_submit_helper` for a task with nothing in flight. */
  lemma SubmitInv(s: State, id: nat, client: nat, header: string, f: string, extra: nat, extra2: nat)
    requires Inv(s, f, extra) && id < |s.tasks| && id !in s.ops
    requires var t := s.tasks[id];
             && t.opType == HttpSendFile && t.buff.Bytes?
             && (t.additional == 0 ==> t.progress == 0 && t.writeRangesIdx == 0)
             && (t.additional != 0 ==> FileBlock(s.mem, t.additional, id, t.buffLength))
             && (t.additional == 0 && t.filepath == f ==>
                  var i := IndexOf(s.cache.items, f);
                  i < |s.cache.items| && s.cache.items[i].buff == t.buff.block && s.cache.items[i].buffLength == t.buffLength)
    requires extra == extra2 + One(s.tasks[id].additional == 0 && s.tasks[id].filepath == f)
    ensures Inv(SubmitFile(s, id, client, header), f, extra2)
  {
    hide WellFormed, C.Locks, Gather, Addrs, Size;
    var t, s2 := s.tasks[id], SubmitFile(s, id, client, header);
    var orig := s2.ops[id].iovs;
    assert Addrs(orig)[0..] == Addrs(orig) && Gather(s2.mem, Addrs(orig))[..0] == [];
    assert Orig(s2.tasks[id]) == orig;
    assert s2.mem[s.next].bytes == header;
    if s2.log[id].file == Some(f) {
      var it := s.cache.items[IndexOf(s.cache.items, f)];
      assert it in s.cache.items;
      WholeLoads(s2.mem, orig);
    }
    Frame(s, s2, id, f, extra, extra2);
  }

  /** Iovecs over live blocks denote bytes only. */
  lemma WholeLoads(mem: map<nat, Block>, vs: seq<IoVec>)
    requires forall v :: v in vs ==> v.base.block in mem && v.base.off + v.len <= |mem[v.base.block].bytes|
    ensures AllBytes(Gather(mem, Addrs(vs)))
  {
    if vs != [] {
      assert vs[0] in vs && Addrs(vs) == Span(vs[0]) + Addrs(vs[1..]);
      WholeLoads(mem, vs[1..]);
      hide Gather, Addrs;
      SpanLoads(mem, vs[0]);
      GatherSplit(mem, Span(vs[0]), Addrs(vs[1..]));
    }
  }

  lemma SpanLoads(mem: map<nat, Block>, v: IoVec)
    requires v.base.block in mem && v.base.off + v.len <= |mem[v.base.block].bytes|
    ensures AllBytes(Gather(mem, Span(v)))
  {
  }

  /** Setting up a task that is not in flight changes nothing that matters. */
  lemma IdleInv(s: State, s2: State, x: nat, f: string, extra: nat)
    requires Inv(s, f, extra) && x !in s.ops
    requires Table(s2) && s2.(tasks := s.tasks, log := s.log) == s && |s.tasks| <= |s2.tasks|
    requires forall id: nat :: id < |s.tasks| && id != x ==> s2.tasks[id] == s.tasks[id] && s2.log[id] == s.log[id]
    requires forall l :: l in s2.log ==> l in s.log || l == NO_LOG
    ensures Inv(s2, f, extra)
  {
    Frame(s, s2, x, f, extra, extra);
  }

  lemma UnsatisfiableInv(s: State, client: nat, header: string, f: string, extra: nat)
    requires Inv(s, f, extra)
    ensures Inv(SendUnsatisfiable(s, client, header), f, extra)
  {
    Frame(s, SendUnsatisfiable(s, client, header), |s.tasks|, f, extra, extra);
  }

  /** An item of the cache has a buffer, and is found by its name. */
  lemma ItemPlace(s: State, it: Item)
    requires MemoryOk(s) && it in s.cache.items
    ensures it.buff != 0
    ensures var i := IndexOf(s.cache.items, it.fileName); i < |s.cache.items| && s.cache.items[i] == it
  {
    assert CachedItem(s.mem, it);
    var i :| 0 <= i < |s.cache.items| && s.cache.items[i] == it;
    C.FoundByName(s.cache, i);
  }

  lemma NoOpBehind(s: State)
    requires Base(s)
    ensures |s.tasks| !in s.ops
  {
    OpsInTable(s);
  }

  lemma LockedInv(s: State, client: nat, path: string, rangeStr: string, header: string, it: Item, f: string)
    requires Inv(s, f, One(path == f)) && (rangeStr == "" || rangeStr == "none" || |rangeStr| >= 6)
    requires it in s.cache.items && it.fileName == path
    ensures Inv(SendLocked(s, client, path, rangeStr, header, it), f, 0)
  {
    hide Backed, OpOk, LogOk, Sends, C.Locks, ParseRanges, SubmitFile, SendUnsatisfiable, Unlock;
    var (s1, id) := GetTaskBuffOp(s, HttpSendFile, it.buff, it.buffLength);
    var (ranges, valid) := ParseRanges(rangeStr, it.buffLength);
    var s2 := SetTask(s1, id, s1.tasks[id].(filepath := path, writeRanges := ranges));
    ItemPlace(s, it);
    NoOpBehind(s);
    IdleInv(s, s2, id, f, One(path == f));
    hide Inv;
    if valid {
      SubmitInv(s2, id, client, header, f, One(path == f), 0);
    } else {
      CacheInv(s2, f, One(path == f), C.Release(path), 0);
      UnsatisfiableInv(WithCache(s2, Unlock(s2.cache, path)), client, header, f, 0);
    }
  }

  lemma UncachedInv(s: State, client: nat, path: string, rangeStr: string, header: string, size: nat, f: string)
    requires Inv(s, f, 0) && (rangeStr == "" || rangeStr == "none" || |rangeStr| >= 6)
    ensures Inv(SendUncached(s, client, path, rangeStr, header, size), f, 0)
  {
    hide ParseRanges, Backed, WellFormed, CachedItem, SendUnsatisfiable;
    var (s1, id) := GetTask(s);
    var (ranges, valid) := ParseRanges(rangeStr, size);
    var t := BLANK.(forClient := client, buffLength := size, filepath := path, opType := HttpSendFile, writeRanges := ranges);
    var s2 := SetTask(s1, id, t);
    IdleInv(s, s2, id, f, 0);
    if valid {
      FreshReadInv(s2, id, size, f);
    } else {
      UnsatisfiableInv(s2, client, header, f, 0);
    }
    hide Inv;
  }

  /** The first read of a file is submitted. */
  lemma FreshReadInv(s: State, id: nat, size: nat, f: string)
    requires Inv(s, f, 0) && id < |s.tasks| && id !in s.ops && id < |s.log| && s.log[id].file == None
    requires var t := s.tasks[id];
             t.opType == HttpSendFile && t.additional == 0 && t.iovs == [] && t.progress == 0 && t.buffLength == size
    ensures var (s2, b) := Malloc(s, FileOf(id), seq(size, _ => '\0'));
            var s3 := SetTask(s2, id, s.tasks[id].(buff := Bytes(b)));
            Inv(s3.(ops := s3.ops[id := Read(b, 0, size)]), f, 0)
  {
    hide Backed, WellFormed, CachedItem, LogOk;
    var (s2, b) := Malloc(s, FileOf(id), seq(size, _ => '\0'));
    var s3 := SetTask(s2, id, s.tasks[id].(buff := Bytes(b)));
    Frame(s, s3.(ops := s3.ops[id := Read(b, 0, size)]), id, f, 0, 0);
  }

  lemma SendInv(s: State, e: Event, f: string)
    requires Inv(s, f, 0) && e.Send? && MayHappen(s, e)
    ensures Inv(Step(s, e), f, 0)
  {
    var (c, hit) := GetAndLock(s.cache, e.path);
    var s1 := WithCache(s, c);
    CacheInv(s, f, 0, C.Lock(e.path), One(hit.Some? && e.path == f));
    match hit
    case Some(it) =>
      assert it == c.items[0];
      LockedInv(s1, e.client, e.path, e.rangeStr, e.header, it, f);
    case None =>
      if e.size.Some? {
        UncachedInv(s1, e.client, e.path, e.rangeStr, e.header, e.size.value, f);
      }
  }

  lemma ReadFailedInv(s: State, id: nat, f: string)
    requires Inv(s, f, 0) && id in s.ops && s.ops[id].Read?
    ensures Inv(ReadFailed(s, id), f, 0)
  {
    assert OpOk(s, id);
    Frame(s, ReadFailed(s, id), id, f, 0, 0);
  }

  /** What the invariant says of one operation in flight. */
  lemma Held(s: State, f: string, id: nat)
    requires Inv(s, f, 0) && id in s.ops
    ensures OpOk(s, id) && Base(s) && (id in Sends(s, f) ==> Backed(s, id, f) && C.Locks(s.cache, f) > 0)
  {
    hide Backed, OpOk, LogOk, C.Locks, MemoryOk;
    CountWithout(Sends(s, f), id);
  }

  /** The first submission replaces whatever is in flight for the task. */
  lemma SubmitReplaces(s: State, id: nat, client: nat, header: string)
    requires Table(s) && id < |s.tasks|
    ensures SubmitFile(s, id, client, header) == SubmitFile(s.(ops := Remove(s.ops, id)), id, client, header)
  {
    var op := SubmitFile(s, id, client, header).ops[id];
    assert s.ops[id := op] == Remove(s.ops, id)[id := op];
  }

  /** The file is read: its buffer waits for the cache, the response is submitted. */
  lemma SubmitReadInv(s: State, id: nat, header: string, f: string)
    requires Inv(s, f, 0) && id in s.ops && s.ops[id].Read?
    ensures Inv(SubmitRead(s, id, header), f, 0)
  {
    hide Inv, WellFormed, CachedItem, Gather, Addrs, SubmitFile;
    Held(s, f, id);
    var t := s.tasks[id];
    var s1 := SetTask(s, id, t.(additional := BlockOf(t.buff), forClient := SIZE_MAX));
    ReadOverInv(s, id, f);
    SubmitReplaces(s1, id, t.forClient, header);
    SubmitInv(s1.(ops := Remove(s1.ops, id)), id, t.forClient, header, f, 0, 0);
    var s2 := SubmitFile(s1, id, t.forClient, header);
    InvBase(s2, f);
    OpsInTable(s2);
    IdleInv(s2, SubmitRead(s, id, header), |s2.tasks|, f, 0);
  }

  /** Nothing is read for the task any more; its buffer waits for the cache. */
  lemma ReadOverInv(s: State, id: nat, f: string)
    requires Inv(s, f, 0) && id in s.ops && s.ops[id].Read? && id < |s.tasks|
    ensures var t := s.tasks[id];
            Inv(SetTask(s, id, t.(additional := BlockOf(t.buff), forClient := SIZE_MAX)).(ops := Remove(s.ops, id)), f, 0)
  {
    hide Backed, LogOk, WellFormed, CachedItem;
    Held(s, f, id);
    var t := s.tasks[id];
    Frame(s, SetTask(s, id, t.(additional := BlockOf(t.buff), forClient := SIZE_MAX)).(ops := Remove(s.ops, id)), id, f, 0, 0);
  }

  /** The kernel writes into the buffer of a file that is being read. */
  lemma FilledInv(s: State, id: nat, b: nat, bytes: string, f: string)
    requires Inv(s, f, 0) && id in s.ops && s.ops[id].Read? && b == s.ops[id].block
    requires b in s.mem && |bytes| == |s.mem[b].bytes|
    ensures Inv(s.(mem := s.mem[b := s.mem[b].(bytes := bytes)]), f, 0)
  {
    assert OpOk(s, id);
    Frame(s, s.(mem := s.mem[b := s.mem[b].(bytes := bytes)]), id, f, 0, 0);
  }

  /** More of the file is to be read. */
  lemma ReadMoreInv(s: State, id: nat, total: nat, f: string)
    requires Inv(s, f, 0) && id in s.ops && s.ops[id].Read? && id < |s.tasks| && total < s.tasks[id].buffLength
    ensures Inv(SetTask(s, id, s.tasks[id].(progress := total))
                .(ops := s.ops[id := Read(s.ops[id].block, total, s.tasks[id].buffLength - total)]), f, 0)
  {
    assert OpOk(s, id);
    Frame(s, SetTask(s, id, s.tasks[id].(progress := total))
             .(ops := s.ops[id := Read(s.ops[id].block, total, s.tasks[id].buffLength - total)]), id, f, 0, 0);
  }

  lemma GotInv(s: State, id: nat, data: string, header: string, f: string)
    requires Inv(s, f, 0) && MayHappen(s, ReadDone(id, Got(data), header))
    ensures Inv(FileRead(s, id, Got(data), header), f, 0)
  {
    hide Inv, MemoryOk, SubmitRead, ReadFailed, Overwrite;
    var t, b := s.tasks[id], s.ops[id].block;
    Held(s, f, id);
    var bytes := Overwrite(s.mem[b].bytes, t.progress, data);
    OverwriteLength(s.mem[b].bytes, t.progress, data);
    var s1 := s.(mem := s.mem[b := s.mem[b].(bytes := bytes)]);
    hide OpOk;
    FilledInv(s, id, b, bytes, f);
    if data == "" && t.progress != t.buffLength {
      ReadFailedInv(s1, id, f);
    } else if data != "" && t.progress + |data| < t.buffLength {
      ReadMoreInv(s1, id, t.progress + |data|, f);
    } else {
      SubmitReadInv(s1, id, header, f);
    }
  }

  lemma ReadInv(s: State, e: Event, f: string)
    requires Inv(s, f, 0) && e.ReadDone? && MayHappen(s, e)
    ensures Inv(Step(s, e), f, 0)
  {
    hide Inv;
    match e.result
    case ReadInterrupted(resubmitted) =>
      if !resubmitted { ReadFailedInv(s, e.id, f); }
    case ReadError =>
      ReadFailedInv(s, e.id, f);
    case Got(data) =>
      GotInv(s, e.id, data, e.header, f);
  }

  lemma OverwriteLength(bytes: string, off: nat, data: string)
    requires off + |data| <= |bytes|
    ensures |Overwrite(bytes, off, data)| == |bytes|
  {
  }

  /** The end of a send, before its lock is given back: its cached send, if it was one, is counted out. */
  lemma TearDownInv(s: State, id: nat, l: Log, f: string)
    requires Inv(s, f, 0) && id in s.ops && s.ops[id].Writev? && s.tasks[id].opType == HttpSendFile && id < |s.log|
    requires LogOk(l, f)
    ensures Inv(TearDown(s.(log := s.log[id := l]), id), f, One(id in Sends(s, f)))
  {
    hide WellFormed, C.Locks, Backed, LogOk;
    assert OpOk(s, id);
    Frame(s, TearDown(s.(log := s.log[id := l]), id), id, f, 0, One(id in Sends(s, f)));
  }

  lemma DepositInv(s: State, x: nat, path: string, block: nat, len: nat, wd: int, f: string)
    requires Inv(s, f, 0) && x !in s.ops && FileBlock(s.mem, block, x, len)
    ensures Inv(Deposit(s, path, block, len, wd), f, 0)
  {
    hide Backed, OpOk, LogOk, WellFormed, AddOrUpdate;
    var (c, ok) := AddOrUpdate(s.cache, path, block, len, wd);
    if !ok {
      Frame(s, Free(s, block), x, f, 0, 0);
    } else {
      var owned := s.(mem := s.mem[block := s.mem[block].(owner := Cached(path))]);
      forall it | it in s.cache.items
        ensures it.buff != block
      {
        assert CachedItem(s.mem, it);
      }
      Frame(s, owned, x, f, 0, 0);
      CacheInv(owned, f, 0, C.Add(path, block, len, wd), 0);
      assert Deposit(s, path, block, len, wd).mem == WithCache(owned, c).mem by {
        if block in c.freed {
          var was := C.FreedSource(s.cache, C.Add(path, block, len, wd), block);
        }
      }
    }
  }

  /** The end of a send of a file that was not cached, while a cached send of the same file is in
      flight: its unlock takes a lock that it never took. */
  predicate Steals(s: State, e: Event, f: string)
    requires MayHappen(s, e)
  {
    && e.Written? && Finishes(s, e)
    && s.tasks[e.id].additional != 0 && s.tasks[e.id].filepath == f && C.Locks(s.cache, f) > 0
  }

  /** The event ends a file send. */
  predicate Finishes(s: State, e: Event)
    requires MayHappen(s, e) && e.Written?
  {
    var t := s.tasks[e.id];
    && t.opType == HttpSendFile
    && (e.outcome.Error?
        || (e.outcome.Moved? && t.progress + e.outcome.k >= Size(Orig(t)) && !UsingRanges(t)))
  }

  lemma FinishInv(s: State, id: nat, l: Log, wd: int, f: string)
    requires Inv(s, f, 0) && id in s.ops && s.ops[id].Writev? && s.tasks[id].opType == HttpSendFile && id < |s.log|
    requires LogOk(l, f)
    requires !(s.tasks[id].additional != 0 && s.tasks[id].filepath == f && C.Locks(s.cache, f) > 0)
    ensures Inv(FinishSend(s.(log := s.log[id := l]), id, wd), f, 0)
  {
    hide Inv, Backed, LogOk, AddOrUpdate, Unlock;
    Held(s, f, id);
    var t, s0 := s.tasks[id], s.(log := s.log[id := l]);
    TearDownInv(s, id, l, f);
    var s1 := TearDown(s0, id);
    var extra := One(id in Sends(s, f));
    CacheInv(s1, f, extra, C.Release(t.filepath), 0);
    var s2 := WithCache(s1, Unlock(s1.cache, t.filepath));
    if t.additional != 0 {
      KeptByCache(s1, C.Release(t.filepath), t.additional);
      DepositInv(s2, id, t.filepath, t.additional, t.buffLength, wd, f);
    }
  }

  /** A partial completion of a cached whole-file send: the rebuilt array starts where it stopped. */
  lemma AdvanceOnCourse(s: State, s2: State, id: nat, k: nat, buff: nat, len: nat)
    requires id in s.ops && id < |s.tasks| && id < |s.log| && OnCourse(s, id, buff, len)
    requires id in s2.ops && id < |s2.tasks| && id < |s2.log| && s2.mem == s.mem
    requires k <= Size(s.tasks[id].iovs) && s.tasks[id].progress + k < Size(Orig(s.tasks[id]))
    requires var t := s.tasks[id];
             s2.tasks[id] == t.(iovs := Rebuilt(Orig(t), t.progress + k), progress := t.progress + k)
             && s2.log[id] == s.log[id].(sent := s.log[id].sent + Gather(s.mem, Addrs(t.iovs)[..k]))
    ensures OnCourse(s2, id, buff, len)
  {
    hide Rebuilt, Gather, Addrs;
    var t, l, orig := s.tasks[id], s.log[id], Orig(s.tasks[id]);
    RebuiltDenotes(orig, t.progress + k);
    TakenIsNext(s, id, k, buff, len);
  }

  /** What the kernel takes from an array that is on course is the next part of what is wanted. */
  lemma TakenIsNext(s: State, id: nat, k: nat, buff: nat, len: nat)
    requires id in s.ops && id < |s.tasks| && id < |s.log| && OnCourse(s, id, buff, len)
    requires k <= Size(s.tasks[id].iovs)
    ensures var t, l := s.tasks[id], s.log[id];
            t.progress + k <= |l.want|
            && l.sent + Gather(s.mem, Addrs(t.iovs)[..k]) == l.want[..t.progress + k]
  {
    hide Addrs, Gather, Load, Size;
    var t, l, all := s.tasks[id], s.log[id], Addrs(Orig(s.tasks[id]));
    PartOfRest(all, Addrs(t.iovs), t.progress, k);
    GatherPart(s.mem, all, t.progress, k);
    assert l.want[..t.progress] + l.want[t.progress..t.progress + k] == l.want[..t.progress + k];
  }

  lemma PartOfRest(all: seq<Addr>, rest: seq<Addr>, p: nat, k: nat)
    requires p <= |all| && rest == all[p..] && k <= |rest|
    ensures p + k <= |all| && rest[..k] == all[p..p + k]
  {
  }

  lemma GatherPart(mem: map<nat, Block>, all: seq<Addr>, p: nat, k: nat)
    requires p + k <= |all|
    ensures Gather(mem, all)[p..p + k] == Gather(mem, all[p..p + k])
  {
  }

  /** What a partial completion of a write leads to. */
  lemma PartDone(s: State, id: nat, k: nat, header: string, wd: int)
    requires MayHappen(s, Written(id, Moved(k), header, wd)) && s.tasks[id].progress + k < Size(Orig(s.tasks[id]))
    ensures id < |s.log|
    ensures var t, l := s.tasks[id], s.log[id];
            var iovs := Rebuilt(Orig(t), t.progress + k);
            WritevDone(s, id, Moved(k), header, wd) ==
              s.(tasks := s.tasks[id := t.(iovs := iovs, progress := t.progress + k)],
                 ops := s.ops[id := Writev(s.ops[id].client, iovs)],
                 log := s.log[id := l.(sent := l.sent + Gather(s.mem, Addrs(s.ops[id].iovs)[..k]))])
  {
    hide Rebuilt, Gather, Addrs, Size, ContinueSend;
  }

  lemma PartialOnCourse(s: State, id: nat, k: nat, header: string, wd: int, f: string)
    requires Inv(s, f, 0) && MayHappen(s, Written(id, Moved(k), header, wd))
    requires s.tasks[id].progress + k < Size(Orig(s.tasks[id]))
    ensures var s2 := WritevDone(s, id, Moved(k), header, wd);
            LogOk(s2.log[id], f) && id in s2.ops && (id in Sends(s2, f) ==> Backed(s2, id, f))
  {
    hide WritevDone, MemoryOk, Gather, Addrs, Size, Rebuilt;
    PartDone(s, id, k, header, wd);
    var s2 := WritevDone(s, id, Moved(k), header, wd);
    assert OpOk(s, id) && s.log[id] in s.log && LogOk(s.log[id], f);
    if s.log[id].file == Some(f) {
      assert id in Sends(s, f) && Backed(s, id, f);
      var it := s.cache.items[IndexOf(s.cache.items, f)];
      AdvanceOnCourse(s, s2, id, k, it.buff, it.buffLength);
      TakenIsNext(s, id, k, it.buff, it.buffLength);
    } else if id in Sends(s2, f) {
      assert id in Sends(s, f) && Backed(s, id, f);
    }
  }

  lemma PartialInv(s: State, id: nat, k: nat, header: string, wd: int, f: string)
    requires Inv(s, f, 0) && MayHappen(s, Written(id, Moved(k), header, wd))
    requires s.tasks[id].progress + k < Size(Orig(s.tasks[id]))
    ensures Inv(WritevDone(s, id, Moved(k), header, wd), f, 0)
  {
    hide WritevDone, Backed, LogOk, Rebuilt, Gather, Addrs, Size, WellFormed;
    PartDone(s, id, k, header, wd);
    var s2 := WritevDone(s, id, Moved(k), header, wd);
    assert OpOk(s, id);
    PartialOnCourse(s, id, k, header, wd, f);
    Frame(s, s2, id, f, 0, 0);
  }

  /** A completed submission of a whole cached file has taken everything. */
  lemma CompleteLog(s: State, id: nat, k: nat, f: string)
    requires Inv(s, f, 0) && id in s.ops && s.ops[id].Writev? && id < |s.tasks| && id < |s.log|
    requires k <= Size(s.ops[id].iovs) && s.tasks[id].progress + k >= Size(Orig(s.tasks[id]))
    ensures LogOk(s.log[id].(sent := s.log[id].sent + Gather(s.mem, Addrs(s.ops[id].iovs)[..k]), status := Done), f)
  {
    assert OpOk(s, id) && LogOk(s.log[id], f);
    if s.log[id].file == Some(f) {
      assert id in Sends(s, f) && Backed(s, id, f);
      var it := s.cache.items[IndexOf(s.cache.items, f)];
      TakenIsNext(s, id, k, it.buff, it.buffLength);
    }
  }

  lemma LogsOk(s: State, s2: State, id: nat, l: Log, f: string)
    requires id < |s.log| && s2.log == s.log[id := l] && LogOk(l, f)
    ensures forall k :: k in s2.log ==> k in s.log || LogOk(k, f)
  {
  }

  /** A send by ranges is not logged as that of a whole file. */
  lemma RangesNotWhole(s: State, id: nat, f: string)
    requires id in s.ops && id < |s.tasks| && id < |s.log| && Backed(s, id, f) && UsingRanges(s.tasks[id])
    ensures s.log[id].file == None
  {
  }

  lemma NotWholeBacked(s: State, id: nat, f: string)
    requires id in s.ops && id < |s.tasks| && id < |s.log| && s.log[id].file == None
    ensures Backed(s, id, f)
  {
  }

  lemma NextRangeDiffers(s: State, id: nat, l: Log, header: string, wd: int)
    requires Base(s) && id in s.ops && OpOk(s, id) && s.ops[id].Writev? && s.tasks[id].opType == HttpSendFile && UsingRanges(s.tasks[id])
    ensures DiffersAt(s, ContinueSend(s.(log := s.log[id := l]), id, header, wd), id)
  {
    hide FinishSend, WellFormed, CachedItem, Body;
  }

  lemma NextRangeOp(s: State, id: nat, l: Log, header: string, wd: int, f: string)
    requires Base(s) && id in s.ops && OpOk(s, id) && s.ops[id].Writev? && s.tasks[id].opType == HttpSendFile && UsingRanges(s.tasks[id])
    ensures var s2 := ContinueSend(s.(log := s.log[id := l]), id, header, wd);
            && id in s2.ops && id < |s2.tasks| && id < |s2.log| && (l.file == s.log[id].file ==> OpOk(s2, id))
            && s2.log == s.log[id := l] && (id in Sends(s2, f) <==> id in Sends(s, f))
  {
    hide FinishSend, WellFormed, CachedItem, Body, DiffersAt;
  }

  /** The next range of a send: a new header, and the lock is kept. */
  lemma NextRangeInv(s: State, id: nat, l: Log, header: string, wd: int, f: string)
    requires Inv(s, f, 0) && id in s.ops && s.ops[id].Writev? && s.tasks[id].opType == HttpSendFile && id < |s.log|
    requires UsingRanges(s.tasks[id]) && LogOk(l, f) && l.file == s.log[id].file
    ensures Inv(ContinueSend(s.(log := s.log[id := l]), id, header, wd), f, 0)
  {
    hide Backed, Inv, LogOk, OpOk, Base, DiffersAt, ContinueSend, Sends;
    Held(s, f, id);
    OpsInTable(s);
    if id in Sends(s, f) {
      RangesNotWhole(s, id, f);
    }
    var s2 := ContinueSend(s.(log := s.log[id := l]), id, header, wd);
    NextRangeDiffers(s, id, l, header, wd);
    NextRangeOp(s, id, l, header, wd, f);
    LogsOk(s, s2, id, l, f);
    if id in Sends(s2, f) {
      NotWholeBacked(s2, id, f);
    }
    Frame(s, s2, id, f, 0, 0);
  }

  /** The end of a vectored write of the application. */
  lemma AppEndInv(s: State, s2: State, id: nat, l: Log, f: string)
    requires Inv(s, f, 0) && id in s.ops && s.ops[id].Writev? && s.tasks[id].opType != HttpSendFile && id < |s.log|
    requires LogOk(l, f) && Table(s2)
    requires s2.(tasks := s.tasks) == s.(log := s.log[id := l], ops := Remove(s.ops, id))
    requires |s2.tasks| == |s.tasks| && forall i: nat :: i < |s.tasks| && i != id ==> s2.tasks[i] == s.tasks[i]
    ensures Inv(s2, f, 0)
  {
    assert OpOk(s, id);
    Frame(s, s2, id, f, 0, 0);
  }

  /** What the completions of a write lead to. */
  lemma WrittenCases(s: State, e: Event)
    requires e.Written? && MayHappen(s, e)
    ensures var id, s2, c := e.id, Step(s, e), e.outcome; var t, l := s.tasks[id], s.log[id];
            && (c.Interrupted? ==> s2 == s)
            && (c.Error? ==> var s1 := s.(log := s.log[id := l.(status := Failed)]);
                             s2 == if t.opType == HttpSendFile then FinishSend(s1, id, e.wd) else s1.(ops := Remove(s1.ops, id)))
            && (c.Moved? && t.progress + c.k < Size(Orig(t)) ==> s2 == WritevDone(s, id, c, e.header, e.wd))
            && (c.Moved? && t.progress + c.k >= Size(Orig(t)) ==>
                  var sent := l.sent + Gather(s.mem, Addrs(s.ops[id].iovs)[..c.k]);
                  var s1 := s.(log := s.log[id := l.(sent := sent, status := Done)]);
                  s2 == if t.opType == HttpSendFile then
                          (if UsingRanges(t) then ContinueSend(s1, id, e.header, e.wd) else FinishSend(s1, id, e.wd))
                        else SetTask(s1, id, t.(iovs := [])).(ops := Remove(s1.ops, id)))
  {
    hide Rebuilt, Gather, Addrs, Size, FinishSend, NextRange;
  }

  lemma NoSteal(s: State, e: Event, f: string)
    requires e.Written? && MayHappen(s, e) && !Steals(s, e, f)
    ensures Finishes(s, e) ==> !(s.tasks[e.id].additional != 0 && s.tasks[e.id].filepath == f && C.Locks(s.cache, f) > 0)
  {
  }

  lemma WrittenInv(s: State, e: Event, f: string)
    requires Inv(s, f, 0) && e.Written? && MayHappen(s, e) && !Steals(s, e, f)
    ensures Inv(Step(s, e), f, 0)
  {
    hide Step, MemoryOk, Gather, Addrs, Size, Rebuilt, FinishSend, ContinueSend, Steals;
    var id, t := e.id, s.tasks[e.id];
    var l := s.log[id];
    assert OpOk(s, id) && l in s.log && LogOk(l, f);
    WrittenCases(s, e);
    NoSteal(s, e, f);
    match e.outcome
    case Interrupted =>
    case Error =>
      if t.opType == HttpSendFile {
        FinishInv(s, id, l.(status := Failed), e.wd, f);
      } else {
        AppEndInv(s, Step(s, e), id, l.(status := Failed), f);
      }
    case Moved(k) =>
      if t.progress + k < Size(Orig(t)) {
        PartialInv(s, id, k, e.header, e.wd, f);
      } else {
        var l2 := l.(sent := l.sent + Gather(s.mem, Addrs(s.ops[id].iovs)[..k]), status := Done);
        CompleteLog(s, id, k, f);
        if t.opType != HttpSendFile {
          AppEndInv(s, Step(s, e), id, l2, f);
        } else if UsingRanges(t) {
          NextRangeInv(s, id, l2, e.header, e.wd, f);
        } else {
          FinishInv(s, id, l2, e.wd, f);
        }
      }
  }

  lemma VecsInv(s: State, e: Event, f: string)
    requires Inv(s, f, 0) && e.SendVecs? && MayHappen(s, e)
    ensures Inv(Step(s, e), f, 0)
  {
    hide Backed, WellFormed, CachedItem;
    Frame(s, Step(s, e), |s.tasks|, f, 0, 0);
  }

  /** Every event that steals no lock on `f` keeps the invariant for `f`. */
  lemma StepInv(s: State, e: Event, f: string)
    requires Inv(s, f, 0) && MayHappen(s, e) && !Steals(s, e, f)
    ensures Inv(Step(s, e), f, 0)
  {
    hide Inv, SendFile, AppWritev, FileRead, WritevDone, ProcessEvent;
    match e
    case Send(_, _, _, _, _) => SendInv(s, e, f);
    case SendVecs(_, _) => VecsInv(s, e, f);
    case ReadDone(_, _, _) => ReadInv(s, e, f);
    case Written(_, _, _, _) => WrittenInv(s, e, f);
    case Inotify(wd) => CacheInv(s, f, 0, C.Event(wd), 0);
  }

  lemma InitInv(size: nat, f: string)
    ensures Inv(Init(size), f, 0)
  {
    assert Sends(Init(size), f) == {};
  }

  /** No event of the run steals a lock on `f`. */
  predicate Faithful(s: State, es: seq<Event>, f: string)
    requires Feasible(s, es)
  {
    es == [] || (Faithful(s, es[..|es| - 1], f) && !Steals(RunAll(s, es[..|es| - 1]), es[|es| - 1], f))
  }

  lemma {:induction false} RunInv(size: nat, es: seq<Event>, f: string)
    requires Feasible(Init(size), es) && Faithful(Init(size), es, f)
    ensures Inv(RunAll(Init(size), es), f, 0)
  {
    if es == [] {
      InitInv(size, f);
    } else {
      RunInv(size, es[..|es| - 1], f);
      StepInv(RunAll(Init(size), es[..|es| - 1]), es[|es| - 1], f);
    }
  }
}
