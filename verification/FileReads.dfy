/** A file that is not cached: how it is read, whatever else happens meanwhile, what is sent, and what the
    cache gets. */
module FileReads {
  import opened Options
  import opened CacheSpec
  import C = CacheRuns
  import opened Vectored
  import opened ServerSpec
  import opened ServerInvariant
  import opened ServerTheorems
  import opened Ranges

  // ---------------------------------------------------------------- the buffer is nobody else's

  /** Block `b` is the header or the buffer of the file that task `id` sends. */
  predicate Owns(s: State, id: nat, b: nat) {
    b in s.mem && (s.mem[b].owner == FileOf(id) || s.mem[b].owner == HeaderOf(id))
  }

  predicate SameBlock(s: State, s2: State, b: nat) {
    b in s.mem && b in s2.mem && s2.mem[b] == s.mem[b]
  }

  lemma CacheKeeps(s: State, op: C.Op, b: nat)
    requires MemoryOk(s) && b in s.mem && !s.mem[b].owner.Cached?
    ensures SameBlock(s, WithCache(s, C.Step(s.cache, op)), b)
  {
    KeptByCache(s, op, b);
  }

  lemma LockedKeeps(s: State, client: nat, path: string, rangeStr: string, header: string, it: Item, b: nat)
    requires Table(s) && MemoryOk(s) && (rangeStr == "" || rangeStr == "none" || |rangeStr| >= 6)
    requires b in s.mem && !s.mem[b].owner.Cached?
    ensures SameBlock(s, SendLocked(s, client, path, rangeStr, header, it), b)
  {
    CacheKeeps(s, C.Release(path), b);
  }

  lemma SendKeeps(s: State, e: Event, b: nat)
    requires Base(s) && MayHappen(s, e) && e.Send? && b in s.mem && !s.mem[b].owner.Cached?
    ensures SameBlock(s, Step(s, e), b)
  {
    var (c, hit) := GetAndLock(s.cache, e.path);
    var s1 := WithCache(s, c);
    CacheKeeps(s, C.Lock(e.path), b);
    CacheMemory(s, C.Lock(e.path));
    hide GetAndLock, WithCache, MemoryOk, SendUncached;
    if hit.Some? {
      LockedKeeps(s1, e.client, e.path, e.rangeStr, e.header, hit.value, b);
    } else if e.size.Some? {
      UncachedKeeps(s1, e.client, e.path, e.rangeStr, e.header, e.size.value, b);
    }
  }

  lemma UncachedKeeps(s: State, client: nat, path: string, rangeStr: string, header: string, size: nat, b: nat)
    requires Table(s) && MemoryOk(s) && (rangeStr == "" || rangeStr == "none" || |rangeStr| >= 6) && b in s.mem
    ensures SameBlock(s, SendUncached(s, client, path, rangeStr, header, size), b)
  {
  }

  lemma TornMemory(s: State, x: nat)
    requires MemoryOk(s) && x < |s.tasks|
    requires HeaderBlock(s.tasks[x]) in s.mem ==> !s.mem[HeaderBlock(s.tasks[x])].owner.Cached?
    ensures MemoryOk(TearDown(s, x))
  {
    hide WellFormed;
    forall it | it in s.cache.items
      ensures CachedItem(TearDown(s, x).mem, it)
    {
      assert CachedItem(s.mem, it);
    }
  }

  lemma DepositKeeps(s: State, path: string, block: nat, len: nat, wd: int, b: nat)
    requires MemoryOk(s) && b in s.mem && !s.mem[b].owner.Cached? && block != b
    ensures SameBlock(s, Deposit(s, path, block, len, wd), b)
  {
    CacheKeeps(s, C.Add(path, block, len, wd), b);
    hide AddOrUpdate, MemoryOk;
  }

  /** The end of the send of task `x`, which frees its header and gives its buffer away. */
  lemma FinishKeeps(s: State, x: nat, wd: int, b: nat)
    requires MemoryOk(s) && x < |s.tasks| && b in s.mem && !s.mem[b].owner.Cached?
    requires HeaderBlock(s.tasks[x]) != b && s.tasks[x].additional != b
    requires HeaderBlock(s.tasks[x]) in s.mem ==> !s.mem[HeaderBlock(s.tasks[x])].owner.Cached?
    ensures SameBlock(s, FinishSend(s, x, wd), b)
  {
    var t, s1 := s.tasks[x], TearDown(s, x);
    TornMemory(s, x);
    CacheKeeps(s1, C.Release(t.filepath), b);
    CacheMemory(s1, C.Release(t.filepath));
    var s2 := WithCache(s1, Unlock(s1.cache, t.filepath));
    hide MemoryOk, WithCache, Unlock, Deposit;
    if t.additional != 0 {
      DepositKeeps(s2, t.filepath, t.additional, t.buffLength, wd, b);
    }
  }

  lemma WrittenKeeps(s: State, e: Event, id: nat, b: nat)
    requires Base(s) && MayHappen(s, e) && e.Written? && e.id != id && Owns(s, id, b)
    ensures SameBlock(s, Step(s, e), b)
  {
    assert OpOk(s, e.id);
    hide Base, WellFormed, FinishSend, Rebuilt, Gather, Addrs;
    var l := s.log[e.id];
    if s.tasks[e.id].opType == HttpSendFile {
      match e.outcome
      case Interrupted =>
      case Error => FinishKeeps(s.(log := s.log[e.id := l.(status := Failed)]), e.id, e.wd, b);
      case Moved(k) =>
        var sent := l.sent + Gather(s.mem, Addrs(s.ops[e.id].iovs)[..k]);
        FinishKeeps(s.(log := s.log[e.id := l.(sent := sent, status := Done)]), e.id, e.wd, b);
    }
  }

  lemma ReadKeeps(s: State, e: Event, id: nat, b: nat)
    requires Base(s) && MayHappen(s, e) && e.ReadDone? && e.id != id && Owns(s, id, b)
    ensures SameBlock(s, Step(s, e), b)
  {
    assert OpOk(s, e.id);
    hide WellFormed, CachedItem, Overwrite;
  }

  /** The buffer of a file that is being sent is left alone by every event that is not about its task. */
  lemma BufferKept(s: State, e: Event, id: nat, b: nat)
    requires Base(s) && MayHappen(s, e) && !About(e, id) && Owns(s, id, b)
    ensures SameBlock(s, Step(s, e), b)
  {
    hide Step;
    match e
    case Send(_, _, _, _, _) => SendKeeps(s, e, b);
    case SendVecs(_, _) => VecsKeeps(s, e, b);
    case ReadDone(_, _, _) => ReadKeeps(s, e, id, b);
    case Written(_, _, _, _) => WrittenKeeps(s, e, id, b);
    case Inotify(wd) => EventKeeps(s, wd, b);
  }

  lemma VecsKeeps(s: State, e: Event, b: nat)
    requires MayHappen(s, e) && e.SendVecs? && b in s.mem
    ensures SameBlock(s, Step(s, e), b)
  {
  }

  lemma EventKeeps(s: State, wd: int, b: nat)
    requires Base(s) && b in s.mem && !s.mem[b].owner.Cached?
    ensures SameBlock(s, Step(s, Inotify(wd)), b)
  {
    CacheKeeps(s, C.Event(wd), b);
  }

  // ---------------------------------------------------------------- reading

  /** The completions of the read of task `id` among the events, in order. */
  function OwnReads(es: seq<Event>, id: nat): seq<ReadResult> {
    if es == [] then []
    else
      var e := es[|es| - 1];
      OwnReads(es[..|es| - 1], id) + if e.ReadDone? && e.id == id then [e.result] else []
  }

  /** The bytes of the file that arrive with them. */
  function FileBytes(rs: seq<ReadResult>): string {
    if rs == [] then "" else FileBytes(rs[..|rs| - 1]) + if rs[|rs| - 1].Got? then rs[|rs| - 1].data else ""
  }

  /** Short completions and interruptions only. */
  predicate Short(rs: seq<ReadResult>) {
    forall i :: 0 <= i < |rs| ==> rs[i] == ReadInterrupted(true) || (rs[i].Got? && rs[i].data != "")
  }

  /** Task `id`, whose record was `t` when nothing was read yet, has read `got` into its buffer and waits for
      the rest. */
  ghost predicate Reading(s: State, id: nat, t: Task, got: string) {
    && Base(s) && id < |s.tasks| && t.buff.Bytes? && |got| <= t.buffLength
    && s.tasks[id] == t.(progress := |got|)
    && id in s.ops && s.ops[id] == Read(t.buff.block, |got|, t.buffLength - |got|)
    && FileBlock(s.mem, t.buff.block, id, t.buffLength)
    && s.mem[t.buff.block].bytes[..|got|] == got
  }

  /** What starts a send that misses the cache. */
  lemma ReadingStarts(s: State, client: nat, path: string, rangeStr: string, header: string, size: nat)
    requires Base(s) && (rangeStr == "" || rangeStr == "none" || |rangeStr| >= 6) && GetAndLock(s.cache, path).1.None?
    requires ParseRanges(rangeStr, size).1
    ensures var s2 := SendFile(s, client, path, rangeStr, header, Some(size));
            |s2.tasks| == |s.tasks| + 1 && s2.tasks[|s.tasks|].progress == 0 && s2.tasks[|s.tasks|].buffLength == size
            && Reading(s2, |s.tasks|, s2.tasks[|s.tasks|], "")
  {
    BaseStep(s, Send(client, path, rangeStr, header, Some(size)));
    hide ParseRanges, GetAndLock, MemoryOk;
  }

  lemma ReadingOther(s: State, e: Event, id: nat, t: Task, got: string)
    requires Reading(s, id, t, got) && MayHappen(s, e) && !About(e, id)
    ensures Reading(Step(s, e), id, t, got)
  {
    hide Base, Step, MayHappen;
    BaseStep(s, e);
    InTable(s);
    Untouched(s, e, id);
    BufferKept(s, e, id, t.buff.block);
  }

  lemma InTable(s: State)
    requires Base(s)
    ensures Table(s) && s.freedIdxs == {}
  {
  }

  lemma OverwriteAt(bytes: string, got: string, data: string)
    requires |got| + |data| <= |bytes| && bytes[..|got|] == got
    ensures |Overwrite(bytes, |got|, data)| == |bytes| && Overwrite(bytes, |got|, data)[..|got| + |data|] == got + data
  {
  }

  lemma ReadingOwn(s: State, e: Event, id: nat, t: Task, got: string)
    requires Reading(s, id, t, got) && MayHappen(s, e) && e.ReadDone? && e.id == id
    requires e.result == ReadInterrupted(true) || (e.result.Got? && e.result.data != "" && |got| + |e.result.data| < t.buffLength)
    ensures Reading(Step(s, e), id, t, got + if e.result.Got? then e.result.data else "")
  {
    BaseStep(s, e);
    if e.result.Got? {
      OverwriteAt(s.mem[t.buff.block].bytes, got, e.result.data);
      hide Base, Overwrite, SubmitRead;
    } else {
      assert got + "" == got;
    }
  }

  lemma OwnReadsGrow(es: seq<Event>, id: nat)
    requires es != [] && Short(OwnReads(es, id))
    ensures var before, e := es[..|es| - 1], es[|es| - 1];
            && Short(OwnReads(before, id)) && FileBytes(OwnReads(before, id)) <= FileBytes(OwnReads(es, id))
            && if e.ReadDone? && e.id == id then
                 && (e.result == ReadInterrupted(true) || (e.result.Got? && e.result.data != ""))
                 && FileBytes(OwnReads(es, id)) == FileBytes(OwnReads(before, id)) + if e.result.Got? then e.result.data else ""
               else OwnReads(es, id) == OwnReads(before, id)
  {
    var before, e := es[..|es| - 1], es[|es| - 1];
    if e.ReadDone? && e.id == id {
      var own := OwnReads(es, id);
      assert own[..|own| - 1] == OwnReads(before, id) && own[|own| - 1] == e.result;
    } else {
      assert OwnReads(es, id) == OwnReads(before, id);
    }
  }

  /** A task that reads is not written for. */
  lemma OnlyReads(s: State, e: Event, id: nat, t: Task, got: string)
    requires Reading(s, id, t, got) && MayHappen(s, e)
    ensures About(e, id) <==> e.ReadDone? && e.id == id
  {
  }

  lemma NothingMore(s: string, a: string, b: string)
    ensures s + "" == s && s + a + b == s + (a + b) && |s + a| == |s| + |a|
  {
  }

  /** Non-interference for the read stage of a send: in any interleaving of events over any number of tasks,
      the record of the task, its operation and its buffer are what its own completions make of them: the
      buffer begins with the bytes that arrived, and the rest of the file is asked for. */
  lemma {:induction false} FileFills(s: State, es: seq<Event>, id: nat, t: Task, got: string)
    requires Reading(s, id, t, got) && Feasible(s, es) && Short(OwnReads(es, id))
    requires |got| + |FileBytes(OwnReads(es, id))| < t.buffLength
    ensures Reading(RunAll(s, es), id, t, got + FileBytes(OwnReads(es, id)))
  {
    hide *;
    if es == [] {
      NothingHappened(s, id);
      NothingMore(got, "", "");
    } else {
      var before, e := es[..|es| - 1], es[|es| - 1];
      OwnReadsGrow(es, id);
      RunLast(s, es);
      FileFills(s, before, id, t, got);
      var now := got + FileBytes(OwnReads(before, id));
      OnlyReads(RunAll(s, before), e, id, t, now);
      if e.ReadDone? && e.id == id {
        ReadingOwn(RunAll(s, before), e, id, t, now);
        NothingMore(got, FileBytes(OwnReads(before, id)), if e.result.Got? then e.result.data else "");
      } else {
        ReadingOther(RunAll(s, before), e, id, t, now);
      }
    }
  }

  lemma NothingHappened(s: State, id: nat)
    ensures RunAll(s, []) == s && FileBytes(OwnReads([], id)) == ""
  {
  }

  /** A file that cannot be read to its end: its buffer is freed, nothing is in flight for it any more, and nothing
      else has changed. */
  lemma ReadFails(s: State, e: Event, id: nat, t: Task, got: string)
    requires Reading(s, id, t, got) && MayHappen(s, e) && e.ReadDone? && e.id == id
    requires e.result == ReadError || e.result == ReadInterrupted(false) || (e.result == Got("") && |got| < t.buffLength)
    ensures Step(s, e) == s.(mem := s.mem - {t.buff.block}, ops := Remove(s.ops, id))
  {
    hide Base, SubmitRead, Overwrite;
    assert Arrived(s, id, "").(mem := s.mem) == s && Free(Arrived(s, id, ""), t.buff.block) == Free(s, t.buff.block);
  }

  // ---------------------------------------------------------------- the response

  /** An in-flight response made of the header and of all of block `b`, of which nothing is taken yet. */
  predicate OnItsWay(s: State, id: nat, b: nat)
    requires id < |s.tasks|
  {
    var t, orig := s.tasks[id], Orig(s.tasks[id]);
    && t.writeRanges == [] && |orig| == 2 && t.iovs == orig && HeaderBlock(t) in s.mem && b in s.mem
    && s.mem[HeaderBlock(t)].owner == HeaderOf(id)
    && orig[0] == IoVec(Addr(HeaderBlock(t), 0), |s.mem[HeaderBlock(t)].bytes|)
    && orig[1] == IoVec(Addr(b, 0), |s.mem[b].bytes|)
    && id < |s.log| && s.log[id].want == Gather(s.mem, Addrs(orig)) && s.log[id].sent == []
  }

  lemma SubmitWants(s: State, id: nat, header: string, b: nat, file: string)
    requires Table(s) && s.freedIdxs == {} && id < |s.tasks| && 0 < b < s.next && b in s.mem && s.mem[b].bytes == file
    requires var t := s.tasks[id]; t.buff == Bytes(b) && t.buffLength == |file| && t.writeRanges == []
    ensures var s2 := SubmitRead(s, id, header);
            && |s.tasks| <= |s2.tasks| && id < |s2.log| && s2.log[id] == Log(None, AsCells(header + file), [], Active)
            && id in s2.ops && s2.ops[id].Writev? && s2.tasks[id].opType == s.tasks[id].opType
            && s2.tasks[id].additional == b && s2.tasks[id].buffLength == |file| && SameBlock(s, s2, b)
            && s2.tasks[id].progress == s.tasks[id].progress && OnItsWay(s2, id, b)
  {
    var s2, h := SubmitRead(s, id, header), s.next;
    var vecs := [IoVec(Addr(h, 0), |header|), IoVec(Addr(b, 0), |file|)];
    assert s2.mem == s.mem[h := Block(HeaderOf(id), header)];
    assert s2.ops[id].iovs == vecs && s2.log[id] == Log(None, Gather(s2.mem, Addrs(vecs)), [], Active);
    hide SubmitRead, Addrs, Gather;
    GatherTwo(s2.mem, vecs);
    GatherBlock(s2.mem, h);
    GatherBlock(s2.mem, b);
  }

  /** Task `id` writes a response, and `file` waits for the cache in block `b`. */
  ghost predicate Writing(s: State, id: nat, b: nat, file: string) {
    && Base(s) && id in s.ops && s.ops[id].Writev? && id < |s.tasks| && s.tasks[id].opType == HttpSendFile
    && s.tasks[id].additional == b && b != 0 && s.tasks[id].buffLength == |file|
    && b in s.mem && s.mem[b] == Block(FileOf(id), file)
  }

  lemma ReadingFacts(s: State, id: nat, t: Task, got: string)
    requires Reading(s, id, t, got)
    ensures Table(s) && s.freedIdxs == {} && id < |s.tasks| && t.buff.Bytes? && 0 < t.buff.block < s.next && t.opType == HttpSendFile
  {
    assert OpOk(s, id);
  }

  lemma LastArrived(s: State, id: nat, t: Task, got: string, data: string)
    requires Reading(s, id, t, got) && |got| + |data| == t.buffLength
    ensures var s1 := Arrived(s, id, data);
            && t.buff.block in s1.mem && s1.mem[t.buff.block] == Block(FileOf(id), got + data)
            && s1.(mem := s.mem) == s && s1.tasks[id] == t.(progress := |got|)
  {
    OverwriteAt(s.mem[t.buff.block].bytes, got, data);
    hide Base, Overwrite;
  }

  /** The last bytes of a file arrive: the response that is to be written is the header followed by the file,
      which waits in the buffer for the cache. */
  lemma FileArrives(s: State, id: nat, t: Task, got: string, data: string, header: string)
    requires Reading(s, id, t, got) && |got| + |data| == t.buffLength && t.writeRanges == []
    requires MayHappen(s, ReadDone(id, Got(data), header))
    ensures var s2 := FileRead(s, id, Got(data), header);
            && |s.tasks| <= |s2.tasks| && id < |s2.log|
            && s2.log[id] == Log(None, AsCells(header + (got + data)), [], Active)
            && Writing(s2, id, t.buff.block, got + data) && OnItsWay(s2, id, t.buff.block) && s2.tasks[id].progress == |got|
  {
    hide Base, Arrived, SubmitRead, MayHappen;
    ReadingFacts(s, id, t, got);
    BaseStep(s, ReadDone(id, Got(data), header));
    LastArrived(s, id, t, got, data);
    SubmitWants(Arrived(s, id, data), id, header, t.buff.block, got + data);
  }

  /** An uncached send starts to write with the progress its reads left behind: it transmits the header and the
      file on every schedule if and only if the file arrived in one completion. */
  lemma UncachedBytesIff(s: State, id: nat, t: Task, got: string, data: string, header: string)
    requires Reading(s, id, t, got) && |got| + |data| == t.buffLength && t.writeRanges == []
    requires MayHappen(s, ReadDone(id, Got(data), header))
    ensures id < |FileRead(s, id, Got(data), header).tasks|
    ensures var s2 := FileRead(s, id, Got(data), header); var w := TransferOf(s2, id);
            (forall cs :: Schedule(w, cs) && Run(w, cs).status.Done? ==>
                            Gather(s2.mem, Transferred(w, cs)) == AsCells(header + (got + data)))
            <==> got == ""
  {
    hide FileRead, Reading, MayHappen, Writing, Gather, Run, Schedule, Transferred, Addrs;
    ReadingFacts(s, id, t, got);
    FileArrives(s, id, t, got, data, header);
    var s2 := FileRead(s, id, Got(data), header);
    var orig := Orig(s2.tasks[id]);
    ResponseSize(s2, id, t.buff.block, header, got + data);
    assert TransferOf(s2, id) == Start(orig, |got|);
    if got == "" {
      forall cs | Schedule(Start(orig, 0), cs) && Run(Start(orig, 0), cs).status.Done?
        ensures Transferred(Start(orig, 0), cs) == Addrs(orig)
      {
        DeliversIffFromZero(orig, 0);
      }
    } else {
      LosesLeftOver(orig, |got|);
    }
  }

  lemma ResponseSize(s: State, id: nat, b: nat, header: string, file: string)
    requires id < |s.tasks| && OnItsWay(s, id, b) && s.log[id].want == AsCells(header + file)
    ensures Size(Orig(s.tasks[id])) == |header| + |file| && Gather(s.mem, Addrs(Orig(s.tasks[id]))) == AsCells(header + file)
  {
    hide Addrs, Gather, Size;
  }

  // ---------------------------------------------------------------- writing, and the cache

  /** The response to task `id` is `header` followed by `file`: a prefix of it is taken, and all of it when it
      is done; until then `file` waits in block `b`. */
  ghost predicate Delivering(s: State, id: nat, b: nat, header: string, file: string) {
    && Base(s) && id < |s.tasks| && id < |s.log|
    && s.log[id].want == AsCells(header + file) && s.log[id].sent <= s.log[id].want
    && match s.log[id].status
       case Active => Writing(s, id, b, file) && OnCourse(s, id, b, |file|) && HeaderHeld(s.mem, HeaderBlock(s.tasks[id]), id)
       case Done => id !in s.ops && s.log[id].sent == s.log[id].want
       case Failed => id !in s.ops
  }

  lemma DeliveryStarts(s: State, id: nat, b: nat, header: string, file: string)
    requires Writing(s, id, b, file) && OnItsWay(s, id, b) && s.tasks[id].progress == 0
    requires s.log[id] == Log(None, AsCells(header + file), [], Active)
    ensures Delivering(s, id, b, header, file)
  {
    hide Gather, Addrs;
    var orig := Orig(s.tasks[id]);
    assert Addrs(orig)[0..] == Addrs(orig) && s.log[id].want[..0] == [];
  }

  lemma DeliveringOther(s: State, e: Event, id: nat, b: nat, header: string, file: string)
    requires Delivering(s, id, b, header, file) && MayHappen(s, e) && !About(e, id)
    ensures Delivering(Step(s, e), id, b, header, file)
  {
    hide Base, Step, MayHappen, OnCourse;
    BaseStep(s, e);
    InTable(s);
    Untouched(s, e, id);
    if s.log[id].status.Active? {
      HeaderOnCourse(s, id, b, |file|);
      BufferKept(s, e, id, b);
      BufferKept(s, e, id, HeaderBlock(s.tasks[id]));
      OnCourseStays(s, Step(s, e), id, b, |file|);
    }
  }

  lemma HeaderOnCourse(s: State, id: nat, b: nat, len: nat)
    requires id in s.ops && id < |s.tasks| && id < |s.log| && OnCourse(s, id, b, len)
    ensures HeaderBlock(s.tasks[id]) in s.mem
  {
  }

  /** What is taken continues what was taken before. */
  lemma TakenGrows(s: State, id: nat, k: nat, b: nat, header: string, file: string)
    requires Delivering(s, id, b, header, file) && s.log[id].status.Active? && k <= Size(s.tasks[id].iovs)
    ensures var t, l := s.tasks[id], s.log[id];
            var sent := l.sent + Gather(s.mem, Addrs(t.iovs)[..k]);
            sent <= l.want && (t.progress + k >= Size(Orig(t)) ==> sent == l.want)
  {
    hide Base;
    TakenIsNext(s, id, k, b, |file|);
  }

  lemma WritingOp(s: State, e: Event, id: nat, b: nat, header: string, file: string)
    requires Delivering(s, id, b, header, file) && MayHappen(s, e) && About(e, id)
    ensures s.log[id].status.Active? && e.Written? && e.id == id && s.tasks[id].opType == HttpSendFile
    ensures e.outcome.Moved? ==> e.outcome.k <= Size(s.tasks[id].iovs)
    ensures s.ops[id].iovs == s.tasks[id].iovs && Writing(s, id, b, file) && OnCourse(s, id, b, |file|) && !UsingRanges(s.tasks[id])
  {
    assert OpOk(s, id);
  }

  lemma DeliveringOwn(s: State, e: Event, id: nat, b: nat, header: string, file: string)
    requires Delivering(s, id, b, header, file) && MayHappen(s, e) && About(e, id)
    ensures Delivering(Step(s, e), id, b, header, file)
  {
    hide Base, MayHappen, Gather, Addrs, Size, OnCourse, Step, Rebuilt;
    BaseStep(s, e);
    WritingOp(s, e, id, b, header, file);
    match e.outcome
    case Interrupted => NothingMoved(s, e);
    case Error => WriteEnds(s, e);
    case Moved(k) =>
      TakenGrows(s, id, k, b, header, file);
      if s.tasks[id].progress + k < Size(Orig(s.tasks[id])) {
        WriteGoesOn(s, e);
        AdvanceOnCourse(s, Step(s, e), id, k, b, |file|);
      } else {
        WriteEnds(s, e);
      }
  }

  lemma {:induction false} DeliveringRun(s: State, es: seq<Event>, id: nat, b: nat, header: string, file: string)
    requires Delivering(s, id, b, header, file) && Feasible(s, es)
    ensures Delivering(RunAll(s, es), id, b, header, file)
  {
    hide *;
    if es == [] {
      NothingHappened(s, id);
    } else {
      var before, e := es[..|es| - 1], es[|es| - 1];
      RunLast(s, es);
      DeliveringRun(s, before, id, b, header, file);
      if About(e, id) {
        DeliveringOwn(RunAll(s, before), e, id, b, header, file);
      } else {
        DeliveringOther(RunAll(s, before), e, id, b, header, file);
      }
    }
  }

  /** End to end for a file that is not cached and arrives in one completion: in every run behind that, stolen
      locks or not, a prefix of the response header followed by the file is transmitted at any time, and all of
      it, once and in order, when the send is done. */
  lemma UncachedSendDelivers(s: State, id: nat, t: Task, data: string, header: string, es: seq<Event>)
    requires Reading(s, id, t, "") && |data| == t.buffLength && t.writeRanges == []
    requires MayHappen(s, ReadDone(id, Got(data), header)) && id < |s.tasks| && Table(s)
    requires Feasible(FileRead(s, id, Got(data), header), es)
    ensures var s2 := RunAll(FileRead(s, id, Got(data), header), es); var response := AsCells(header + data);
            id < |s2.log| && s2.log[id].sent <= response && (s2.log[id].status.Done? ==> s2.log[id].sent == response)
  {
    hide *;
    ReadingFacts(s, id, t, "");
    FileArrives(s, id, t, "", data, header);
    assert "" + data == data;
    var s1 := FileRead(s, id, Got(data), header);
    DeliveryStarts(s1, id, t.buff.block, header, data);
    DeliveringRun(s1, es, id, t.buff.block, header, data);
    Delivered(RunAll(s1, es), id, t.buff.block, header, data);
  }

  lemma Delivered(s: State, id: nat, b: nat, header: string, file: string)
    requires Delivering(s, id, b, header, file)
    ensures var response := AsCells(header + file);
            id < |s.log| && s.log[id].sent <= response && (s.log[id].status.Done? ==> s.log[id].sent == response)
  {
  }

  /** The cache takes a buffer for `path`: the entry there is not locked, or there is none and room for one, or the
      last entry can go. */
  predicate Welcome(c: Cache, path: string) {
    if exists it :: it in c.items && it.fileName == path then C.Locks(c, path) == 0
    else |c.items| < c.maxNumItems || (c.items != [] && c.items[|c.items| - 1].numLocks == 0)
  }

  lemma AcceptedIff(c: Cache, path: string, buff: nat, len: nat, wd: int)
    requires WellFormed(c)
    ensures AddOrUpdate(c, path, buff, len, wd).1 <==> Welcome(c, path)
  {
    var i := IndexOf(c.items, path);
    if it :| it in c.items && it.fileName == path {
      assert i < |c.items|;
    }
    if i < |c.items| {
      assert c.items[i] in c.items;
    }
    hide WellFormed, IndexOf;
  }

  lemma AcceptedIsFirst(c: Cache, path: string, buff: nat, len: nat, wd: int)
    requires WellFormed(c) && AddOrUpdate(c, path, buff, len, wd).1
    ensures var d := AddOrUpdate(c, path, buff, len, wd).0; var i := IndexOf(d.items, path);
            i < |d.items| && d.items[i].buff == buff && d.items[i].buffLength == len
  {
    var i, d := IndexOf(c.items, path), AddOrUpdate(c, path, buff, len, wd).0;
    C.FoundByName(d, if i < |c.items| then i else 0);
  }

  lemma DepositedFile(s: State, path: string, b: nat, file: string, wd: int)
    requires MemoryOk(s) && b in s.mem && !s.mem[b].owner.Cached? && s.mem[b].bytes == file
    ensures var s2 := Deposit(s, path, b, |file|, wd);
            var i := IndexOf(s2.cache.items, path);
            if Welcome(s.cache, path) then
              && i < |s2.cache.items| && s2.cache.items[i].buff == b && s2.cache.items[i].buffLength == |file|
              && b in s2.mem && s2.mem[b] == Block(Cached(path), file)
            else b !in s2.mem && s2.cache == s.cache
  {
    AcceptedIff(s.cache, path, b, |file|, wd);
    if AddOrUpdate(s.cache, path, b, |file|, wd).1 {
      AcceptedIsFirst(s.cache, path, b, |file|, wd);
      CacheKeeps(s, C.Add(path, b, |file|, wd), b);
    }
    hide AddOrUpdate, IndexOf, WellFormed, Welcome;
  }

  /** At the end of the send of a file that was read, the buffer with the file becomes the cache's entry for it if
      it is welcome there, and only then; otherwise it is freed and the cache stays as it is but for the unlock. */
  lemma FileIsCached(s: State, e: Event, b: nat, file: string)
    requires e.Written? && Writing(s, e.id, b, file) && MayHappen(s, e) && Finishes(s, e)
    ensures var s2, f := Step(s, e), s.tasks[e.id].filepath;
            var i := IndexOf(s2.cache.items, f);
            if Welcome(Unlock(s.cache, f), f) then
              && i < |s2.cache.items| && s2.cache.items[i].buff == b && s2.cache.items[i].buffLength == |file|
              && b in s2.mem && s2.mem[b] == Block(Cached(f), file)
            else b !in s2.mem && s2.cache == Unlock(s.cache, f)
  {
    assert OpOk(s, e.id);
    var l := s.log[e.id];
    var s0 := s.(log := s.log[e.id := if e.outcome.Error? then l.(status := Failed)
                                      else l.(sent := l.sent + Gather(s.mem, Addrs(s.ops[e.id].iovs)[..e.outcome.k]), status := Done)]);
    assert Step(s, e) == FinishSend(s0, e.id, e.wd);
    hide Step, Finishes, MayHappen, Gather, Addrs;
    FinishDeposits(s0, e.id, b, file, e.wd);
  }

  lemma FinishDeposits(s: State, id: nat, b: nat, file: string, wd: int)
    requires MemoryOk(s) && id < |s.tasks| && b != 0 && b in s.mem && s.mem[b] == Block(FileOf(id), file)
    requires var t := s.tasks[id]; t.additional == b && t.buffLength == |file| && HeaderHeld(s.mem, HeaderBlock(t), id)
    ensures var s2, f := FinishSend(s, id, wd), s.tasks[id].filepath;
            var i := IndexOf(s2.cache.items, f);
            if Welcome(Unlock(s.cache, f), f) then
              && i < |s2.cache.items| && s2.cache.items[i].buff == b && s2.cache.items[i].buffLength == |file|
              && b in s2.mem && s2.mem[b] == Block(Cached(f), file)
            else b !in s2.mem && s2.cache == Unlock(s.cache, f)
  {
    var t, s1 := s.tasks[id], TearDown(s, id);
    TornMemory(s, id);
    CacheKeeps(s1, C.Release(t.filepath), b);
    CacheMemory(s1, C.Release(t.filepath));
    hide MemoryOk, WithCache, Unlock, Deposit;
    DepositedFile(WithCache(s1, Unlock(s1.cache, t.filepath)), t.filepath, b, file, wd);
  }
}
