/** What a send by ranges transmits: the first range without its last byte, and nothing of the file after that. */
module RangeSends {
  import opened Options
  import opened CacheSpec
  import N = Interleaving
  import opened Vectored
  import opened Ranges
  import opened ServerSpec
  import opened ServerInvariant
  import opened ServerTheorems

  // ---------------------------------------------------------------- iovec arrays are no data

  /** The array of iovecs a record points to is no block of bytes, and will not become one. */
  predicate ArrayApart(s: State, t: Task) {
    t.buff.Vecs? ==> t.buff.block < s.next && t.buff.block !in s.mem
  }

  ghost predicate ArraysApart(s: State) {
    (forall b :: b in s.mem ==> b < s.next) && forall i :: 0 <= i < |s.tasks| ==> ArrayApart(s, s.tasks[i])
  }

  /** Memory may lose blocks, and gains only new ones. */
  ghost predicate Later(s: State, s2: State) {
    s.next <= s2.next && |s.tasks| <= |s2.tasks| && forall b :: b in s2.mem ==> b in s.mem || s.next <= b < s2.next
  }

  lemma ApartLater(s: State, s2: State, x: nat)
    requires ArraysApart(s) && Later(s, s2)
    requires forall i :: 0 <= i < |s2.tasks| && i != x ==>
               if i < |s.tasks| then s2.tasks[i].buff == s.tasks[i].buff else ArrayApart(s2, s2.tasks[i])
    requires x < |s2.tasks| ==> ArrayApart(s2, s2.tasks[x])
    ensures ArraysApart(s2)
  {
    forall i | 0 <= i < |s2.tasks|
      ensures ArrayApart(s2, s2.tasks[i])
    {
      if i != x && i < |s.tasks| {
        assert ArrayApart(s, s.tasks[i]);
      }
    }
  }

  lemma SubmitFileApart(s: State, id: nat, client: nat, header: string)
    requires Table(s) && id < |s.tasks| && ArraysApart(s)
    ensures ArraysApart(SubmitFile(s, id, client, header))
  {
    hide Gather, Addrs, Body;
    ApartLater(s, SubmitFile(s, id, client, header), id);
  }

  lemma UnsatisfiableApart(s: State, client: nat, header: string)
    requires Table(s) && s.freedIdxs == {} && ArraysApart(s)
    ensures ArraysApart(SendUnsatisfiable(s, client, header))
  {
    ApartLater(s, SendUnsatisfiable(s, client, header), |s.tasks|);
  }

  lemma LockedApart(s: State, client: nat, path: string, rangeStr: string, header: string, it: Item)
    requires Table(s) && s.freedIdxs == {} && ArraysApart(s) && (rangeStr == "" || rangeStr == "none" || |rangeStr| >= 6)
    ensures ArraysApart(SendLocked(s, client, path, rangeStr, header, it))
  {
    hide ParseRanges, SubmitFile, SendUnsatisfiable, Unlock;
    var (s1, id) := GetTaskBuffOp(s, HttpSendFile, it.buff, it.buffLength);
    var (ranges, valid) := ParseRanges(rangeStr, it.buffLength);
    var s2 := SetTask(s1, id, s1.tasks[id].(filepath := path, writeRanges := ranges));
    ApartLater(s, s2, id);
    if valid {
      SubmitFileApart(s2, id, client, header);
    } else {
      var s3 := WithCache(s2, Unlock(s2.cache, path));
      ApartLater(s2, s3, id);
      UnsatisfiableApart(s3, client, header);
    }
  }

  lemma UncachedApart(s: State, client: nat, path: string, rangeStr: string, header: string, size: nat)
    requires Table(s) && s.freedIdxs == {} && ArraysApart(s) && (rangeStr == "" || rangeStr == "none" || |rangeStr| >= 6)
    ensures ArraysApart(SendUncached(s, client, path, rangeStr, header, size))
  {
    hide ParseRanges, SendUnsatisfiable;
    var (s1, id) := GetTask(s);
    var (ranges, valid) := ParseRanges(rangeStr, size);
    var t := BLANK.(forClient := client, buffLength := size, filepath := path, opType := HttpSendFile, writeRanges := ranges);
    if valid {
      ApartLater(s, SendUncached(s, client, path, rangeStr, header, size), id);
    } else {
      ApartLater(s, SetTask(s1, id, t), id);
      UnsatisfiableApart(SetTask(s1, id, t), client, header);
    }
  }

  lemma SendApart(s: State, e: Event)
    requires MayHappen(s, e) && s.freedIdxs == {} && ArraysApart(s) && e.Send?
    ensures ArraysApart(Step(s, e))
  {
    hide GetAndLock, SendLocked, SendUncached;
    var (c, hit) := GetAndLock(s.cache, e.path);
    var s1 := WithCache(s, c);
    ApartLater(s, s1, |s.tasks|);
    if hit.Some? {
      LockedApart(s1, e.client, e.path, e.rangeStr, e.header, hit.value);
    } else if e.size.Some? {
      UncachedApart(s1, e.client, e.path, e.rangeStr, e.header, e.size.value);
    }
  }

  lemma ArrivedApart(s: State, id: nat, data: string)
    requires id < |s.tasks| && ArraysApart(s)
    ensures ArraysApart(Arrived(s, id, data))
  {
    hide Overwrite;
    ApartLater(s, Arrived(s, id, data), |s.tasks|);
  }

  lemma SubmitReadApart(s: State, id: nat, header: string)
    requires Table(s) && s.freedIdxs == {} && id < |s.tasks| && ArraysApart(s)
    ensures ArraysApart(SubmitRead(s, id, header))
  {
    hide SubmitFile;
    var t := s.tasks[id];
    var s1 := SetTask(s, id, t.(additional := BlockOf(t.buff), forClient := SIZE_MAX));
    ApartLater(s, s1, |s.tasks|);
    SubmitFileApart(s1, id, t.forClient, header);
    var s2 := SubmitFile(s1, id, t.forClient, header);
    N.SubmitTable(s1, id, t.forClient, header);
    ApartLater(s2, SubmitRead(s, id, header), |s2.tasks|);
  }

  lemma ReadApart(s: State, id: nat, r: ReadResult, header: string)
    requires Table(s) && s.freedIdxs == {} && id < |s.tasks| && ArraysApart(s)
    ensures ArraysApart(FileRead(s, id, r, header))
  {
    hide Overwrite, SubmitRead;
    if r.Got? {
      ArrivedApart(s, id, r.data);
      var s1 := Arrived(s, id, r.data);
      SubmitReadApart(s1, id, header);
      hide Arrived;
      if r.data != "" && s.tasks[id].progress + |r.data| < s.tasks[id].buffLength {
        ApartLater(s1, FileRead(s, id, r, header), |s.tasks|);
      } else if r.data == "" && s.tasks[id].progress != s.tasks[id].buffLength {
        ApartLater(s1, FileRead(s, id, r, header), |s.tasks|);
      }
    } else {
      ApartLater(s, FileRead(s, id, r, header), |s.tasks|);
    }
  }

  lemma FinishApart(s: State, id: nat, wd: int)
    requires id < |s.tasks| && ArraysApart(s)
    ensures ArraysApart(FinishSend(s, id, wd))
  {
    hide Unlock, AddOrUpdate;
    ApartLater(s, FinishSend(s, id, wd), id);
  }

  lemma RangeApart(s: State, id: nat, client: nat, header: string)
    requires id < |s.tasks| && ArraysApart(s) && s.tasks[id].buff.Vecs?
    ensures ArraysApart(NextRange(s, id, client, header))
  {
    hide Body;
    assert ArrayApart(s, s.tasks[id]);
    ApartLater(s, NextRange(s, id, client, header), id);
  }

  lemma WrittenApart(s: State, e: Event)
    requires Base(s) && MayHappen(s, e) && ArraysApart(s) && e.Written?
    ensures ArraysApart(Step(s, e))
  {
    hide MemoryOk, Step, Gather, Addrs, Size, Rebuilt, FinishSend, NextRange;
    var id, l := e.id, s.log[e.id];
    assert OpOk(s, id) && ArrayApart(s, s.tasks[id]);
    WrittenCases(s, e);
    match e.outcome
    case Interrupted =>
    case Error =>
      var s1 := s.(log := s.log[id := l.(status := Failed)]);
      ApartLater(s, s1, |s.tasks|);
      FinishApart(s1, id, e.wd);
      ApartLater(s, s1.(ops := Remove(s1.ops, id)), |s.tasks|);
    case Moved(k) =>
      if s.tasks[id].progress + k < Size(Orig(s.tasks[id])) {
        PartDone(s, id, k, e.header, e.wd);
        hide WritevDone;
        ApartLater(s, Step(s, e), id);
      } else {
        hide WritevDone;
        var s1 := s.(log := s.log[id := l.(sent := l.sent + Gather(s.mem, Addrs(s.ops[id].iovs)[..k]), status := Done)]);
        ApartLater(s, s1, |s.tasks|);
        FinishApart(s1, id, e.wd);
        RangeApart(s1, id, s1.ops[id].client, e.header);
        ApartLater(s1, SetTask(s1, id, s.tasks[id].(iovs := [])).(ops := Remove(s1.ops, id)), id);
      }
  }

  /** Every event keeps the arrays apart from the data. */
  lemma StepApart(s: State, e: Event)
    requires Base(s) && MayHappen(s, e) && ArraysApart(s)
    ensures ArraysApart(Step(s, e))
  {
    hide SendFile, FileRead, WritevDone, MemoryOk;
    match e
    case Send(_, _, _, _, _) => SendApart(s, e);
    case SendVecs(_, _) => ApartLater(s, Step(s, e), |s.tasks|);
    case ReadDone(id, r, header) => ReadApart(s, id, r, header);
    case Written(_, _, _, _) => WrittenApart(s, e);
    case Inotify(_) => ApartLater(s, Step(s, e), |s.tasks|);
  }

  lemma {:induction false} RunApart(size: nat, es: seq<Event>)
    requires Feasible(Init(size), es)
    ensures Base(RunAll(Init(size), es)) && ArraysApart(RunAll(Init(size), es))
  {
    if es == [] {
      InitInv(size, "");
    } else {
      RunApart(size, es[..|es| - 1]);
      hide Step, MayHappen, Base, ArraysApart;
      BaseStep(RunAll(Init(size), es[..|es| - 1]), es[|es| - 1]);
      StepApart(RunAll(Init(size), es[..|es| - 1]), es[|es| - 1]);
    }
  }

  // ---------------------------------------------------------------- what is transmitted

  /** The first range: what is to be transmitted is the header and the bytes from its start up to its end, which is
      one byte less than the header announces. */
  lemma FirstRangeWants(s: State, id: nat, client: nat, header: string, b: nat)
    requires Table(s) && id < |s.tasks| && b < s.next && b in s.mem && UsingRanges(s.tasks[id])
    requires var t := s.tasks[id]; var r := t.writeRanges[t.writeRangesIdx];
             t.buff == Bytes(b) && r.start <= r.end < |s.mem[b].bytes| <= SIZE_MAX
    ensures var r := s.tasks[id].writeRanges[s.tasks[id].writeRangesIdx];
            var s2 := SubmitFile(s, id, client, header);
            && s2.log[id].want == AsCells(header + s.mem[b].bytes[r.start..r.end])
            && |s2.log[id].want| + 1 == |header| + (1 + r.end - r.start)
  {
    var r, s2 := s.tasks[id].writeRanges[s.tasks[id].writeRangesIdx], SubmitFile(s, id, client, header);
    var vecs := [IoVec(Addr(s.next, 0), |header|), IoVec(Addr(b, r.start), r.end - r.start)];
    hide SubmitFile, Addrs, Gather, UsingRanges;
    FirstRangeSubmitted(s, id, client, header, b);
    GatherTwo(s2.mem, vecs);
    GatherBlock(s2.mem, s.next);
    GatherSlice(s2.mem, b, r.start, r.end);
  }

  lemma FirstRangeSubmitted(s: State, id: nat, client: nat, header: string, b: nat)
    requires Table(s) && id < |s.tasks| && UsingRanges(s.tasks[id])
    requires var t := s.tasks[id]; var r := t.writeRanges[t.writeRangesIdx]; t.buff == Bytes(b) && r.start <= r.end <= SIZE_MAX
    ensures var r := s.tasks[id].writeRanges[s.tasks[id].writeRangesIdx];
            var s2, vecs := SubmitFile(s, id, client, header), [IoVec(Addr(s.next, 0), |header|), IoVec(Addr(b, r.start), r.end - r.start)];
            && id < |s2.log| && s2.log[id].want == Gather(s2.mem, Addrs(vecs)) && s2.mem == s.mem[s.next := Block(HeaderOf(id), header)]
  {
    hide Addrs, Gather;
  }

  lemma GatherSlice(mem: map<nat, Block>, b: nat, from: nat, to: nat)
    requires b in mem && from <= to <= |mem[b].bytes|
    ensures Gather(mem, Span(IoVec(Addr(b, from), to - from))) == AsCells(mem[b].bytes[from..to])
  {
  }

  /** Every later range: its base is computed from the array of iovecs, so what the kernel takes for its body is
      none of the file's bytes, in every run. */
  lemma LaterRangeDangles(size: nat, es: seq<Event>, id: nat, client: nat, header: string)
    requires Feasible(Init(size), es)
    requires var s := RunAll(Init(size), es); id < |s.tasks| && s.tasks[id].buff.Vecs? && UsingRanges(s.tasks[id])
    ensures var s2 := NextRange(RunAll(Init(size), es), id, client, header);
            && id in s2.ops && s2.ops[id].Writev? && |s2.ops[id].iovs| == 2
            && forall c :: c in Gather(s2.mem, Span(s2.ops[id].iovs[1])) ==> c == Dangling
  {
    RunApart(size, es);
    var s := RunAll(Init(size), es);
    hide Feasible, RunAll;
    assert ArrayApart(s, s.tasks[id]);
    var s2 := NextRange(s, id, client, header);
    var v := s2.ops[id].iovs[1];
    assert v.base.block == s.tasks[id].buff.block && v.base.block !in s2.mem;
  }
}
