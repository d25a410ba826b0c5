/** Tasks of the sending side keep out of each other's way: whatever else happens, what becomes of a task is
    decided by the completions of its own operations, but for the heap addresses it is given. */
module Interleaving {
  import opened Options
  import opened CacheSpec
  import opened Vectored
  import opened ServerSpec
  import opened ServerInvariant
  import opened ServerTheorems
  import opened Ranges

  // ---------------------------------------------------------------- up to addresses

  /** The same bytes of a block, whichever block it is. */
  predicate SameSpan(v: IoVec, w: IoVec) {
    v.len == w.len && v.base.off == w.base.off
  }

  predicate SameSpans(a: seq<IoVec>, b: seq<IoVec>) {
    |a| == |b| && forall i :: 0 <= i < |a| ==> SameSpan(a[i], b[i])
  }

  predicate SameBuff(a: Buff, b: Buff) {
    match a
    case NoBuff => b.NoBuff?
    case Bytes(_) => b.Bytes?
    case Vecs(_, vecs) => b.Vecs? && SameSpans(vecs, b.vecs)
  }

  function NoAddresses(t: Task): Task {
    t.(buff := NoBuff, iovs := [], additional := 0)
  }

  predicate SameRecord(t: Task, u: Task) {
    && NoAddresses(t) == NoAddresses(u) && (t.additional == 0 <==> u.additional == 0)
    && SameBuff(t.buff, u.buff) && SameSpans(t.iovs, u.iovs)
  }

  predicate SameOp(a: Op, b: Op) {
    match a
    case Writev(client, iovs) => b.Writev? && b.client == client && SameSpans(iovs, b.iovs)
    case Read(_, off, len) => b.Read? && b.off == off && b.len == len
    case Write(client, _) => b.Write? && b.client == client
  }

  /** Task `id` has the same record, the same operation in flight and the same progress in both. */
  predicate Alike(s: State, d: State, id: nat) {
    && id < |s.tasks| && id < |d.tasks| && SameRecord(s.tasks[id], d.tasks[id])
    && (id in s.ops <==> id in d.ops) && (id in s.ops ==> SameOp(s.ops[id], d.ops[id]))
    && id < |s.log| && id < |d.log| && s.log[id].status == d.log[id].status && |s.log[id].sent| == |d.log[id].sent|
  }

  lemma {:induction false} SameSize(a: seq<IoVec>, b: seq<IoVec>)
    requires SameSpans(a, b)
    ensures Size(a) == Size(b)
  {
    if a != [] {
      SameSize(a[1..], b[1..]);
    }
  }

  lemma RestUnfolds(a: seq<IoVec>, total: nat)
    ensures Rest(a, total) ==
              if a == [] then []
              else if a[0].len > total then [IoVec(Addr(a[0].base.block, a[0].base.off + total), a[0].len - total)] + a[1..]
              else if a[0].len == total then a[1..]
              else Rest(a[1..], total - a[0].len)
  {
  }

  lemma {:induction false} SameRest(a: seq<IoVec>, b: seq<IoVec>, total: nat)
    requires SameSpans(a, b)
    ensures SameSpans(Rest(a, total), Rest(b, total))
  {
    RestUnfolds(a, total);
    RestUnfolds(b, total);
    hide Rest;
    if a != [] && a[0].len < total {
      SameRest(a[1..], b[1..], total - a[0].len);
    }
  }

  lemma SameRebuilt(a: seq<IoVec>, b: seq<IoVec>, total: nat)
    requires SameSpans(a, b)
    ensures SameSpans(Rebuilt(a, total), Rebuilt(b, total))
  {
    SameRest(a, b, total);
  }

  lemma SameOrig(t: Task, u: Task)
    requires SameRecord(t, u)
    ensures SameSpans(Orig(t), Orig(u)) && Size(Orig(t)) == Size(Orig(u)) && UsingRanges(t) == UsingRanges(u)
    ensures t.progress == u.progress && t.opType == u.opType && t.buffLength == u.buffLength && t.forClient == u.forClient
  {
    assert NoAddresses(t).progress == NoAddresses(u).progress && NoAddresses(t).opType == NoAddresses(u).opType;
    assert NoAddresses(t).buffLength == NoAddresses(u).buffLength && NoAddresses(t).forClient == NoAddresses(u).forClient;
    assert NoAddresses(t).writeRanges == NoAddresses(u).writeRanges && NoAddresses(t).writeRangesIdx == NoAddresses(u).writeRangesIdx;
    SameSize(Orig(t), Orig(u));
  }

  // ---------------------------------------------------------------- one completion

  /** It may happen to either. */
  lemma MayHappenAlike(s: State, d: State, e: Event, id: nat)
    requires Base(d) && Alike(s, d, id) && MayHappen(s, e) && About(e, id)
    ensures MayHappen(d, e)
  {
    if e.Written? {
      SameSize(s.ops[id].iovs, d.ops[id].iovs);
    }
  }

  lemma SameBody(t: Task, u: Task, a: nat, b: nat)
    requires SameRecord(t, u)
    ensures SameSpan(Body(t, a), Body(u, b))
  {
    SameOrig(t, u);
    assert NoAddresses(t).writeRanges == NoAddresses(u).writeRanges && NoAddresses(t).writeRangesIdx == NoAddresses(u).writeRangesIdx;
  }

  lemma SubmitAlike(s: State, d: State, id: nat, client: nat, header: string)
    requires Table(s) && Table(d) && id < |s.tasks| && id < |d.tasks| && SameRecord(s.tasks[id], d.tasks[id])
    ensures Alike(SubmitFile(s, id, client, header), SubmitFile(d, id, client, header), id)
  {
    SameBody(s.tasks[id], d.tasks[id], BlockOf(s.tasks[id].buff), BlockOf(d.tasks[id].buff));
    hide Body, Gather, Addrs;
  }

  lemma AlikeKept(s: State, s2: State, d: State, d2: State, id: nat)
    requires Alike(s, d, id) && SameAt(s, s2, id) && SameAt(d, d2, id)
    ensures Alike(s2, d2, id)
  {
    hide SameRecord, SameOp;
  }

  /** The task that closes the file comes behind. */
  lemma CloseSame(s: State, id: nat)
    requires Table(s) && s.freedIdxs == {} && id < |s.tasks|
    ensures var (s2, closeId) := GetTask(s); SameAt(s, SetTask(s2, closeId, BLANK.(opType := RawClose)), id)
  {
  }

  lemma SubmitReadAlike(s: State, d: State, id: nat, header: string)
    requires Table(s) && Table(d) && s.freedIdxs == {} && d.freedIdxs == {} && id < |s.tasks| && id < |d.tasks|
    requires SameRecord(s.tasks[id], d.tasks[id]) && BlockOf(s.tasks[id].buff) != 0 && BlockOf(d.tasks[id].buff) != 0
    ensures Alike(SubmitRead(s, id, header), SubmitRead(d, id, header), id)
  {
    SameOrig(s.tasks[id], d.tasks[id]);
    var t, u := s.tasks[id], d.tasks[id];
    var s1 := SetTask(s, id, t.(additional := BlockOf(t.buff), forClient := SIZE_MAX));
    var d1 := SetTask(d, id, u.(additional := BlockOf(u.buff), forClient := SIZE_MAX));
    SubmitAlike(s1, d1, id, t.forClient, header);
    var s2, d2 := SubmitFile(s1, id, t.forClient, header), SubmitFile(d1, id, t.forClient, header);
    SubmitTable(s1, id, t.forClient, header);
    SubmitTable(d1, id, t.forClient, header);
    CloseSame(s2, id);
    CloseSame(d2, id);
    hide SubmitFile, GetTask, Alike, SameAt, SameRecord;
    AlikeKept(s2, SubmitRead(s, id, header), d2, SubmitRead(d, id, header), id);
  }

  lemma SubmitTable(s: State, id: nat, client: nat, header: string)
    requires Table(s) && s.freedIdxs == {} && id < |s.tasks|
    ensures var s2 := SubmitFile(s, id, client, header); Table(s2) && s2.freedIdxs == {} && |s2.tasks| == |s.tasks|
  {
  }

  lemma ArrivedAlike(s: State, d: State, id: nat, data: string)
    requires Alike(s, d, id)
    ensures Alike(Arrived(s, id, data), Arrived(d, id, data), id)
    ensures Arrived(s, id, data).(mem := s.mem) == s && Arrived(d, id, data).(mem := d.mem) == d
  {
    hide Overwrite;
  }

  lemma IdleAlike(s: State, d: State, id: nat)
    requires Alike(s, d, id)
    ensures Alike(s.(ops := Remove(s.ops, id)), d.(ops := Remove(d.ops, id)), id)
    ensures forall m, k :: Alike(s.(mem := m), d.(mem := k), id)
  {
    hide SameRecord, SameOp;
  }

  function MoreToRead(s: State, id: nat, total: nat): State
    requires id < |s.tasks| && total <= s.tasks[id].buffLength
  {
    var t := s.tasks[id];
    SetTask(s, id, t.(progress := total)).(ops := s.ops[id := Read(BlockOf(t.buff), total, t.buffLength - total)])
  }

  lemma ReadCases(s: State, id: nat, data: string, header: string)
    requires Table(s) && id < |s.tasks|
    ensures var s1, t := Arrived(s, id, data), s.tasks[id];
            FileRead(s, id, Got(data), header) ==
              if data != "" && t.progress + |data| < t.buffLength then MoreToRead(s1, id, t.progress + |data|)
              else if data == "" && t.progress != t.buffLength then ReadFailed(s1, id)
              else SubmitRead(s1, id, header)
  {
    hide SubmitRead, ReadFailed, Overwrite;
  }

  lemma MoreAlike(s: State, d: State, id: nat, total: nat)
    requires Alike(s, d, id) && total <= s.tasks[id].buffLength
    ensures total <= d.tasks[id].buffLength && Alike(MoreToRead(s, id, total), MoreToRead(d, id, total), id)
  {
    SameOrig(s.tasks[id], d.tasks[id]);
    assert NoAddresses(s.tasks[id].(progress := total)) == NoAddresses(s.tasks[id]).(progress := total);
    assert NoAddresses(d.tasks[id].(progress := total)) == NoAddresses(d.tasks[id]).(progress := total);
    hide NoAddresses;
  }

  lemma FailAlike(s: State, d: State, id: nat)
    requires Alike(s, d, id)
    ensures Alike(ReadFailed(s, id), ReadFailed(d, id), id)
  {
    hide SameRecord, SameOp;
  }

  /** The file goes on being read, or the read fails, or the response is submitted. */
  lemma GoneOnAlike(s: State, d: State, id: nat, data: string, header: string)
    requires Table(s) && Table(d) && s.freedIdxs == {} && d.freedIdxs == {} && Alike(s, d, id)
    requires BlockOf(s.tasks[id].buff) != 0 && BlockOf(d.tasks[id].buff) != 0
    ensures Alike(FileRead(s, id, Got(data), header), FileRead(d, id, Got(data), header), id)
  {
    hide FileRead, MoreToRead, ReadFailed, SubmitRead, Arrived, SameRecord, SameOp;
    var t, u := s.tasks[id], d.tasks[id];
    SameOrig(t, u);
    ArrivedAlike(s, d, id, data);
    ReadCases(s, id, data, header);
    ReadCases(d, id, data, header);
    var s1, d1 := Arrived(s, id, data), Arrived(d, id, data);
    if data != "" && t.progress + |data| < t.buffLength {
      MoreAlike(s1, d1, id, t.progress + |data|);
    } else if data == "" && t.progress != t.buffLength {
      FailAlike(s1, d1, id);
    } else {
      SubmitReadAlike(s1, d1, id, header);
    }
  }

  lemma ReadAlike(s: State, d: State, id: nat, r: ReadResult, header: string)
    requires Base(s) && Base(d) && Alike(s, d, id) && MayHappen(s, ReadDone(id, r, header)) && MayHappen(d, ReadDone(id, r, header))
    ensures Alike(FileRead(s, id, r, header), FileRead(d, id, r, header), id)
  {
    assert OpOk(s, id) && OpOk(d, id);
    assert BlockOf(s.tasks[id].buff) != 0 && BlockOf(d.tasks[id].buff) != 0;
    hide OpOk, MemoryOk, Alike, Arrived, SubmitRead;
    IdleAlike(s, d, id);
    if r.Got? {
      GoneOnAlike(s, d, id, r.data, header);
      hide FileRead;
    }
  }

  lemma FinishRecord(s: State, id: nat, wd: int)
    requires id < |s.tasks|
    ensures var s2 := FinishSend(s, id, wd);
            && s2.tasks == s.tasks[id := s.tasks[id].(buff := NoBuff, iovs := [])]
            && s2.ops == Remove(s.ops, id) && s2.log == s.log
  {
    hide Unlock, AddOrUpdate;
  }

  lemma FinishAlike(s: State, d: State, id: nat, wd: int)
    requires Alike(s, d, id)
    ensures Alike(FinishSend(s, id, wd), FinishSend(d, id, wd), id)
  {
    hide FinishSend;
    FinishRecord(s, id, wd);
    FinishRecord(d, id, wd);
  }

  lemma RangeAlike(s: State, d: State, id: nat, client: nat, header: string)
    requires Alike(s, d, id)
    ensures Alike(NextRange(s, id, client, header), NextRange(d, id, client, header), id)
  {
    SameBody(s.tasks[id], d.tasks[id], BlockOf(s.tasks[id].buff), BlockOf(d.tasks[id].buff));
    hide Body;
  }

  /** The history of the task has a new state, and as much more taken in both. */
  lemma LoggedAlike(s: State, d: State, id: nat, l: Log, m: Log)
    requires Alike(s, d, id) && l.status == m.status && |l.sent| == |m.sent|
    ensures Alike(s.(log := s.log[id := l]), d.(log := d.log[id := m]), id)
  {
    hide SameRecord, SameOp;
  }

  lemma ContinueAlike(s: State, d: State, id: nat, header: string, wd: int)
    requires Alike(s, d, id) && id in s.ops && s.ops[id].Writev?
    ensures Alike(ContinueSend(s, id, header, wd), ContinueSend(d, id, header, wd), id)
  {
    SameOrig(s.tasks[id], d.tasks[id]);
    FinishAlike(s, d, id, wd);
    RangeAlike(s, d, id, s.ops[id].client, header);
    hide FinishSend, NextRange;
  }

  /** The kernel has taken `k` more bytes. */
  function Taken(s: State, id: nat, k: nat, status: Status): State
    requires id < |s.log| && id in s.ops && s.ops[id].Writev? && k <= Size(s.ops[id].iovs)
  {
    var l := s.log[id];
    s.(log := s.log[id := l.(sent := l.sent + Gather(s.mem, Addrs(s.ops[id].iovs)[..k]), status := status)])
  }

  function RestWritten(s: State, id: nat, total: nat): State
    requires id < |s.tasks| && id in s.ops && s.ops[id].Writev?
  {
    var iovs := Rebuilt(Orig(s.tasks[id]), total);
    SetTask(s, id, s.tasks[id].(iovs := iovs, progress := total)).(ops := s.ops[id := Writev(s.ops[id].client, iovs)])
  }

  function CopyDropped(s: State, id: nat): State
    requires id < |s.tasks|
  {
    SetTask(s, id, s.tasks[id].(iovs := [])).(ops := Remove(s.ops, id))
  }

  lemma MovedCases(s: State, id: nat, k: nat, header: string, wd: int)
    requires Table(s) && id < |s.tasks| && id in s.ops && s.ops[id].Writev? && k <= Size(s.ops[id].iovs)
    ensures var t := s.tasks[id];
            WritevDone(s, id, Moved(k), header, wd) ==
              if t.progress + k < Size(Orig(t)) then RestWritten(Taken(s, id, k, s.log[id].status), id, t.progress + k)
              else if t.opType.HttpSendFile? then ContinueSend(Taken(s, id, k, Done), id, header, wd)
              else CopyDropped(Taken(s, id, k, Done), id)
  {
    hide ContinueSend, Gather, Addrs, Size, Rebuilt;
  }

  lemma TakenAlike(s: State, d: State, id: nat, k: nat, status: Status)
    requires Alike(s, d, id) && id in s.ops && s.ops[id].Writev? && k <= Size(s.ops[id].iovs) && k <= Size(d.ops[id].iovs)
    ensures Alike(Taken(s, id, k, status), Taken(d, id, k, status), id)
  {
    hide SameRecord, SameSpans;
  }

  lemma RestAlike(s: State, d: State, id: nat, total: nat)
    requires Alike(s, d, id) && id in s.ops && s.ops[id].Writev?
    ensures Alike(RestWritten(s, id, total), RestWritten(d, id, total), id)
  {
    SameOrig(s.tasks[id], d.tasks[id]);
    SameRebuilt(Orig(s.tasks[id]), Orig(d.tasks[id]), total);
    var iovs, jovs := Rebuilt(Orig(s.tasks[id]), total), Rebuilt(Orig(d.tasks[id]), total);
    assert NoAddresses(s.tasks[id].(iovs := iovs, progress := total)) == NoAddresses(s.tasks[id]).(progress := total);
    assert NoAddresses(d.tasks[id].(iovs := jovs, progress := total)) == NoAddresses(d.tasks[id]).(progress := total);
    hide NoAddresses, Rebuilt, Orig, SameSpans;
  }

  lemma DropAlike(s: State, d: State, id: nat)
    requires Alike(s, d, id)
    ensures Alike(CopyDropped(s, id), CopyDropped(d, id), id)
  {
  }

  lemma MovedAlike(s: State, d: State, id: nat, k: nat, header: string, wd: int)
    requires Table(s) && Table(d) && Alike(s, d, id) && id in s.ops && s.ops[id].Writev?
    requires k <= Size(s.ops[id].iovs) && k <= Size(d.ops[id].iovs)
    ensures Alike(WritevDone(s, id, Moved(k), header, wd), WritevDone(d, id, Moved(k), header, wd), id)
  {
    hide WritevDone, Taken, RestWritten, CopyDropped, ContinueSend, SameRecord, SameSpans, Size, Orig;
    var t := s.tasks[id];
    SameOrig(t, d.tasks[id]);
    MovedCases(s, id, k, header, wd);
    MovedCases(d, id, k, header, wd);
    var status := if t.progress + k < Size(Orig(t)) then s.log[id].status else Done;
    TakenAlike(s, d, id, k, status);
    var s1, d1 := Taken(s, id, k, status), Taken(d, id, k, status);
    TakenOps(s, id, k, status);
    TakenOps(d, id, k, status);
    if t.progress + k < Size(Orig(t)) {
      RestAlike(s1, d1, id, t.progress + k);
    } else if t.opType.HttpSendFile? {
      ContinueAlike(s1, d1, id, header, wd);
    } else {
      DropAlike(s1, d1, id);
    }
  }

  lemma TakenOps(s: State, id: nat, k: nat, status: Status)
    requires id < |s.log| && id in s.ops && s.ops[id].Writev? && k <= Size(s.ops[id].iovs)
    ensures var s1 := Taken(s, id, k, status); s1.ops == s.ops && s1.tasks == s.tasks
  {
  }

  lemma ErrorAlike(s: State, d: State, id: nat, header: string, wd: int)
    requires Table(s) && Table(d) && Alike(s, d, id) && id in s.ops && s.ops[id].Writev?
    ensures Alike(WritevDone(s, id, Error, header, wd), WritevDone(d, id, Error, header, wd), id)
  {
    SameOrig(s.tasks[id], d.tasks[id]);
    var l, m := s.log[id].(status := Failed), d.log[id].(status := Failed);
    LoggedAlike(s, d, id, l, m);
    var s1, d1 := s.(log := s.log[id := l]), d.(log := d.log[id := m]);
    IdleAlike(s1, d1, id);
    FinishAlike(s1, d1, id, wd);
    hide FinishSend, Alike;
  }

  lemma WrittenAlike(s: State, d: State, e: Event, id: nat)
    requires Alike(s, d, id) && MayHappen(s, e) && MayHappen(d, e) && e.Written? && e.id == id
    ensures Alike(WritevDone(s, id, e.outcome, e.header, e.wd), WritevDone(d, id, e.outcome, e.header, e.wd), id)
  {
    match e.outcome
    case Interrupted =>
    case Error =>
      ErrorAlike(s, d, id, e.header, e.wd);
      hide WritevDone;
    case Moved(k) =>
      MovedAlike(s, d, id, k, e.header, e.wd);
      hide WritevDone;
  }

  /** A completion of the task's own operation may happen in either state, and keeps them alike. */
  lemma OwnAlike(s: State, d: State, e: Event, id: nat)
    requires Base(s) && Base(d) && Alike(s, d, id) && MayHappen(s, e) && About(e, id)
    ensures MayHappen(d, e) && Alike(Step(s, e), Step(d, e), id)
  {
    hide Base, Alike, FileRead, WritevDone;
    MayHappenAlike(s, d, e, id);
    match e
    case ReadDone(_, r, header) => ReadAlike(s, d, id, r, header);
    case Written(_, _, _, _) => WrittenAlike(s, d, e, id);
  }

  // ---------------------------------------------------------------- whole runs

  /** The events about task `id`, in order. */
  function OwnEvents(es: seq<Event>, id: nat): seq<Event> {
    if es == [] then []
    else OwnEvents(es[..|es| - 1], id) + if About(es[|es| - 1], id) then [es[|es| - 1]] else []
  }

  lemma OwnGrows(s: State, es: seq<Event>, id: nat)
    requires es != [] && Feasible(s, OwnEvents(es[..|es| - 1], id))
    ensures var e, own := es[|es| - 1], OwnEvents(es[..|es| - 1], id);
            if About(e, id) then
              MayHappen(RunAll(s, own), e) ==> Feasible(s, OwnEvents(es, id)) && RunAll(s, OwnEvents(es, id)) == Step(RunAll(s, own), e)
            else OwnEvents(es, id) == own
  {
    var e, own := es[|es| - 1], OwnEvents(es[..|es| - 1], id);
    assert OwnEvents(es, id) == own + if About(e, id) then [e] else [];
    hide OwnEvents;
    assert own + [] == own;
    if About(e, id) && MayHappen(RunAll(s, own), e) {
      OneMore(s, own, e);
    }
  }

  lemma OneMore(s: State, es: seq<Event>, e: Event)
    requires Feasible(s, es) && MayHappen(RunAll(s, es), e)
    ensures Feasible(s, es + [e]) && RunAll(s, es + [e]) == Step(RunAll(s, es), e)
  {
    assert (es + [e])[..|es|] == es;
    hide Step, MayHappen;
  }

  lemma NoStep(s: State, id: nat)
    ensures OwnEvents([], id) == [] && Feasible(s, []) && RunAll(s, []) == s
  {
  }

  lemma AlikeSelf(s: State, id: nat)
    requires Base(s) && id < |s.tasks|
    ensures Alike(s, s, id)
  {
  }

  lemma OtherAlike(s: State, e: Event, d: State, id: nat)
    requires Base(s) && Base(d) && Alike(s, d, id) && MayHappen(s, e) && !About(e, id)
    ensures Alike(Step(s, e), d, id)
  {
    hide Step, MayHappen;
    Untouched(s, e, id);
    assert SameAt(d, d, id);
    hide Base, Alike;
    AlikeKept(s, Step(s, e), d, d, id);
  }

  /** Non-interference: in any interleaving of events over any number of tasks, the record of a task, its
      operation in flight and how far it got are, but for heap addresses, what the run of the task's own
      completions alone makes of them, and that run is possible. */
  lemma {:induction false} OwnEventsDecide(s: State, es: seq<Event>, id: nat)
    requires Base(s) && id < |s.tasks| && Feasible(s, es)
    ensures Feasible(s, OwnEvents(es, id)) && Base(RunAll(s, es)) && Base(RunAll(s, OwnEvents(es, id)))
    ensures Alike(RunAll(s, es), RunAll(s, OwnEvents(es, id)), id)
  {
    hide *;
    if es == [] {
      NoStep(s, id);
      AlikeSelf(s, id);
    } else {
      var before, e := es[..|es| - 1], es[|es| - 1];
      RunLast(s, es);
      OwnEventsDecide(s, before, id);
      OwnGrows(s, es, id);
      var r, d := RunAll(s, before), RunAll(s, OwnEvents(before, id));
      BaseStep(r, e);
      if About(e, id) {
        OwnAlike(r, d, e, id);
        BaseStep(d, e);
      } else {
        OtherAlike(r, e, d, id);
      }
    }
  }
}
