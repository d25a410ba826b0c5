/** Whole runs of the server: what a cached send delivers, how locks are accounted for, and how
    tasks keep out of each other's way. */
module ServerTheorems {
  import opened Options
  import opened CacheSpec
  import C = CacheRuns
  import opened Vectored
  import opened ServerSpec
  import opened ServerInvariant

  function AsCells(text: string): (r: seq<Cell>)
    ensures |r| == |text| && forall i :: 0 <= i < |r| ==> r[i] == Byte(text[i])
  {
    seq(|text|, i requires 0 <= i < |text| => Byte(text[i]))
  }

  // ---------------------------------------------------------------- non-interference

  /** The existing task an event is about. */
  predicate About(e: Event, id: nat) {
    (e.ReadDone? || e.Written?) && e.id == id
  }

  /** The operation, record and history of task `id` are the same, and it is still in the table. */
  predicate SameAt(s: State, s2: State, id: nat) {
    && Table(s) && Table(s2) && id < |s.tasks| <= |s2.tasks|
    && s2.freedIdxs == s.freedIdxs
    && s2.tasks[id] == s.tasks[id] && s2.log[id] == s.log[id]
    && (id in s.ops <==> id in s2.ops) && (id in s.ops ==> s2.ops[id] == s.ops[id])
  }

  lemma SendSame(s: State, e: Event, id: nat)
    requires MayHappen(s, e) && s.freedIdxs == {} && id < |s.tasks| && e.Send?
    ensures SameAt(s, Step(s, e), id)
  {
    var (c, hit) := GetAndLock(s.cache, e.path);
    var s1 := WithCache(s, c);
    assert SameAt(s, s1, id);
    hide GetAndLock, WithCache;
    match hit
    case Some(it) => LockedSame(s1, e.client, e.path, e.rangeStr, e.header, it, id);
    case None =>
      if e.size.Some? {
        UncachedSame(s1, e.client, e.path, e.rangeStr, e.header, e.size.value, id);
      }
  }

  lemma LockedSame(s: State, client: nat, path: string, rangeStr: string, header: string, it: Item, id: nat)
    requires Table(s) && s.freedIdxs == {} && id < |s.tasks|
    requires rangeStr == "" || rangeStr == "none" || |rangeStr| >= 6
    ensures SameAt(s, SendLocked(s, client, path, rangeStr, header, it), id)
  {
  }

  lemma UncachedSame(s: State, client: nat, path: string, rangeStr: string, header: string, size: nat, id: nat)
    requires Table(s) && s.freedIdxs == {} && id < |s.tasks|
    requires rangeStr == "" || rangeStr == "none" || |rangeStr| >= 6
    ensures SameAt(s, SendUncached(s, client, path, rangeStr, header, size), id)
  {
  }

  lemma FinishSame(s: State, x: nat, wd: int, id: nat)
    requires Table(s) && x < |s.tasks| && id < |s.tasks| && id != x
    ensures SameAt(s, FinishSend(s, x, wd), id)
  {
    hide Unlock, AddOrUpdate;
  }

  lemma ContinueSame(s: State, x: nat, header: string, wd: int, id: nat)
    requires Table(s) && x < |s.tasks| && id < |s.tasks| && id != x && x in s.ops && s.ops[x].Writev?
    ensures SameAt(s, ContinueSend(s, x, header, wd), id)
  {
    FinishSame(s, x, wd, id);
    hide FinishSend;
  }

  lemma WrittenSame(s: State, x: nat, c: Completion, header: string, wd: int, id: nat)
    requires MayHappen(s, Written(x, c, header, wd)) && id < |s.tasks| && x != id
    ensures SameAt(s, WritevDone(s, x, c, header, wd), id)
  {
    hide FinishSend, ContinueSend;
    match c
    case Interrupted =>
    case Error =>
      FinishSame(s.(log := s.log[x := s.log[x].(status := Failed)]), x, wd, id);
    case Moved(k) =>
      var sent := s.log[x].sent + Gather(s.mem, Addrs(s.ops[x].iovs)[..k]);
      ContinueSame(s.(log := s.log[x := s.log[x].(sent := sent, status := Done)]), x, header, wd, id);
  }

  lemma SubmitReadSame(s: State, x: nat, header: string, id: nat)
    requires Table(s) && s.freedIdxs == {} && x < |s.tasks| && id < |s.tasks| && id != x
    ensures SameAt(s, SubmitRead(s, x, header), id)
  {
  }

  lemma ReadSame(s: State, x: nat, r: ReadResult, header: string, id: nat)
    requires MayHappen(s, ReadDone(x, r, header)) && s.freedIdxs == {} && id < |s.tasks| && x != id
    ensures SameAt(s, FileRead(s, x, r, header), id)
  {
    if r.Got? {
      var b := BlockOf(s.tasks[x].buff);
      SubmitReadSame(s, x, header, id);
      if b in s.mem && s.tasks[x].progress + |r.data| <= |s.mem[b].bytes| {
        var bytes := Overwrite(s.mem[b].bytes, s.tasks[x].progress, r.data);
        SubmitReadSame(s.(mem := s.mem[b := s.mem[b].(bytes := bytes)]), x, header, id);
      }
    }
    hide SubmitRead;
  }

  /** An event about another task leaves the operation, record and history of this one as they are,
      while tasks may be appended. */
  lemma Untouched(s: State, e: Event, id: nat)
    requires MayHappen(s, e) && s.freedIdxs == {} && id < |s.tasks| && !About(e, id)
    ensures SameAt(s, Step(s, e), id)
  {
    match e
    case Send(_, _, _, _, _) => SendSame(s, e, id);
    case SendVecs(_, _) =>
    case ReadDone(x, r, header) => ReadSame(s, x, r, header, id);
    case Written(x, c, header, wd) => WrittenSame(s, x, c, header, wd, id);
    case Inotify(_) =>
  }

  // ---------------------------------------------------------------- delivery

  lemma GatherBlock(mem: map<nat, Block>, b: nat)
    requires b in mem
    ensures Gather(mem, Span(IoVec(Addr(b, 0), |mem[b].bytes|))) == AsCells(mem[b].bytes)
  {
  }

  /** A hit without a Range header promises the header followed by the bytes cached at that time. */
  lemma HitWants(s: State, client: nat, path: string, header: string, size: Option<nat>)
    requires Inv(s, path, 0) && GetAndLock(s.cache, path).1.Some?
    ensures var it, s2 := GetAndLock(s.cache, path).1.value, Step(s, Send(client, path, "", header, size));
            && it.buff in s.mem && |s.tasks| < |s2.log| && |s.tasks| in s2.ops
            && s2.log[|s.tasks|] == Log(Some(path), AsCells(header + s.mem[it.buff].bytes), [], Active)
  {
    hide Step, GetAndLock, Gather, Addrs, Sends, Backed, LogOk, C.Locks;
    var it, s2 := GetAndLock(s.cache, path).1.value, Step(s, Send(client, path, "", header, size));
    HitItem(s, path);
    HitSubmits(s, client, path, header, size);
    var vecs := [IoVec(Addr(s.next, 0), |header|), IoVec(Addr(it.buff, 0), it.buffLength)];
    GatherTwo(s2.mem, vecs);
    GatherBlock(s2.mem, s.next);
    GatherBlock(s2.mem, it.buff);
  }

  /** The item locked has a live buffer of its length. */
  lemma HitItem(s: State, path: string)
    requires Base(s) && GetAndLock(s.cache, path).1.Some?
    ensures var it := GetAndLock(s.cache, path).1.value;
            && 0 < it.buff < s.next && it.buff in s.mem && |s.mem[it.buff].bytes| == it.buffLength && it.buff !in s.cache.freed
  {
    var i := IndexOf(s.cache.items, path);
    assert CachedItem(s.mem, s.cache.items[i]);
  }

  lemma HitSubmits(s: State, client: nat, path: string, header: string, size: Option<nat>)
    requires Table(s) && s.freedIdxs == {} && GetAndLock(s.cache, path).1.Some?
    requires var it := GetAndLock(s.cache, path).1.value; 0 < it.buff < s.next && it.buff in s.mem && it.buff !in s.cache.freed
    ensures var it, id, s2 := GetAndLock(s.cache, path).1.value, |s.tasks|, Step(s, Send(client, path, "", header, size));
            var vecs := [IoVec(Addr(s.next, 0), |header|), IoVec(Addr(it.buff, 0), it.buffLength)];
            && id < |s2.log| && id in s2.ops && s2.log[id] == Log(Some(path), Gather(s2.mem, Addrs(vecs)), [], Active)
            && s.next in s2.mem && s2.mem[s.next].bytes == header
            && it.buff in s2.mem && s2.mem[it.buff].bytes == s.mem[it.buff].bytes
  {
    hide Gather, Addrs, SendUncached, Without, IndexOf;
  }

  lemma GatherTwo(mem: map<nat, Block>, vecs: seq<IoVec>)
    requires |vecs| == 2
    ensures Gather(mem, Addrs(vecs)) == Gather(mem, Span(vecs[0])) + Gather(mem, Span(vecs[1]))
  {
    assert vecs[1..][1..] == [];
    assert Addrs(vecs) == Span(vecs[0]) + Span(vecs[1]);
  }

  /** What was promised for a whole cached file is not forgotten. */
  lemma WantStays(s: State, e: Event, id: nat)
    requires Base(s) && MayHappen(s, e) && id < |s.log| && s.log[id].file.Some?
    ensures var s2 := Step(s, e);
            |s.log| <= |s2.log| && s2.log[id].file == s.log[id].file && s2.log[id].want == s.log[id].want
  {
    if About(e, id) {
      assert OpOk(s, id);
    } else {
      Untouched(s, e, id);
    }
  }

  lemma Split(before: seq<Event>, e: Event, after: seq<Event>)
    ensures var es := before + [e] + after;
            |es| == |before| + 1 + |after|
            && (after == [] ==> es[|es| - 1] == e && es[..|es| - 1] == before)
            && (after != [] ==> es[|es| - 1] == after[|after| - 1] && es[..|es| - 1] == before + [e] + after[..|after| - 1])
  {
  }

  lemma HitLives(s: State, path: string)
    requires Inv(s, path, 0) && GetAndLock(s.cache, path).1.Some?
    ensures GetAndLock(s.cache, path).1.value.buff in s.mem
  {
    HitItem(s, path);
  }

  lemma {:induction false} Promise(size: nat, before: seq<Event>, e: Event, after: seq<Event>)
    requires e.Send? && e.rangeStr == ""
    requires var es := before + [e] + after; Feasible(Init(size), es) && Faithful(Init(size), es, e.path)
    ensures Feasible(Init(size), before) && Faithful(Init(size), before, e.path)
    ensures var s, s2 := RunAll(Init(size), before), RunAll(Init(size), before + [e] + after);
            var hit := GetAndLock(s.cache, e.path).1;
            hit.Some? ==>
              && hit.value.buff in s.mem && |s.tasks| < |s2.log|
              && s2.log[|s.tasks|].file == Some(e.path)
              && s2.log[|s.tasks|].want == AsCells(e.header + s.mem[hit.value.buff].bytes)
  {
    hide Step, GetAndLock, Inv, Base, MayHappen, Steals;
    var es := before + [e] + after;
    Split(before, e, after);
    if after == [] {
      RunInv(size, before, e.path);
      var s := RunAll(Init(size), before);
      if GetAndLock(s.cache, e.path).1.Some? {
        HitLives(s, e.path);
        HitWants(s, e.client, e.path, e.header, e.size);
      }
    } else {
      var shorter := after[..|after| - 1];
      Promise(size, before, e, shorter);
      RunInv(size, before + [e] + shorter, e.path);
      var s := RunAll(Init(size), before);
      if GetAndLock(s.cache, e.path).1.Some? {
        InvBase(RunAll(Init(size), before + [e] + shorter), e.path);
        WantStays(RunAll(Init(size), before + [e] + shorter), after[|after| - 1], |s.tasks|);
      }
    }
  }

  /** End to end: in every run in which no uncached send of the file ends while a cached one is in
      flight, a send that hits the cache has at any time delivered a prefix of the response header
      followed by the bytes cached when the lock was taken, and all of it, once and in order, when it
      is done, whatever short writes, interruptions, inotify events, insertions, evictions and other
      sends happen in between. */
  lemma CachedSendDelivers(size: nat, before: seq<Event>, e: Event, after: seq<Event>)
    requires e.Send? && e.rangeStr == ""
    requires var es := before + [e] + after; Feasible(Init(size), es) && Faithful(Init(size), es, e.path)
    ensures Feasible(Init(size), before)
    ensures var s, s2 := RunAll(Init(size), before), RunAll(Init(size), before + [e] + after);
            var hit := GetAndLock(s.cache, e.path).1;
            hit.Some? ==>
              && hit.value.buff in s.mem && |s.tasks| < |s2.log|
              && var response, l := AsCells(e.header + s.mem[hit.value.buff].bytes), s2.log[|s.tasks|];
                 l.sent <= response && (l.status.Done? ==> l.sent == response)
  {
    Promise(size, before, e, after);
    RunInv(size, before + [e] + after, e.path);
    var s, s2 := RunAll(Init(size), before), RunAll(Init(size), before + [e] + after);
    if GetAndLock(s.cache, e.path).1.Some? {
      assert s2.log[|s.tasks|] in s2.log;
      assert LogOk(s2.log[|s.tasks|], e.path);
    }
  }

  // ---------------------------------------------------------------- lock accounting

  /** In runs in which no send steals a lock on the file, its lock count is the number of its
      in-flight cached sends. */
  lemma LocksEqualSends(size: nat, es: seq<Event>, f: string)
    requires Feasible(Init(size), es) && Faithful(Init(size), es, f)
    ensures var s := RunAll(Init(size), es); C.Locks(s.cache, f) == |Sends(s, f)|
  {
    RunInv(size, es, f);
  }

  // a file name that occurs nowhere in a state

  function MaxLength(names: seq<string>): nat {
    if names == [] then 0
    else
      var m := MaxLength(names[1..]);
      if |names[0]| > m then |names[0]| else m
  }

  lemma {:induction false} LongerIsNew(names: seq<string>, f: string)
    requires |f| > MaxLength(names)
    ensures f !in names
  {
    if names != [] {
      LongerIsNew(names[1..], f);
    }
  }

  lemma UnusedName(s: State) returns (f: string)
    ensures forall t :: t in s.tasks ==> t.filepath != f
    ensures forall l :: l in s.log ==> l.file != Some(f)
    ensures forall it :: it in s.cache.items ==> it.fileName != f
  {
    var paths := seq(|s.tasks|, i requires 0 <= i < |s.tasks| => s.tasks[i].filepath);
    var files := seq(|s.log|, i requires 0 <= i < |s.log| => if s.log[i].file.Some? then s.log[i].file.value else "");
    var names := seq(|s.cache.items|, i requires 0 <= i < |s.cache.items| => s.cache.items[i].fileName);
    var all := paths + files + names;
    f := seq(MaxLength(all) + 1, _ => 'x');
    LongerIsNew(all, f);
    forall t | t in s.tasks ensures t.filepath != f {
      var i :| 0 <= i < |s.tasks| && s.tasks[i] == t;
      assert all[i] == t.filepath;
    }
    forall l | l in s.log ensures l.file != Some(f) {
      var i :| 0 <= i < |s.log| && s.log[i] == l;
      assert all[|paths| + i] == files[i];
    }
    forall it | it in s.cache.items ensures it.fileName != f {
      var i :| 0 <= i < |s.cache.items| && s.cache.items[i] == it;
      assert all[|paths| + |files| + i] == names[i];
    }
  }

  /** Memory, cache and operations stay in order in every run, even when locks are stolen. */
  lemma BaseStep(s: State, e: Event)
    requires Base(s) && MayHappen(s, e)
    ensures Base(Step(s, e))
  {
    var f := UnusedName(s);
    forall id
      ensures id !in Sends(s, f)
    {
      if id in s.ops && id < |s.tasks| {
        assert s.tasks[id] in s.tasks;
      }
    }
    assert Sends(s, f) == {};
    assert Inv(s, f, 0);
    assert !Steals(s, e, f) by {
      if e.Written? {
        assert s.tasks[e.id] in s.tasks;
      }
    }
    StepInv(s, e, f);
  }

  lemma SubsetCount(a: set<nat>, b: set<nat>)
    requires a <= b
    ensures |a| <= |b|
  {
    if a != b {
      assert b == a + (b - a);
    }
  }

  /** Cached sends that an event is not about stay in flight. */
  lemma SendsStay(s: State, e: Event, f: string, id: nat)
    requires Base(s) && MayHappen(s, e) && id in Sends(s, f) && !About(e, id)
    ensures id in Sends(Step(s, e), f)
  {
    Untouched(s, e, id);
  }

  /** A send takes one lock, which it keeps only if a cached send of that file is in flight then. */
  lemma SendLocks(s: State, e: Event)
    requires Base(s) && MayHappen(s, e) && e.Send?
    ensures var (c, hit) := GetAndLock(s.cache, e.path);
            || Step(s, e).cache == (if hit.Some? then Unlock(c, e.path) else c)
            || (Step(s, e).cache == c && |s.tasks| in Sends(Step(s, e), e.path))
  {
  }

  lemma SendBound(s: State, e: Event, f: string)
    requires Base(s) && MayHappen(s, e) && e.Send?
    ensures C.Locks(Step(s, e).cache, f) <= C.Locks(s.cache, f) + One(|s.tasks| in Sends(Step(s, e), f))
  {
    var (c, hit) := GetAndLock(s.cache, e.path);
    SendLocks(s, e);
    C.LocksStep(s.cache, C.Lock(e.path), f);
    C.LocksStep(c, C.Release(e.path), f);
    hide Step, Unlock, GetAndLock, C.Locks;
  }

  lemma FinishBound(s: State, id: nat, wd: int, f: string)
    requires WellFormed(s.cache) && id < |s.tasks|
    ensures C.Locks(FinishSend(s, id, wd).cache, f) <= C.Locks(s.cache, f)
    ensures s.tasks[id].additional == 0 && s.tasks[id].filepath == f ==>
              C.Locks(FinishSend(s, id, wd).cache, f) == if C.Locks(s.cache, f) == 0 then 0 else C.Locks(s.cache, f) - 1
  {
    var t := s.tasks[id];
    C.LocksStep(s.cache, C.Release(t.filepath), f);
    C.LocksStep(Unlock(s.cache, t.filepath), C.Add(t.filepath, t.additional, t.buffLength, wd), f);
    hide C.Locks, Unlock, AddOrUpdate;
  }

  lemma WrittenBound(s: State, e: Event, f: string)
    requires Base(s) && MayHappen(s, e) && e.Written?
    ensures C.Locks(Step(s, e).cache, f) <= C.Locks(s.cache, f)
    ensures e.id in Sends(s, f) && e.id !in Sends(Step(s, e), f) ==>
              C.Locks(Step(s, e).cache, f) == if C.Locks(s.cache, f) == 0 then 0 else C.Locks(s.cache, f) - 1
  {
    hide MemoryOk, FinishSend, C.Locks, Gather, Addrs, Size, Rebuilt;
    assert OpOk(s, e.id);
    BaseCache(s);
    var l := s.log[e.id];
    match e.outcome
    case Interrupted =>
    case Error =>
      FinishBound(s.(log := s.log[e.id := l.(status := Failed)]), e.id, e.wd, f);
    case Moved(k) =>
      var l2 := l.(sent := l.sent + Gather(s.mem, Addrs(s.ops[e.id].iovs)[..k]), status := Done);
      FinishBound(s.(log := s.log[e.id := l2]), e.id, e.wd, f);
  }

  /** The task whose send an event can start or end. */
  function Concerned(s: State, e: Event): nat {
    match e
    case ReadDone(id, _, _) => id
    case Written(id, _, _, _) => id
    case _ => |s.tasks|
  }

  lemma EventBound(s: State, e: Event, f: string)
    requires Base(s) && MayHappen(s, e)
    ensures var x, locks := Concerned(s, e), C.Locks(Step(s, e).cache, f);
            locks == 0 || locks + One(x in Sends(s, f)) <= C.Locks(s.cache, f) + One(x in Sends(Step(s, e), f))
  {
    hide MemoryOk, C.Locks, Step;
    BaseCache(s);
    InotifyStep(s, e);
    var x := Concerned(s, e);
    match e
    case Send(_, _, _, _, _) => SendBound(s, e, f); assert x !in Sends(s, f);
    case SendVecs(_, _) => assert x !in Sends(s, f);
    case ReadDone(_, _, _) => assert OpOk(s, x) && x !in Sends(s, f);
    case Written(_, _, _, _) => WrittenBound(s, e, f); WrittenJoins(s, e, f);
    case Inotify(wd) => C.LocksStep(s.cache, C.Event(wd), f); assert x !in Sends(s, f);
  }

  lemma InotifyStep(s: State, e: Event)
    requires MayHappen(s, e)
    ensures e.Inotify? ==> Step(s, e) == WithCache(s, ProcessEvent(s.cache, e.wd))
    ensures e.SendVecs? ==> Step(s, e).cache == s.cache
    ensures e.ReadDone? ==> Step(s, e).cache == s.cache
  {
  }

  /** A write completion does not turn another task's send into a send of `f`. */
  lemma WrittenJoins(s: State, e: Event, f: string)
    requires Base(s) && MayHappen(s, e) && e.Written?
    ensures e.id in Sends(Step(s, e), f) ==> e.id in Sends(s, f)
  {
    assert OpOk(s, e.id);
  }

  lemma CountBound(a: set<nat>, b: set<nat>, x: nat, was: nat, now: nat)
    requires a - {x} <= b - {x} && was <= |a|
    requires now == 0 || now + One(x in a) <= was + One(x in b)
    ensures now <= |b|
  {
    CountWithout(a, x);
    CountWithout(b, x);
    SubsetCount(a - {x}, b - {x});
  }

  lemma BoundStep(s: State, e: Event, f: string)
    requires Base(s) && MayHappen(s, e) && C.Locks(s.cache, f) <= |Sends(s, f)|
    ensures C.Locks(Step(s, e).cache, f) <= |Sends(Step(s, e), f)|
  {
    hide Step, Sends, C.Locks, MayHappen, Base;
    var a, b, x := Sends(s, f), Sends(Step(s, e), f), Concerned(s, e);
    forall id | id in a && id != x
      ensures id in b
    {
      SendsStay(s, e, f, id);
    }
    EventBound(s, e, f);
    CountBound(a, b, x, C.Locks(s.cache, f), C.Locks(Step(s, e).cache, f));
  }

  /** In every run, stolen locks or not, a file never has more locks than in-flight cached sends:
      every end of a cached send gives its lock back. */
  lemma {:induction false} LocksBounded(size: nat, es: seq<Event>, f: string)
    requires Feasible(Init(size), es)
    ensures var s := RunAll(Init(size), es); Base(s) && C.Locks(s.cache, f) <= |Sends(s, f)|
  {
    if es == [] {
      InitInv(size, f);
    } else {
      var s := RunAll(Init(size), es[..|es| - 1]);
      LocksBounded(size, es[..|es| - 1], f);
      BaseStep(s, es[|es| - 1]);
      BoundStep(s, es[|es| - 1], f);
    }
  }

  /** One event keeps locks and cached sends in balance unless it steals a lock, and only then. */
  lemma BalanceIff(s: State, e: Event, f: string)
    requires Inv(s, f, 0) && MayHappen(s, e)
    ensures C.Locks(Step(s, e).cache, f) == |Sends(Step(s, e), f)| <==> !Steals(s, e, f)
  {
    if !Steals(s, e, f) {
      StepInv(s, e, f);
    } else {
      var t := s.tasks[e.id];
      StealsCache(s, e, f);
      assert e.id !in Sends(s, f);
      hide Step, Steals, Base, Unlock, AddOrUpdate;
      forall id | id in Sends(s, f)
        ensures id in Sends(Step(s, e), f)
      {
        SendsStay(s, e, f, id);
      }
      SubsetCount(Sends(s, f), Sends(Step(s, e), f));
      BaseCache(s);
      C.LocksStep(s.cache, C.Release(f), f);
      C.LocksStep(Unlock(s.cache, f), C.Add(f, t.additional, t.buffLength, e.wd), f);
    }
  }

  // ---------------------------------------------------------------- one task's view of a run

  /** The completions of task `id` among the events, in order. */
  function Own(es: seq<Event>, id: nat): seq<Completion> {
    if es == [] then []
    else
      var e := es[|es| - 1];
      Own(es[..|es| - 1], id) + if e.Written? && e.id == id then [e.outcome] else []
  }

  function TransferOf(s: State, id: nat): Transfer
    requires id < |s.tasks|
  {
    Transfer(Orig(s.tasks[id]), s.tasks[id].iovs, s.tasks[id].progress, Active)
  }

  /** The server shows for task `id` what the transfer `t` says. */
  ghost predicate Shows(s: State, id: nat, t: Transfer) {
    && Base(s) && id < |s.tasks| && s.log[id].status == t.status
    && (t.status.Active? <==> id in s.ops)
    && (t.status.Active? ==> s.ops[id].Writev? && TransferOf(s, id) == t && !UsingRanges(s.tasks[id]))
  }

  lemma ShowsOwn(s: State, e: Event, t: Transfer)
    requires e.Written? && Shows(s, e.id, t) && MayHappen(s, e)
    ensures Allowed(t, e.outcome) && Shows(Step(s, e), e.id, Complete(t, e.outcome))
  {
    hide Base, Rebuilt, Gather, Addrs, Step, Size, MayHappen;
    BaseStep(s, e);
    OwnOp(s, e);
    match e.outcome
    case Interrupted => NothingMoved(s, e);
    case Error => WriteEnds(s, e);
    case Moved(k) =>
      if s.tasks[e.id].progress + k < Size(Orig(s.tasks[e.id])) {
        WriteGoesOn(s, e);
      } else {
        WriteEnds(s, e);
      }
  }

  lemma OwnOp(s: State, e: Event)
    requires Base(s) && MayHappen(s, e) && e.Written?
    ensures Table(s) && s.freedIdxs == {} && e.id < |s.tasks| && e.id in s.ops && s.ops[e.id].Writev?
    ensures s.ops[e.id].iovs == s.tasks[e.id].iovs
    ensures e.outcome.Moved? ==> e.outcome.k <= Size(s.ops[e.id].iovs)
  {
    assert OpOk(s, e.id);
  }

  lemma NothingMoved(s: State, e: Event)
    requires MayHappen(s, e) && e.Written? && e.outcome.Interrupted?
    ensures Step(s, e) == s
  {
  }

  /** The end of a write that is not followed by another range. */
  lemma WriteEnds(s: State, e: Event)
    requires Base(s) && MayHappen(s, e) && e.Written? && !UsingRanges(s.tasks[e.id])
    requires e.outcome.Error? || (e.outcome.Moved? && s.tasks[e.id].progress + e.outcome.k >= Size(Orig(s.tasks[e.id])))
    ensures var s2, l := Step(s, e), s.log[e.id];
            && e.id !in s2.ops && e.id < |s2.tasks| && |s2.log| == |s.log|
            && s2.log[e.id] == if e.outcome.Error? then l.(status := Failed)
                               else l.(sent := l.sent + Gather(s.mem, Addrs(s.ops[e.id].iovs)[..e.outcome.k]), status := Done)
  {
    OwnOp(s, e);
    FinishLeaves(s.(log := s.log[e.id := s.log[e.id].(status := Failed)]), e.id, e.wd);
    if e.outcome.Moved? {
      var sent := s.log[e.id].sent + Gather(s.mem, Addrs(s.ops[e.id].iovs)[..e.outcome.k]);
      FinishLeaves(s.(log := s.log[e.id := s.log[e.id].(sent := sent, status := Done)]), e.id, e.wd);
    }
    hide Base, Gather, Addrs, Size, Rebuilt, FinishSend;
  }

  lemma FinishLeaves(s: State, id: nat, wd: int)
    requires id < |s.tasks|
    ensures var s2 := FinishSend(s, id, wd); |s2.tasks| == |s.tasks| && s2.log == s.log && id !in s2.ops
  {
    hide Unlock, AddOrUpdate;
  }

  /** A partial completion of a write. */
  lemma WriteGoesOn(s: State, e: Event)
    requires Base(s) && MayHappen(s, e) && e.Written? && e.outcome.Moved?
    requires s.tasks[e.id].progress + e.outcome.k < Size(Orig(s.tasks[e.id]))
    ensures var s2, t, l, k := Step(s, e), s.tasks[e.id], s.log[e.id], e.outcome.k;
            && s2.mem == s.mem && |s2.log| == |s.log| && |s2.tasks| == |s.tasks|
            && e.id in s2.ops && s2.ops[e.id].Writev?
            && s2.tasks[e.id] == t.(iovs := Rebuilt(Orig(t), t.progress + k), progress := t.progress + k)
            && s2.log[e.id] == l.(sent := l.sent + Gather(s.mem, Addrs(s.ops[e.id].iovs)[..k]))
  {
    OwnOp(s, e);
    hide Base, Gather, Addrs, Rebuilt, Size, ContinueSend;
  }

  lemma ShowsOther(s: State, e: Event, id: nat, t: Transfer)
    requires Shows(s, id, t) && MayHappen(s, e) && !(e.Written? && e.id == id)
    ensures Shows(Step(s, e), id, t)
  {
    BaseStep(s, e);
    assert id in s.ops ==> OpOk(s, id);
    Untouched(s, e, id);
  }

  /** The last event of a run. */
  lemma RunLast(s: State, es: seq<Event>)
    requires Feasible(s, es) && es != []
    ensures var before, e := es[..|es| - 1], es[|es| - 1];
            Feasible(s, before) && MayHappen(RunAll(s, before), e) && RunAll(s, es) == Step(RunAll(s, before), e)
  {
    hide Step, MayHappen;
  }

  lemma RunAppend(t: Transfer, cs: seq<Completion>, c: Completion)
    requires Schedule(t, cs) && Allowed(Run(t, cs), c)
    ensures Schedule(t, cs + [c]) && Run(t, cs + [c]) == Complete(Run(t, cs), c)
  {
    assert (cs + [c])[..|cs|] == cs;
  }

  /** Non-interference: in any interleaving of events over any number of tasks, a vectored write
      evolves exactly as it does when only its own completions happen. */
  lemma {:induction false} OwnCompletionsDecide(s: State, es: seq<Event>, id: nat)
    requires Feasible(s, es) && id < |s.tasks| && Shows(s, id, TransferOf(s, id))
    ensures Schedule(TransferOf(s, id), Own(es, id))
    ensures Shows(RunAll(s, es), id, Run(TransferOf(s, id), Own(es, id)))
  {
    if es != [] {
      var before, e, t := es[..|es| - 1], es[|es| - 1], TransferOf(s, id);
      OwnCompletionsDecide(s, before, id);
      hide Shows, Step, MayHappen;
      if e.Written? && e.id == id {
        ShowsOwn(RunAll(s, before), e, Run(t, Own(before, id)));
        RunAppend(t, Own(before, id), e.outcome);
      } else {
        ShowsOther(RunAll(s, before), e, id, Run(t, Own(before, id)));
        assert Own(es, id) == Own(before, id);
      }
    }
  }

  /** An uncached send starts writing with the progress its reads left behind, so it delivers the
      whole response on every schedule if and only if the file arrived in one completion. */
  lemma UncachedDeliversIff(s: State, id: nat, data: string, header: string)
    requires Base(s) && MayHappen(s, ReadDone(id, Got(data), header))
    requires s.tasks[id].progress + |data| == s.tasks[id].buffLength && s.tasks[id].writeRanges == []
    ensures var s2 := FileRead(s, id, Got(data), header);
            var orig := Orig(s2.tasks[id]);
            && TransferOf(s2, id) == Start(orig, s.tasks[id].progress)
            && ((forall cs :: Schedule(TransferOf(s2, id), cs) && Run(TransferOf(s2, id), cs).status.Done? ==>
                                Transferred(TransferOf(s2, id), cs) == Addrs(orig))
                <==> s.tasks[id].progress == 0)
  {
    assert OpOk(s, id);
    var s2 := FileRead(s, id, Got(data), header);
    var orig := Orig(s2.tasks[id]);
    assert orig[1..][0] == orig[1] && orig[1].len == s.tasks[id].buffLength;
    assert Size(orig) >= orig[1].len;
    hide FileRead;
    DeliversIffFromZero(orig, s.tasks[id].progress);
  }

  // ---------------------------------------------------------------- why the side condition is needed

  /** When the only lock on a file is stolen, the buffer that its in-flight send still reads is freed. */
  lemma StolenLockFreesBuffer(s: State, e: Event, f: string, id: nat)
    requires Inv(s, f, 0) && MayHappen(s, e) && Steals(s, e, f)
    requires Sends(s, f) == {id} && s.log[id].file == Some(f)
    ensures var s2 := Step(s, e);
            && id in s2.ops && s2.tasks[id] == s.tasks[id]
            && Orig(s2.tasks[id])[1].base.block !in s2.mem
  {
    assert id in Sends(s, f);
    SendIsBacked(s, id, f);
    assert |Sends(s, f)| == 1;
    StealsCache(s, e, f);
    OwnOp(s, e);
    var t, it := s.tasks[e.id], s.cache.items[IndexOf(s.cache.items, f)];
    assert id != e.id;
    Untouched(s, e, id);
    BufferReplaced(s.cache, f, t.additional, t.buffLength, e.wd);
    BaseStep(s, e);
    FreedIsGone(Step(s, e), it.buff);
    hide Step, Base, Steals, AddOrUpdate, Unlock;
  }

  lemma FreedIsGone(s: State, b: nat)
    requires Base(s) && b in s.cache.freed
    ensures b !in s.mem
  {
  }

  /** A send of the whole cached file sends the buffer of the entry. */
  lemma SendIsBacked(s: State, id: nat, f: string)
    requires Inv(s, f, 0) && id in Sends(s, f) && id < |s.log| && s.log[id].file == Some(f)
    ensures var i := IndexOf(s.cache.items, f);
            && id in s.ops && id < |s.tasks| && s.tasks[id].additional == 0 && C.Locks(s.cache, f) == |Sends(s, f)|
            && |Orig(s.tasks[id])| == 2 && i < |s.cache.items| && Orig(s.tasks[id])[1].base.block == s.cache.items[i].buff
  {
    assert Backed(s, id, f);
    hide Base;
  }

  /** The entry that loses its only lock gets the new buffer, and the old one is freed. */
  lemma BufferReplaced(c: Cache, f: string, block: nat, len: nat, wd: int)
    requires WellFormed(c) && C.Locks(c, f) == 1
    ensures var i := IndexOf(c.items, f);
            i < |c.items| && c.items[i].buff in AddOrUpdate(Unlock(c, f), f, block, len, wd).0.freed
  {
    UnlockFinds(c, f);
    hide Unlock, IndexOf, WellFormed;
  }

  lemma UnlockFinds(c: Cache, f: string)
    requires WellFormed(c) && C.Locks(c, f) == 1
    ensures var i, d := IndexOf(c.items, f), Unlock(c, f);
            i < |c.items| && IndexOf(d.items, f) == i && d.items[i] == c.items[i].(numLocks := 0)
            && |d.items| == |c.items|
  {
    var i, d := IndexOf(c.items, f), Unlock(c, f);
    C.FoundByName(c, IndexOfLocked(c.items, f));
    C.FoundByName(d, i);
  }

  /** Every in-flight send of the whole cached file `f` still reads a live buffer. */
  ghost predicate BuffersLive(s: State, f: string) {
    forall id :: id in Sends(s, f) && id < |s.log| && s.log[id].file == Some(f) && |Orig(s.tasks[id])| == 2 ==>
      Orig(s.tasks[id])[1].base.block in s.mem
  }

  /** The event steals the only lock on `f`, and the send that took it sends the whole file. */
  ghost predicate StealsOnlyLock(s: State, e: Event, f: string)
    requires MayHappen(s, e)
  {
    Steals(s, e, f) && exists id :: Sends(s, f) == {id} && id < |s.log| && s.log[id].file == Some(f)
  }

  lemma BackedLive(s: State, id: nat, f: string)
    requires Base(s) && id in Sends(s, f) && id < |s.log| && Backed(s, id, f) && s.log[id].file == Some(f)
    ensures |Orig(s.tasks[id])| == 2 && Orig(s.tasks[id])[1].base.block in s.mem
  {
    var it := s.cache.items[IndexOf(s.cache.items, f)];
    assert it in s.cache.items && CachedItem(s.mem, it);
  }

  /** A stolen lock that was not the only one leaves the entry locked, with its buffer. */
  lemma StolenLockKeepsBuffer(s: State, e: Event, f: string)
    requires Inv(s, f, 0) && MayHappen(s, e) && Steals(s, e, f) && C.Locks(s.cache, f) > 1
    ensures var i, d := IndexOf(s.cache.items, f), Step(s, e).cache.items;
            i < |s.cache.items| && IndexOf(d, f) < |d| && d[IndexOf(d, f)].buff == s.cache.items[i].buff
  {
    var t, c := s.tasks[e.id], Unlock(s.cache, f);
    assert OpOk(s, e.id);
    C.LocksStep(s.cache, C.Release(f), f);
    KeepsBuffer(s.cache, C.Release(f), f);
    KeepsBuffer(c, C.Add(f, t.additional, t.buffLength, e.wd), f);
    StealsCache(s, e, f);
    hide Step, Inv, Unlock, AddOrUpdate, Steals;
  }

  lemma StealsCache(s: State, e: Event, f: string)
    requires Base(s) && MayHappen(s, e) && Steals(s, e, f)
    ensures var t := s.tasks[e.id];
            Step(s, e).cache == AddOrUpdate(Unlock(s.cache, f), f, t.additional, t.buffLength, e.wd).0
    ensures |Step(s, e).tasks| == |s.tasks| && e.id !in Step(s, e).ops
  {
    assert OpOk(s, e.id);
    assert var r := AddOrUpdate(Unlock(s.cache, f), f, s.tasks[e.id].additional, s.tasks[e.id].buffLength, e.wd);
           r.1 || r.0 == Unlock(s.cache, f);
    hide AddOrUpdate, Unlock, Base, Gather, Addrs, Size;
  }

  /** What stealing a lock leaves alone. */
  lemma StolenSendStays(s: State, e: Event, f: string, id: nat)
    requires Inv(s, f, 0) && MayHappen(s, e) && Steals(s, e, f) && (id in Sends(s, f) || id in Sends(Step(s, e), f))
    ensures id in Sends(s, f) && id in Sends(Step(s, e), f) && id < |s.log| && SameAt(s, Step(s, e), id)
    ensures s.log[id].file == Some(f) ==>
              var i := IndexOf(s.cache.items, f);
              |Orig(s.tasks[id])| == 2 && i < |s.cache.items| && Orig(s.tasks[id])[1].base.block == s.cache.items[i].buff
  {
    assert OpOk(s, e.id) && (id in s.ops ==> OpOk(s, id));
    StealsCache(s, e, f);
    Untouched(s, e, id);
    hide Step, Steals, MayHappen, Base;
    assert id in Sends(s, f) && Backed(s, id, f);
  }

  lemma TwoSends(sends: set<nat>, id: nat)
    requires id in sends && sends != {id}
    ensures |sends| > 1
  {
    var other :| other in sends && other != id;
    SubsetCount({id, other}, sends);
  }

  lemma StolenLive(s: State, e: Event, f: string)
    requires Inv(s, f, 0) && MayHappen(s, e) && Steals(s, e, f) && !StealsOnlyLock(s, e, f)
    ensures BuffersLive(Step(s, e), f)
  {
    hide Step, Steals, MayHappen, WellFormed;
    var s2 := Step(s, e);
    BaseStep(s, e);
    StealsCache(s, e, f);
    forall id | id in Sends(s2, f) && id < |s2.log| && s2.log[id].file == Some(f)
      ensures Orig(s2.tasks[id]) == Orig(s.tasks[id]) && |Orig(s.tasks[id])| == 2 && Orig(s.tasks[id])[1].base.block in s2.mem
    {
      StolenSendStays(s, e, f, id);
      TwoSends(Sends(s, f), id);
      StolenLockKeepsBuffer(s, e, f);
      var it := s2.cache.items[IndexOf(s2.cache.items, f)];
      assert it in s2.cache.items && CachedItem(s2.mem, it);
    }
  }

  /** The exact condition for one event: the whole-file sends of a cached file keep their buffer if and only if
      the event does not steal the only lock from one. */
  lemma BuffersLiveIff(s: State, e: Event, f: string)
    requires Inv(s, f, 0) && MayHappen(s, e)
    ensures BuffersLive(Step(s, e), f) <==> !StealsOnlyLock(s, e, f)
  {
    var s2 := Step(s, e);
    BaseStep(s, e);
    if !Steals(s, e, f) {
      StepInv(s, e, f);
      AllLive(s2, f);
    } else if StealsOnlyLock(s, e, f) {
      var id :| Sends(s, f) == {id} && id < |s.log| && s.log[id].file == Some(f);
      StolenLockFreesBuffer(s, e, f, id);
      StolenSendStays(s, e, f, id);
    } else {
      StolenLive(s, e, f);
    }
  }

  lemma AllLive(s: State, f: string)
    requires Inv(s, f, 0)
    ensures BuffersLive(s, f)
  {
    forall id | id in Sends(s, f) && id < |s.log| && s.log[id].file == Some(f)
      ensures |Orig(s.tasks[id])| == 2 && Orig(s.tasks[id])[1].base.block in s.mem
    {
      BackedLive(s, id, f);
    }
  }
}
