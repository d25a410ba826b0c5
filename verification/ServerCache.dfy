/** The file cache inside the server: what its events do to it is a run of cache operations, so that what is proved
    of those is true of the server. */
module ServerCache {
  import opened Options
  import opened CacheSpec
  import C = CacheRuns
  import opened Vectored
  import opened Ranges
  import opened ServerSpec
  import opened ServerInvariant
  import opened ServerTheorems

  /** The operations of the cache that an event leads to. */
  function CacheOps(s: State, e: Event): seq<C.Op>
    requires MayHappen(s, e)
  {
    match e
    case Send(_, path, rangeStr, _, _) =>
      var hit := GetAndLock(s.cache, path).1;
      [C.Lock(path)] + if hit.Some? && !ParseRanges(rangeStr, hit.value.buffLength).1 then [C.Release(path)] else []
    case Written(id, _, _, wd) =>
      var t := s.tasks[id];
      if Finishes(s, e) then
        [C.Release(t.filepath)] + if t.additional != 0 then [C.Add(t.filepath, t.additional, t.buffLength, wd)] else []
      else []
    case Inotify(wd) => [C.Event(wd)]
    case _ => []
  }

  lemma RunOfTwo(c: Cache, a: C.Op, b: C.Op)
    ensures C.Run(c, []) == c && C.Run(c, [a]) == C.Step(c, a) && C.Run(c, [a] + []) == C.Step(c, a)
    ensures C.Run(c, [a] + [b]) == C.Step(C.Step(c, a), b)
  {
    assert [a] + [] == [a] && [a][..0] == [] && ([a] + [b])[..1] == [a];
    hide C.Step;
  }

  lemma LockedCache(s: State, client: nat, path: string, rangeStr: string, header: string, it: Item)
    requires Table(s) && (rangeStr == "" || rangeStr == "none" || |rangeStr| >= 6)
    ensures SendLocked(s, client, path, rangeStr, header, it).cache ==
            if ParseRanges(rangeStr, it.buffLength).1 then s.cache else Unlock(s.cache, path)
  {
    hide ParseRanges, Unlock, Gather, Addrs, Body;
  }

  lemma UncachedCache(s: State, client: nat, path: string, rangeStr: string, header: string, size: nat)
    requires Table(s) && (rangeStr == "" || rangeStr == "none" || |rangeStr| >= 6)
    ensures SendUncached(s, client, path, rangeStr, header, size).cache == s.cache
  {
    hide ParseRanges;
  }

  lemma SendFollows(s: State, e: Event)
    requires Base(s) && MayHappen(s, e) && e.Send?
    ensures Step(s, e).cache == C.Run(s.cache, CacheOps(s, e))
  {
    hide C.Run, GetAndLock, Unlock, ParseRanges, Base, SendLocked, SendUncached;
    RunOfTwo(s.cache, C.Lock(e.path), C.Release(e.path));
    InTable(s);
    var (c, hit) := GetAndLock(s.cache, e.path);
    var s1 := WithCache(s, c);
    if hit.Some? {
      LockedCache(s1, e.client, e.path, e.rangeStr, e.header, hit.value);
    } else if e.size.Some? {
      UncachedCache(s1, e.client, e.path, e.rangeStr, e.header, e.size.value);
    }
  }

  lemma InTable(s: State)
    requires Base(s)
    ensures Table(s) && s.freedIdxs == {}
  {
  }

  lemma FinishFollows(s: State, id: nat, wd: int)
    requires id < |s.tasks|
    ensures var t := s.tasks[id];
            FinishSend(s, id, wd).cache ==
            C.Run(s.cache, [C.Release(t.filepath)] + if t.additional != 0 then [C.Add(t.filepath, t.additional, t.buffLength, wd)] else [])
  {
    var t := s.tasks[id];
    RunOfTwo(s.cache, C.Release(t.filepath), C.Add(t.filepath, t.additional, t.buffLength, wd));
    RefusedStays(Unlock(s.cache, t.filepath), t.filepath, t.additional, t.buffLength, wd);
    hide C.Run, Unlock, AddOrUpdate;
  }

  lemma RefusedStays(c: Cache, path: string, block: nat, len: nat, wd: int)
    ensures var r := AddOrUpdate(c, path, block, len, wd); !r.1 ==> r.0 == c
  {
  }

  lemma WrittenFollows(s: State, e: Event)
    requires Base(s) && MayHappen(s, e) && e.Written?
    ensures Step(s, e).cache == C.Run(s.cache, CacheOps(s, e))
  {
    WrittenCases(s, e);
    hide Base, Step, Gather, Addrs, Size, Rebuilt, FinishSend, NextRange, C.Run;
    var id, t, l := e.id, s.tasks[e.id], s.log[e.id];
    NoOps(s.cache);
    match e.outcome
    case Interrupted =>
    case Error => FinishFollows(s.(log := s.log[id := l.(status := Failed)]), id, e.wd);
    case Moved(k) =>
      if t.progress + k < Size(Orig(t)) {
        PartDone(s, id, k, e.header, e.wd);
      } else {
        var s1 := s.(log := s.log[id := l.(sent := l.sent + Gather(s.mem, Addrs(s.ops[id].iovs)[..k]), status := Done)]);
        FinishFollows(s1, id, e.wd);
        RangeKeepsCache(s1, id, s1.ops[id].client, e.header);
      }
  }

  lemma NoOps(c: Cache)
    ensures C.Run(c, []) == c
  {
  }

  lemma RangeKeepsCache(s: State, id: nat, client: nat, header: string)
    requires id < |s.tasks|
    ensures NextRange(s, id, client, header).cache == s.cache
  {
  }

  /** What an event does to the cache is what its operations do. */
  lemma StepFollows(s: State, e: Event)
    requires Base(s) && MayHappen(s, e)
    ensures Step(s, e).cache == C.Run(s.cache, CacheOps(s, e))
  {
    hide SendFile, FileRead, WritevDone, Base;
    NoOps(s.cache);
    match e
    case Send(_, _, _, _, _) => SendFollows(s, e);
    case SendVecs(_, _) =>
    case ReadDone(_, _, _) => InotifyStep(s, e);
    case Written(_, _, _, _) => WrittenFollows(s, e);
    case Inotify(wd) => RunOfTwo(s.cache, C.Event(wd), C.Event(wd));
  }

  /** The operations of a run, in order. */
  function AllCacheOps(s: State, es: seq<Event>): seq<C.Op>
    requires Feasible(s, es)
  {
    if es == [] then []
    else AllCacheOps(s, es[..|es| - 1]) + CacheOps(RunAll(s, es[..|es| - 1]), es[|es| - 1])
  }

  lemma {:induction false} RunsJoin(c: Cache, a: seq<C.Op>, b: seq<C.Op>)
    ensures C.Run(c, a + b) == C.Run(C.Run(c, a), b)
  {
    hide C.Step;
    if b == [] {
      assert a + b == a;
    } else {
      RunsJoin(c, a, b[..|b| - 1]);
      assert (a + b)[..|a + b| - 1] == a + b[..|b| - 1];
    }
  }

  /** In every run of the server its cache is what a run of cache operations makes of it. */
  lemma {:induction false} RunFollows(s: State, es: seq<Event>)
    requires Base(s) && Feasible(s, es)
    ensures Base(RunAll(s, es)) && RunAll(s, es).cache == C.Run(s.cache, AllCacheOps(s, es))
  {
    hide Step, MayHappen, CacheOps, C.Run, Base;
    if es == [] {
      NoOps(s.cache);
    } else {
      var before, e := es[..|es| - 1], es[|es| - 1];
      RunFollows(s, before);
      StepFollows(RunAll(s, before), e);
      BaseStep(RunAll(s, before), e);
      RunsJoin(s.cache, AllCacheOps(s, before), CacheOps(RunAll(s, before), e));
    }
  }

  /** So in every reachable state of the server the entries of its cache stand in the order in which they were last
      inserted or locked, and the blocks it took over are exactly those it has freed and those it lists. */
  lemma ServerKeepsOrder(size: nat, es: seq<Event>)
    requires Feasible(Init(size), es)
    ensures var c, ops := RunAll(Init(size), es).cache, AllCacheOps(Init(size), es);
            && C.ByRecency(C.Init(size), ops, C.Map(c.items, C.NameOf))
            && C.Owned(c) == C.Taken(C.Init(size), ops, true)
  {
    InitInv(size, "");
    RunFollows(Init(size), es);
    C.RecencyOrder(size, AllCacheOps(Init(size), es));
    C.Conservation(size, AllCacheOps(Init(size), es));
    hide RunAll, Feasible, AllCacheOps, C.Run;
  }

  // ---------------------------------------------------------------- files that change

  /** The event ends a send of `path` that was read from disk, and its buffer is offered with watch `wd`. */
  ghost predicate Offers(s: State, e: Event, path: string, wd: int) {
    && MayHappen(s, e) && e.Written? && Finishes(s, e) && e.wd == wd
    && s.tasks[e.id].additional != 0 && s.tasks[e.id].filepath == path
  }

  /** One of the events of the run does. */
  ghost predicate Offered(s: State, es: seq<Event>, path: string, wd: int) {
    exists k :: 0 <= k < |es| && Feasible(s, es[..k]) && Offers(RunAll(s, es[..k]), es[k], path, wd)
  }

  lemma OfferedBefore(s: State, es: seq<Event>, path: string, wd: int)
    requires es != [] && Offered(s, es[..|es| - 1], path, wd)
    ensures Offered(s, es, path, wd)
  {
    var before := es[..|es| - 1];
    var k :| 0 <= k < |before| && Feasible(s, before[..k]) && Offers(RunAll(s, before[..k]), before[k], path, wd);
    assert before[..k] == es[..k] && before[k] == es[k];
  }

  /** Every insertion of the run is the offer of an event. */
  lemma {:induction false} AddsAreOffers(s: State, es: seq<Event>, op: C.Op)
    requires Feasible(s, es) && op in AllCacheOps(s, es) && op.Add?
    ensures Offered(s, es, op.name, op.wd)
    ensures exists k :: 0 <= k < |es| && es[k].Written? && es[k].wd == op.wd
  {
    hide Step, MayHappen, CacheOps, RunAll, Offers;
    var before, e := es[..|es| - 1], es[|es| - 1];
    if op in AllCacheOps(s, before) {
      AddsAreOffers(s, before, op);
      OfferedBefore(s, es, op.name, op.wd);
      var k :| 0 <= k < |before| && before[k].Written? && before[k].wd == op.wd;
      assert es[k] == before[k];
    } else {
      AddIsOffer(RunAll(s, before), e, op);
      assert es[..|es| - 1] == before;
    }
  }

  lemma AddIsOffer(s: State, e: Event, op: C.Op)
    requires MayHappen(s, e) && op in CacheOps(s, e) && op.Add?
    ensures e.Written? && e.wd == op.wd && Offers(s, e, op.name, op.wd)
  {
    hide MayHappen, Finishes, GetAndLock, ParseRanges;
  }

  /** A file that has changed on disk is not served from the cache as it was: behind the event for the watch of its
      entry, in every run in which that watch is not handed out again, a request for it hits the cache only if the
      file was offered to it anew, and no hit has that watch. */
  lemma ChangedFileNotServed(s: State, i: nat, es: seq<Event>, name: string)
    requires Base(s) && C.DistinctWatches(s.cache) && i < |s.cache.items|
    requires MayHappen(s, Inotify(s.cache.items[i].watch)) && Feasible(Step(s, Inotify(s.cache.items[i].watch)), es)
    requires forall k :: 0 <= k < |es| && es[k].Written? ==> es[k].wd != s.cache.items[i].watch
    ensures var wd, s1 := s.cache.items[i].watch, Step(s, Inotify(s.cache.items[i].watch));
            var hit := GetAndLock(RunAll(s1, es).cache, name).1;
            hit.Some? ==> hit.value.watch != wd && (name == s.cache.items[i].fileName ==> Offered(s1, es, name, hit.value.watch))
  {
    var wd := s.cache.items[i].watch;
    var s1 := Step(s, Inotify(wd));
    BaseStep(s, Inotify(wd));
    BaseCache(s);
    InotifyStep(s, Inotify(wd));
    hide Step, Base, MayHappen, RunAll, Feasible, WellFormed, C.DistinctWatches, ProcessEvent, GetAndLock, C.Run;
    RunFollows(s1, es);
    var ops := AllCacheOps(s1, es);
    forall k | 0 <= k < |ops| && ops[k].Add?
      ensures ops[k].wd != wd
    {
      AddsAreOffers(s1, es, ops[k]);
    }
    C.NeverServedAgain(s.cache, i, ops, name);
    var hit := GetAndLock(RunAll(s1, es).cache, name).1;
    if hit.Some? && name == s.cache.items[i].fileName {
      var k :| 0 <= k < |ops| && ops[k].Add? && ops[k].name == name && ops[k].wd == hit.value.watch;
      AddsAreOffers(s1, es, ops[k]);
    }
  }
}
