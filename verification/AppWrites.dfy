/** What an application's own vectored write transmits, whatever else happens meanwhile. */
module AppWrites {
  import opened Options
  import opened Vectored
  import opened ServerSpec
  import opened ServerInvariant
  import opened ServerTheorems

  /** The new task of `http_writev` has the whole array in flight to the client, and shows a transfer from its
      start; nothing else has changed. */
  lemma VecsStart(s: State, client: nat, vecs: seq<IoVec>)
    requires Base(s)
    ensures MayHappen(s, SendVecs(client, vecs))
    ensures var s2, id := Step(s, SendVecs(client, vecs)), |s.tasks|;
            && |s2.tasks| == id + 1 == |s2.log| && s2.tasks[..id] == s.tasks && s2.log[..id] == s.log
            && s2.ops == s.ops[id := Writev(client, vecs)] && s2.mem == s.mem && s2.cache == s.cache
            && s2.tasks[id].opType == HttpWritev && s2.tasks[id].writeRanges == [] && s2.tasks[id].numIovecs == |vecs|
            && s2.log[id] == NO_LOG
            && TransferOf(s2, id) == Start(vecs, 0) && Shows(s2, id, Start(vecs, 0))
  {
    BaseStep(s, SendVecs(client, vecs));
    hide MemoryOk, Base;
    BaseTable(s);
    var s2 := Step(s, SendVecs(client, vecs));
    assert s2.tasks[..|s.tasks|] == s.tasks && s2.log[..|s.tasks|] == s.log;
  }

  lemma BaseTable(s: State)
    requires Base(s)
    ensures Table(s) && s.freedIdxs == {}
  {
  }

  /** The memory the iovecs denote holds `cells` after each of the events. */
  ghost predicate Steady(s: State, es: seq<Event>, vecs: seq<IoVec>, cells: seq<Cell>) {
    forall i :: 0 <= i <= |es| && Feasible(s, es[..i]) ==> Gather(RunAll(s, es[..i]).mem, Addrs(vecs)) == cells
  }

  /** Task `id` writes the application's `vecs`, which denote `cells`, to `client`: a prefix is taken, and all of
      it when the write is done. */
  ghost predicate Writing(s: State, id: nat, client: nat, vecs: seq<IoVec>, cells: seq<Cell>) {
    && Base(s) && id < |s.tasks| && id < |s.log| && s.log[id].sent <= cells
    && match s.log[id].status
       case Active =>
         var t := s.tasks[id];
         && id in s.ops && s.ops[id] == Writev(client, t.iovs) && Orig(t) == vecs
         && t.opType == HttpWritev && t.writeRanges == [] && t.numIovecs == |vecs| == |t.iovs| && t.progress <= |Addrs(vecs)| == |cells|
         && Addrs(t.iovs) == Addrs(vecs)[t.progress..] && s.log[id].sent == cells[..t.progress]
       case Done => id !in s.ops && s.log[id].sent == cells && s.tasks[id].iovs == []
       case Failed => id !in s.ops
  }

  lemma WritingOther(s: State, e: Event, id: nat, client: nat, vecs: seq<IoVec>, cells: seq<Cell>)
    requires Writing(s, id, client, vecs, cells) && MayHappen(s, e) && !About(e, id)
    ensures Writing(Step(s, e), id, client, vecs, cells)
  {
    hide Base, Step, MayHappen;
    BaseStep(s, e);
    BaseTable(s);
    Untouched(s, e, id);
  }

  /** What the kernel takes of the rest of the array is the next part of the cells. */
  lemma TakesNext(mem: map<nat, Block>, vecs: seq<IoVec>, iovs: seq<IoVec>, cells: seq<Cell>, p: nat, k: nat)
    requires Gather(mem, Addrs(vecs)) == cells && p <= |Addrs(vecs)| && Addrs(iovs) == Addrs(vecs)[p..] && k <= Size(iovs)
    ensures p + k <= |cells| && cells[..p] + Gather(mem, Addrs(iovs)[..k]) == cells[..p + k]
    ensures |cells| == Size(vecs)
  {
    hide Gather, Addrs;
    PartOfRest(Addrs(vecs), Addrs(iovs), p, k);
    GatherPart(mem, Addrs(vecs), p, k);
    assert cells[..p] + cells[p..p + k] == cells[..p + k];
  }

  lemma WritingOp(s: State, e: Event, id: nat, client: nat, vecs: seq<IoVec>, cells: seq<Cell>)
    requires Writing(s, id, client, vecs, cells) && MayHappen(s, e) && About(e, id)
    ensures s.log[id].status.Active? && e.Written? && e.id == id && !UsingRanges(s.tasks[id])
    ensures e.outcome.Moved? ==> e.outcome.k <= Size(s.tasks[id].iovs)
    ensures s.ops[id].iovs == s.tasks[id].iovs
  {
  }

  lemma WritingOwn(s: State, e: Event, id: nat, client: nat, vecs: seq<IoVec>, cells: seq<Cell>)
    requires Writing(s, id, client, vecs, cells) && MayHappen(s, e) && About(e, id)
    requires Gather(s.mem, Addrs(vecs)) == cells
    ensures Writing(Step(s, e), id, client, vecs, cells)
  {
    hide Base, MayHappen, Gather, Addrs, Size, Step, Rebuilt;
    BaseStep(s, e);
    WritingOp(s, e, id, client, vecs, cells);
    var t := s.tasks[id];
    match e.outcome
    case Interrupted => NothingMoved(s, e);
    case Error => WriteEnds(s, e);
    case Moved(k) =>
      TakesNext(s.mem, vecs, t.iovs, cells, t.progress, k);
      if t.progress + k < Size(Orig(t)) {
        WriteGoesOn(s, e);
        RebuiltDenotes(vecs, t.progress + k);
        SameClient(s, e);
      } else {
        WriteEnds(s, e);
        CopyGivenBack(s, e);
        assert cells[..t.progress + k] == cells;
      }
  }

  /** At the end of an application's write the copy of its iovecs is given back. */
  lemma CopyGivenBack(s: State, e: Event)
    requires MayHappen(s, e) && e.Written? && e.outcome.Moved? && s.tasks[e.id].opType == HttpWritev
    requires s.tasks[e.id].progress + e.outcome.k >= Size(Orig(s.tasks[e.id]))
    ensures e.id < |Step(s, e).tasks| && Step(s, e).tasks[e.id].iovs == []
  {
    hide Gather, Addrs, Size, Rebuilt, ContinueSend;
  }

  /** What is left of a write goes to the same client. */
  lemma SameClient(s: State, e: Event)
    requires Base(s) && MayHappen(s, e) && e.Written? && e.outcome.Moved?
    requires s.tasks[e.id].progress + e.outcome.k < Size(Orig(s.tasks[e.id]))
    ensures var s2 := Step(s, e);
            e.id in s2.ops && e.id < |s2.tasks| && s2.ops[e.id] == Writev(s.ops[e.id].client, s2.tasks[e.id].iovs)
  {
    OwnOp(s, e);
    PartDone(s, e.id, e.outcome.k, e.header, e.wd);
    hide Base, WritevDone, Rebuilt, Size;
  }

  lemma SteadyBefore(s: State, es: seq<Event>, vecs: seq<IoVec>, cells: seq<Cell>)
    requires es != [] && Feasible(s, es) && Steady(s, es, vecs, cells)
    ensures var before := es[..|es| - 1];
            Feasible(s, before) && Steady(s, before, vecs, cells) && Gather(RunAll(s, before).mem, Addrs(vecs)) == cells
  {
    var before := es[..|es| - 1];
    hide Step, MayHappen, Gather, Addrs;
    forall i | 0 <= i <= |before| && Feasible(s, before[..i])
      ensures Gather(RunAll(s, before[..i]).mem, Addrs(vecs)) == cells
    {
      assert before[..i] == es[..i];
    }
    assert before == before[..|before|];
  }

  /** End to end for an application's write: in every run behind `http_writev`, as long as the memory its iovecs
      denote is left alone, a prefix of what they denote has gone to the client at any time, and all of it, once
      and in order, when the write is done; then the copy of the iovecs is given back. */
  lemma {:induction false} VecsDelivered(s: State, client: nat, vecs: seq<IoVec>, es: seq<Event>, cells: seq<Cell>)
    requires Base(s) && MayHappen(s, SendVecs(client, vecs)) && Feasible(Step(s, SendVecs(client, vecs)), es)
    requires Steady(Step(s, SendVecs(client, vecs)), es, vecs, cells)
    ensures Writing(RunAll(Step(s, SendVecs(client, vecs)), es), |s.tasks|, client, vecs, cells)
  {
    hide *;
    var s1 := Step(s, SendVecs(client, vecs));
    if es == [] {
      WritingStarts(s, client, vecs, cells);
    } else {
      var before, e := es[..|es| - 1], es[|es| - 1];
      RunLast(s1, es);
      SteadyBefore(s1, es, vecs, cells);
      VecsDelivered(s, client, vecs, before, cells);
      if About(e, |s.tasks|) {
        WritingOwn(RunAll(s1, before), e, |s.tasks|, client, vecs, cells);
      } else {
        WritingOther(RunAll(s1, before), e, |s.tasks|, client, vecs, cells);
      }
    }
  }

  lemma WritingStarts(s: State, client: nat, vecs: seq<IoVec>, cells: seq<Cell>)
    requires Base(s) && MayHappen(s, SendVecs(client, vecs)) && Steady(Step(s, SendVecs(client, vecs)), [], vecs, cells)
    ensures Writing(RunAll(Step(s, SendVecs(client, vecs)), []), |s.tasks|, client, vecs, cells)
  {
    VecsStart(s, client, vecs);
    var s1 := Step(s, SendVecs(client, vecs));
    hide Step, MayHappen, Base, Gather, Addrs;
    var none: seq<Event> := [];
    assert none[..0] == none && Feasible(s1, none) && RunAll(s1, none) == s1;
    assert Addrs(vecs)[0..] == Addrs(vecs) && cells[..0] == [];
  }

  /** What the completions of the write add up to: they are a schedule of the transfer of the array, and all of its
      addresses, in order, are transferred when it is done. */
  lemma VecsTransferred(s: State, client: nat, vecs: seq<IoVec>, es: seq<Event>)
    requires Base(s) && MayHappen(s, SendVecs(client, vecs)) && Feasible(Step(s, SendVecs(client, vecs)), es)
    ensures Schedule(Start(vecs, 0), Own(es, |s.tasks|))
    ensures var s2, id, cs := RunAll(Step(s, SendVecs(client, vecs)), es), |s.tasks|, Own(es, |s.tasks|);
            && OnTrack(vecs, Run(Start(vecs, 0), cs), Transferred(Start(vecs, 0), cs))
            && id < |s2.log| && s2.log[id].status == Run(Start(vecs, 0), cs).status
            && (s2.log[id].status.Done? ==> Transferred(Start(vecs, 0), cs) == Addrs(vecs))
  {
    hide *;
    VecsStart(s, client, vecs);
    var s1, id := Step(s, SendVecs(client, vecs)), |s.tasks|;
    OwnCompletionsDecide(s1, es, id);
    WholeRun(vecs, Own(es, id));
    Shown(RunAll(s1, es), id, Run(Start(vecs, 0), Own(es, id)));
    AllTransferred(vecs, Run(Start(vecs, 0), Own(es, id)), Transferred(Start(vecs, 0), Own(es, id)));
  }

  lemma Shown(s: State, id: nat, t: Transfer)
    requires Shows(s, id, t)
    ensures id < |s.log| && s.log[id].status == t.status
  {
  }

  lemma AllTransferred(vecs: seq<IoVec>, t: Transfer, moved: seq<Addr>)
    requires OnTrack(vecs, t, moved)
    ensures t.status.Done? ==> moved == Addrs(vecs)
  {
  }
}
