/** A run in which the end of an uncached send takes the lock of a cached one: what is sent in the end
    is not what was promised. */
module StolenLock {
  import opened Options
  import opened CacheSpec
  import opened Vectored
  import opened Ranges
  import opened ServerSpec

  const FILE := "f"
  const CLOSE := BLANK.(opType := RawClose)
  const PROMISED := [Byte('H'), Byte('x')]

  /** Two clients ask for a file that is not cached; it is read twice, first as `x`, then as `y`.  In
      between it gets into the cache, and a third client is sent it from there. */
  const RUN: seq<Event> := [
    Send(1, FILE, "", "H", Some(1)), Send(2, FILE, "", "H", Some(1)),
    ReadDone(0, Got("x"), "H"), Written(0, Moved(2), "", 7),
    Send(3, FILE, "", "H", None),
    ReadDone(1, Got("y"), "H"), Written(1, Moved(2), "", 7),
    Written(3, Moved(2), "", 7)
  ]

  function Reading(client: nat, block: nat): Task {
    BLANK.(opType := HttpSendFile, forClient := client, buffLength := 1, filepath := FILE, buff := Bytes(block))
  }

  function Two(header: nat, body: nat): seq<IoVec> {
    [IoVec(Addr(header, 0), 1), IoVec(Addr(body, 0), 1)]
  }

  function Writing(at: nat, header: nat, body: nat, additional: nat): Task {
    BLANK.(opType := HttpSendFile, buffLength := 1, filepath := FILE, buff := Vecs(at, Two(header, body)), iovs := Two(header, body),
           numIovecs := 2, writeRangesIdx := 1, additional := additional)
  }

  function Over(additional: nat): Task {
    Writing(0, 0, 0, additional).(buff := NoBuff, iovs := [])
  }

  function InCache(locks: nat): Item {
    Item(FILE, 1, 1, locks, 7, false)
  }

  /** The state after the first `n` events. */
  function After(n: nat): State
    requires 2 <= n <= 6
  {
    var x, y, done := Block(Cached(FILE), "x"), Block(FileOf(1), "\0"), Log(None, PROMISED, PROMISED, Done);
    if n == 2 then
      State([Reading(1, 1), Reading(2, 2)], {}, Cache([], 1, []), map[1 := Block(FileOf(0), "\0"), 2 := y], 3,
            map[0 := Read(1, 0, 1), 1 := Read(2, 0, 1)], [NO_LOG, NO_LOG])
    else if n == 3 then
      State([Writing(4, 3, 1, 1), Reading(2, 2), CLOSE], {}, Cache([], 1, []),
            map[1 := Block(FileOf(0), "x"), 2 := y, 3 := Block(HeaderOf(0), "H")], 5,
            map[0 := Writev(1, Two(3, 1)), 1 := Read(2, 0, 1)], [Log(None, PROMISED, [], Active), NO_LOG, NO_LOG])
    else if n == 4 then
      State([Over(1), Reading(2, 2), CLOSE], {}, Cache([InCache(0)], 1, []), map[1 := x, 2 := y], 5,
            map[1 := Read(2, 0, 1)], [done, NO_LOG, NO_LOG])
    else if n == 5 then
      State([Over(1), Reading(2, 2), CLOSE, Writing(6, 5, 1, 0)], {}, Cache([InCache(1)], 1, []),
            map[1 := x, 2 := y, 5 := Block(HeaderOf(3), "H")], 7,
            map[1 := Read(2, 0, 1), 3 := Writev(3, Two(5, 1))], [done, NO_LOG, NO_LOG, Log(Some(FILE), PROMISED, [], Active)])
    else
      State([Over(1), Writing(8, 7, 2, 2), CLOSE, Writing(6, 5, 1, 0), CLOSE], {}, Cache([InCache(1)], 1, []),
            map[1 := x, 2 := Block(FileOf(1), "y"), 5 := Block(HeaderOf(3), "H"), 7 := Block(HeaderOf(1), "H")], 9,
            map[1 := Writev(2, Two(7, 2)), 3 := Writev(3, Two(5, 1))],
            [done, Log(None, [Byte('H'), Byte('y')], [], Active), NO_LOG, Log(Some(FILE), PROMISED, [], Active), NO_LOG])
  }

  lemma Snoc(s: State, es: seq<Event>, e: Event)
    requires Feasible(s, es) && MayHappen(RunAll(s, es), e)
    ensures Feasible(s, es + [e]) && RunAll(s, es + [e]) == Step(RunAll(s, es), e)
  {
    assert (es + [e])[..|es|] == es;
  }

  lemma AddrsOfTwo(header: nat, body: nat)
    ensures Addrs(Two(header, body)) == [Addr(header, 0), Addr(body, 0)] && Size(Two(header, body)) == 2
  {
    assert Two(header, body)[1..] == [IoVec(Addr(body, 0), 1)];
    assert Two(header, body)[1..][1..] == [];
  }

  lemma FirstTwo()
    ensures Feasible(Init(1), RUN[..2]) && RunAll(Init(1), RUN[..2]) == After(2)
  {
    hide Step, MayHappen, After, Feasible;
    First();
    Second();
    NoEvents();
    Snoc(Init(1), [], RUN[0]);
    assert [] + [RUN[0]] == [RUN[0]];
    Snoc(Init(1), [RUN[0]], RUN[1]);
    assert [RUN[0]] + [RUN[1]] == RUN[..2];
  }

  lemma NoEvents()
    ensures Feasible(Init(1), []) && RunAll(Init(1), []) == Init(1) && |RUN| == 8
  {
  }

  const AFTER_FIRST :=
    State([Reading(1, 1)], {}, Cache([], 1, []), map[1 := Block(FileOf(0), "\0")], 2, map[0 := Read(1, 0, 1)], [NO_LOG])

  lemma First()
    ensures MayHappen(Init(1), RUN[0]) && Step(Init(1), RUN[0]) == AFTER_FIRST
  {
    assert seq(1, _ => '\0') == "\0";
  }

  lemma Second()
    ensures MayHappen(AFTER_FIRST, RUN[1]) && Step(AFTER_FIRST, RUN[1]) == After(2)
  {
    assert seq(1, _ => '\0') == "\0";
  }

  /** The file is read at once. */
  lemma ReadWhole(s: State, id: nat, block: nat, data: string)
    requires MayHappen(s, ReadDone(id, Got(data), "H")) && |data| == 1 && s.tasks[id] == Reading(s.tasks[id].forClient, block)
    requires block in s.mem && |s.mem[block].bytes| == 1
    ensures Step(s, ReadDone(id, Got(data), "H")) == SubmitRead(s.(mem := s.mem[block := s.mem[block].(bytes := data)]), id, "H")
  {
    hide SubmitRead;
    assert Overwrite(s.mem[block].bytes, 0, data) == data;
  }

  lemma Third()
    ensures MayHappen(After(2), RUN[2]) && Step(After(2), RUN[2]) == After(3)
  {
    hide Step, SubmitRead;
    ReadWhole(After(2), 0, 1, "x");
    FirstSubmitted(After(2).(mem := After(2).mem[1 := Block(FileOf(0), "x")]));
  }

  lemma Submitted(s: State, id: nat, client: nat, b: nat)
    requires Table(s) && s.freedIdxs == {} && id < |s.tasks| && s.tasks[id] == Reading(client, b) && b != 0
    ensures var n, t := s.next, SubmitRead(s, id, "H");
            && t.tasks == s.tasks[id := Writing(n + 1, n, b, b)] + [CLOSE] && t.mem == s.mem[n := Block(HeaderOf(id), "H")]
            && t.log == s.log[id := Log(None, Gather(t.mem, Addrs(Two(n, b))), [], Active)] + [NO_LOG]
            && t.ops == s.ops[id := Writev(client, Two(n, b))] && t.next == n + 2 && t.cache == s.cache && t.freedIdxs == {}
  {
    hide Step, Addrs, Gather;
  }

  lemma FirstSubmitted(s: State)
    requires s == After(2).(mem := After(2).mem[1 := Block(FileOf(0), "x")])
    ensures SubmitRead(s, 0, "H") == After(3)
  {
    hide Step, SubmitRead, Addrs;
    Submitted(s, 0, 1, 1);
    AddrsOfTwo(3, 1);
    assert SubmitRead(s, 0, "H").mem == After(3).mem && SubmitRead(s, 0, "H").ops == After(3).ops;
    assert Gather(After(3).mem, Addrs(Two(3, 1))) == PROMISED;
  }

  /** The whole response is written at once. */
  lemma WrittenWhole(s: State, id: nat)
    requires MayHappen(s, Written(id, Moved(2), "", 7)) && Size(s.ops[id].iovs) == 2 && Size(Orig(s.tasks[id])) == 2
    requires s.tasks[id].opType.HttpSendFile? && s.tasks[id].progress == 0 && s.tasks[id].writeRanges == []
    ensures var l := s.log[id];
            Step(s, Written(id, Moved(2), "", 7)) ==
            FinishSend(s.(log := s.log[id := l.(sent := l.sent + Gather(s.mem, Addrs(s.ops[id].iovs)), status := Done)]), id, 7)
  {
    hide FinishSend, Gather, Rebuilt;
    assert Addrs(s.ops[id].iovs)[..2] == Addrs(s.ops[id].iovs);
  }

  lemma Fourth()
    ensures MayHappen(After(3), RUN[3]) && Step(After(3), RUN[3]) == After(4)
  {
    hide Step, FinishSend;
    AddrsOfTwo(3, 1);
    assert Gather(After(3).mem, [Addr(3, 0), Addr(1, 0)]) == PROMISED;
    assert [] + PROMISED == PROMISED;
    WrittenWhole(After(3), 0);
    assert After(3).log[0 := Log(None, PROMISED, PROMISED, Done)] == [Log(None, PROMISED, PROMISED, Done), NO_LOG, NO_LOG];
    EntersCache(After(3).(log := [Log(None, PROMISED, PROMISED, Done), NO_LOG, NO_LOG]));
  }

  lemma EntersCache(s: State)
    requires s == After(3).(log := [Log(None, PROMISED, PROMISED, Done), NO_LOG, NO_LOG])
    ensures FinishSend(s, 0, 7) == After(4)
  {
    hide Step, Gather, Addrs;
    var t := TearDown(s, 0);
    assert t.tasks == After(4).tasks && t.ops == After(4).ops && t.log == After(4).log && t.next == After(4).next;
    assert t.cache == Cache([], 1, []) && t.freedIdxs == {};
    assert t.mem == map[1 := Block(FileOf(0), "x"), 2 := Block(FileOf(1), "\0")];
    assert Unlock(t.cache, FILE) == t.cache && t.tasks[0] == Over(1);
    assert [InCache(0)] + [] == [InCache(0)];
    assert AddOrUpdate(t.cache, FILE, 1, 1, 7) == (After(4).cache, true);
    hide TearDown, Unlock, AddOrUpdate;
    assert WithCache(t, t.cache).mem == t.mem;
    assert Deposit(t, FILE, 1, 1, 7).mem == After(4).mem;
  }

  lemma Locked(c: Cache)
    requires c == Cache([InCache(0)], 1, [])
    ensures GetAndLock(c, FILE) == (Cache([InCache(1)], 1, []), Some(InCache(1)))
  {
    assert IndexOf(c.items, FILE) == 0;
    assert [InCache(1)] + Without(c.items, 0) == [InCache(1)];
  }

  lemma SubmittedFromCache(s: State, client: nat, it: Item)
    requires Table(s) && s.freedIdxs == {} && it.buff == 1 && it.buffLength == 1
    ensures var n, id, t := s.next, |s.tasks|, SendLocked(s, client, FILE, "", "H", it);
            && t.tasks == s.tasks + [Writing(n + 1, n, 1, 0)] && t.mem == s.mem[n := Block(HeaderOf(id), "H")]
            && t.log == s.log + [Log(Some(FILE), Gather(t.mem, Addrs(Two(n, 1))), [], Active)]
            && t.ops == s.ops[id := Writev(client, Two(n, 1))] && t.next == n + 2 && t.cache == s.cache && t.freedIdxs == {}
  {
    hide Addrs, Gather, Unlock;
  }

  lemma Fifth()
    ensures MayHappen(After(4), RUN[4]) && Step(After(4), RUN[4]) == After(5)
  {
    hide SendLocked, SendUncached, GetAndLock, Addrs, ContinueSend, FileRead;
    var s, t := After(4), After(5);
    Locked(s.cache);
    var s1 := WithCache(s, t.cache);
    assert s1 == s.(cache := t.cache);
    SubmittedFromCache(s1, 3, InCache(1));
    AddrsOfTwo(5, 1);
    assert Gather(t.mem, Addrs(Two(5, 1))) == PROMISED;
    assert s1.mem[5 := Block(HeaderOf(3), "H")] == t.mem;
  }

  lemma Sixth()
    ensures MayHappen(After(5), RUN[5]) && Step(After(5), RUN[5]) == After(6)
  {
    hide Step, SubmitRead;
    ReadWhole(After(5), 1, 2, "y");
    SecondSubmitted(After(5).(mem := After(5).mem[2 := Block(FileOf(1), "y")]));
  }

  lemma SecondSubmitted(s: State)
    requires s == After(5).(mem := After(5).mem[2 := Block(FileOf(1), "y")])
    ensures SubmitRead(s, 1, "H") == After(6)
  {
    hide Step, SubmitRead, Addrs;
    Submitted(s, 1, 2, 2);
    AddrsOfTwo(7, 2);
    assert SubmitRead(s, 1, "H").mem == After(6).mem && SubmitRead(s, 1, "H").ops == After(6).ops;
    assert Gather(After(6).mem, Addrs(Two(7, 2))) == [Byte('H'), Byte('y')];
  }

  /** The second client's send ends: its unlock takes the lock of the third one's, whose buffer is
      freed. */
  lemma Seventh()
    ensures MayHappen(After(6), RUN[6]) && Stolen(Step(After(6), RUN[6]))
  {
    hide Step, FinishSend;
    AddrsOfTwo(7, 2);
    WrittenWhole(After(6), 1);
    var l := After(6).log[1];
    var sent := l.sent + Gather(After(6).mem, Addrs(Two(7, 2)));
    Steals(After(6).(log := After(6).log[1 := l.(sent := sent, status := Done)]));
  }

  /** The third client's send is in flight, but the buffer that it sends is gone. */
  predicate Stolen(s: State) {
    && MayHappen(s, RUN[7]) && s.tasks[3] == After(6).tasks[3] && s.ops[3] == After(6).ops[3] && s.log[3] == After(6).log[3]
    && 1 !in s.mem && 5 in s.mem && s.mem[5] == Block(HeaderOf(3), "H")
  }

  lemma Steals(s: State)
    requires |s.log| == 5 && s == After(6).(log := s.log) && s.log[3] == After(6).log[3]
    ensures Stolen(FinishSend(s, 1, 7))
  {
    hide Step, Addrs, Gather, Unlock, AddOrUpdate, TearDown;
    AddrsOfTwo(5, 1);
    TornDown(s);
    Replaced();
  }

  lemma TornDown(s: State)
    requires |s.log| == 5 && s == After(6).(log := s.log)
    ensures var t := TearDown(s, 1);
            && t.tasks == s.tasks[1 := s.tasks[1].(buff := NoBuff, iovs := [])] && t.log == s.log && t.cache == s.cache
            && 3 in t.ops && t.ops[3] == s.ops[3] && 1 !in t.ops && t.freedIdxs == {}
            && t.mem == map[1 := Block(Cached(FILE), "x"), 2 := Block(FileOf(1), "y"), 5 := Block(HeaderOf(3), "H")]
    ensures s.cache == Cache([InCache(1)], 1, []) && s.tasks[1] == Writing(8, 7, 2, 2)
  {
  }

  lemma Replaced()
    ensures Unlock(Cache([InCache(1)], 1, []), FILE) == Cache([InCache(0)], 1, [])
    ensures AddOrUpdate(Cache([InCache(0)], 1, []), FILE, 2, 1, 7) == (Cache([InCache(0).(buff := 2)], 1, [1]), true)
  {
    assert IndexOfLocked([InCache(1)], FILE) == 0;
    assert [InCache(1)][0 := InCache(0)] == [InCache(0)];
    assert [InCache(0)][0 := InCache(0).(buff := 2)] == [InCache(0).(buff := 2)];
    assert [] + [1] == [1];
  }

  lemma Eighth(s: State)
    requires Stolen(s)
    ensures MayHappen(s, RUN[7]) && |Step(s, RUN[7]).log| == |s.log| > 3
    ensures Step(s, RUN[7]).log[3] == Log(Some(FILE), PROMISED, [Byte('H'), Dangling], Done)
  {
    hide Step, FinishSend;
    AddrsOfTwo(5, 1);
    assert Gather(s.mem, [Addr(5, 0), Addr(1, 0)]) == [Byte('H'), Dangling];
    assert [] + [Byte('H'), Dangling] == [Byte('H'), Dangling];
    WrittenWhole(s, 3);
    FinishKeepsLog(s.(log := s.log[3 := Log(Some(FILE), PROMISED, [Byte('H'), Dangling], Done)]), 3);
  }

  lemma FinishKeepsLog(s: State, id: nat)
    requires id < |s.tasks|
    ensures FinishSend(s, id, 7).log == s.log
  {
    hide AddOrUpdate, Unlock;
  }

  lemma RunSteps()
    ensures |RUN| == 8 && RUN[..8] == RUN && forall n: nat {:trigger RUN[..n]} :: n < 8 ==> RUN[..n] + [RUN[n]] == RUN[..n + 1]
  {
  }

  /** The run is possible, and in the end the third client has been sent something else than the
      response that was promised to it: the side condition of the delivery theorem is needed. */
  lemma DeliversSomethingElse()
    ensures Feasible(Init(1), RUN)
    ensures var s := RunAll(Init(1), RUN); |s.log| > 3 && s.log[3] == Log(Some(FILE), PROMISED, [Byte('H'), Dangling], Done)
  {
    hide Step, After, MayHappen, Stolen;
    RunSteps();
    FirstTwo();
    Third();
    Snoc(Init(1), RUN[..2], RUN[2]);
    Fourth();
    Snoc(Init(1), RUN[..3], RUN[3]);
    Fifth();
    Snoc(Init(1), RUN[..4], RUN[4]);
    Sixth();
    Snoc(Init(1), RUN[..5], RUN[5]);
    Seventh();
    Snoc(Init(1), RUN[..6], RUN[6]);
    Eighth(Step(After(6), RUN[6]));
    Snoc(Init(1), RUN[..7], RUN[7]);
  }
}
