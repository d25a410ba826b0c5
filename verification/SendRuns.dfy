/** To whom a file is sent, and in how many pieces: from the request to the end of the send. */
module SendRuns {
  import opened Options
  import opened CacheSpec
  import C = CacheRuns
  import opened Vectored
  import opened Ranges
  import opened ServerSpec
  import opened ServerInvariant
  import opened ServerTheorems
  import F = FileReads
  import W = RangeSends
  import D = RangeRoundTrip

  // ---------------------------------------------------------------- the pieces of a send

  /** The ranges that are not submitted yet. */
  function Remaining(t: Task): seq<Range> {
    if t.writeRangesIdx <= |t.writeRanges| then t.writeRanges[t.writeRangesIdx..] else []
  }

  function Tail(ranges: seq<Range>): seq<Range> {
    if ranges == [] then [] else ranges[1..]
  }

  /** Task `id` writes a file, or a range of it, to `client`; `ranges` are to follow. */
  ghost predicate Sending(s: State, id: nat, client: nat, ranges: seq<Range>) {
    && Base(s) && id in s.ops && id < |s.tasks| && s.ops[id] == Writev(client, s.tasks[id].iovs)
    && s.tasks[id].opType == HttpSendFile && Remaining(s.tasks[id]) == ranges
    && s.tasks[id].numIovecs == 2 == |s.tasks[id].iovs|
  }

  lemma SendingOther(s: State, e: Event, id: nat, client: nat, ranges: seq<Range>)
    requires Sending(s, id, client, ranges) && MayHappen(s, e) && !About(e, id)
    ensures Sending(Step(s, e), id, client, ranges)
  {
    hide Base, Step, MayHappen;
    BaseStep(s, e);
    F.InTable(s);
    Untouched(s, e, id);
  }

  /** The completion of a piece: all of what was submitted is taken. */
  predicate EndsPiece(s: State, e: Event, id: nat) {
    && e.Written? && e.id == id && id < |s.tasks| && e.outcome.Moved?
    && s.tasks[id].progress + e.outcome.k >= Size(Orig(s.tasks[id]))
  }

  /** At the end of a piece the next range, if there is one, is submitted to the same client: a new header, and as
      many bytes as the range has without its last one. */
  lemma PieceEnds(s: State, e: Event, id: nat, client: nat, ranges: seq<Range>)
    requires Sending(s, id, client, ranges) && MayHappen(s, e) && EndsPiece(s, e, id)
    ensures var s2 := Step(s, e);
            if ranges == [] then
              && id !in s2.ops && id < |s2.log| && s2.log[id].status == Done
              && id < |s2.tasks| && s2.tasks[id].buff == NoBuff && s2.tasks[id].iovs == []
            else
              var r, h := ranges[0], s.next;
              && Sending(s2, id, client, ranges[1..])
              && h in s2.mem && s2.mem[h] == Block(HeaderOf(id), e.header) && HeaderBlock(s.tasks[id]) !in s2.mem
              && |s2.tasks[id].iovs| == 2 && s2.tasks[id].iovs[0] == IoVec(Addr(h, 0), |e.header|)
              && s2.tasks[id].iovs[1].len == ToSize(r.end - r.start) && s2.tasks[id].iovs[1].base.off == r.start
  {
    BaseStep(s, e);
    OwnOp(s, e);
    hide Base, Gather, Addrs, Size, Rebuilt, Step, MayHappen;
    if ranges == [] {
      WriteEnds(s, e);
      ArraysDropped(s, e);
    } else {
      HeaderBelow(s, id);
      NextPiece(s, e, id, client);
    }
  }

  /** The end of a send drops both arrays. */
  lemma ArraysDropped(s: State, e: Event)
    requires MayHappen(s, e) && e.Written? && e.outcome.Moved? && s.tasks[e.id].opType == HttpSendFile && !UsingRanges(s.tasks[e.id])
    requires s.tasks[e.id].progress + e.outcome.k >= Size(Orig(s.tasks[e.id]))
    ensures var s2 := Step(s, e); e.id < |s2.tasks| && s2.tasks[e.id].buff == NoBuff && s2.tasks[e.id].iovs == []
  {
    WrittenCases(s, e);
    hide Step, Gather, Addrs, Size, Rebuilt, Unlock, AddOrUpdate, NextRange;
  }

  lemma HeaderBelow(s: State, id: nat)
    requires Base(s) && id in s.ops && s.ops[id].Writev? && id < |s.tasks| && s.tasks[id].opType == HttpSendFile
    ensures HeaderBlock(s.tasks[id]) < s.next
  {
    assert OpOk(s, id);
  }

  lemma NextPiece(s: State, e: Event, id: nat, client: nat)
    requires MayHappen(s, e) && EndsPiece(s, e, id) && UsingRanges(s.tasks[id]) && s.tasks[id].opType == HttpSendFile
    requires s.ops[id].client == client && HeaderBlock(s.tasks[id]) < s.next
    ensures var s2, t, h := Step(s, e), s.tasks[id], s.next;
            var r := t.writeRanges[t.writeRangesIdx];
            && id in s2.ops && id < |s2.tasks| && s2.ops[id] == Writev(client, s2.tasks[id].iovs)
            && s2.tasks[id].opType == HttpSendFile && s2.tasks[id].writeRanges == t.writeRanges
            && s2.tasks[id].writeRangesIdx == t.writeRangesIdx + 1 && s2.tasks[id].numIovecs == t.numIovecs
            && s2.tasks[id].progress == t.progress && Orig(s2.tasks[id]) == s2.tasks[id].iovs
            && h in s2.mem && s2.mem[h] == Block(HeaderOf(id), e.header) && HeaderBlock(t) !in s2.mem
            && |s2.tasks[id].iovs| == 2 && s2.tasks[id].iovs[0] == IoVec(Addr(h, 0), |e.header|)
            && s2.tasks[id].iovs[1].len == ToSize(r.end - r.start) && s2.tasks[id].iovs[1].base.off == r.start
  {
    hide Gather, Addrs, Size, Rebuilt, FinishSend, ToSize;
  }

  /** The write of a later range starts with the progress that the piece before it left behind: all that was submitted
      for it is transmitted on every schedule if and only if that piece was taken in one completion. */
  lemma LaterPieceIff(s: State, e: Event, id: nat, client: nat, ranges: seq<Range>)
    requires Sending(s, id, client, ranges) && ranges != [] && MayHappen(s, e) && EndsPiece(s, e, id)
    ensures id < |Step(s, e).tasks|
    ensures var t := TransferOf(Step(s, e), id);
            && t == Start(t.orig, s.tasks[id].progress)
            && ((forall cs :: Schedule(t, cs) && Run(t, cs).status.Done? ==> Transferred(t, cs) == Addrs(t.orig))
                <==> s.tasks[id].progress == 0 || Size(t.orig) == 0)
  {
    hide Step, Base, MayHappen;
    OwnOp(s, e);
    HeaderBelow(s, id);
    NextPiece(s, e, id, client);
    DeliversIffFromZero(Orig(Step(s, e).tasks[id]), s.tasks[id].progress);
  }

  /** Any other completion of a piece: it goes on, or the send fails. */
  lemma PieceGoesOn(s: State, e: Event, id: nat, client: nat, ranges: seq<Range>)
    requires Sending(s, id, client, ranges) && MayHappen(s, e) && About(e, id) && !EndsPiece(s, e, id)
    ensures var s2 := Step(s, e);
            Sending(s2, id, client, ranges) || (id !in s2.ops && id < |s2.log| && s2.log[id].status == Failed)
  {
    BaseStep(s, e);
    assert e.Written?;
    hide Base, Gather, Addrs, Size, Rebuilt, Step;
    match e.outcome
    case Interrupted => NothingMoved(s, e);
    case Error => SendFails(s, e);
    case Moved(k) =>
      PartDone(s, id, k, e.header, e.wd);
      PartSent(s, e);
      SameLength(s, id, s.tasks[id].progress + k);
  }

  /** The rebuilt array is as long as the original. */
  lemma SameLength(s: State, id: nat, total: nat)
    requires Base(s) && id in s.ops && s.ops[id].Writev? && id < |s.tasks| && s.tasks[id].opType == HttpSendFile
    ensures |Rebuilt(Orig(s.tasks[id]), total)| == 2
  {
    assert OpOk(s, id);
    hide Base;
  }

  lemma SendFails(s: State, e: Event)
    requires MayHappen(s, e) && e.Written? && e.outcome.Error? && s.tasks[e.id].opType == HttpSendFile
    ensures var s2 := Step(s, e); e.id !in s2.ops && e.id < |s2.log| && s2.log[e.id].status == Failed
  {
    FinishLeaves(s.(log := s.log[e.id := s.log[e.id].(status := Failed)]), e.id, e.wd);
    hide FinishSend;
  }

  lemma PartSent(s: State, e: Event)
    requires MayHappen(s, e) && e.Written? && e.outcome.Moved? && s.tasks[e.id].progress + e.outcome.k < Size(Orig(s.tasks[e.id]))
    ensures Step(s, e) == WritevDone(s, e.id, e.outcome, e.header, e.wd)
  {
    hide WritevDone;
  }

  /** How many pieces of the send of task `id` end in the run. */
  function Pieces(s: State, es: seq<Event>, id: nat): nat
    requires Feasible(s, es)
  {
    if es == [] then 0
    else
      var before, e := es[..|es| - 1], es[|es| - 1];
      Pieces(s, before, id) + if EndsPiece(RunAll(s, before), e, id) then 1 else 0
  }

  lemma PiecesLast(s: State, es: seq<Event>, id: nat)
    requires Feasible(s, es) && es != []
    ensures var before, e := es[..|es| - 1], es[|es| - 1];
            && Feasible(s, before) && MayHappen(RunAll(s, before), e) && RunAll(s, es) == Step(RunAll(s, before), e)
            && Pieces(s, es, id) == Pieces(s, before, id) + if EndsPiece(RunAll(s, before), e, id) then 1 else 0
  {
    hide Step, MayHappen, EndsPiece;
  }

  /** A send that has come to an end: it failed, or every one of its `n` pieces was sent. */
  ghost predicate Over(s: State, id: nat, pieces: nat, n: nat) {
    && Base(s) && id !in s.ops && id < |s.tasks| && id < |s.log|
    && (s.log[id].status == Failed || (s.log[id].status == Done && pieces == n))
  }

  lemma StaysOver(s: State, e: Event, id: nat, pieces: nat, n: nat)
    requires Over(s, id, pieces, n) && MayHappen(s, e)
    ensures Over(Step(s, e), id, pieces, n) && !EndsPiece(s, e, id)
  {
    hide Base, Step;
    BaseStep(s, e);
    F.InTable(s);
    assert !About(e, id);
    Untouched(s, e, id);
  }

  /** In every run behind the submission of the first piece: everything goes to the same client, each range is
      submitted once, in order, and the send is done exactly when the last one has ended. */
  lemma {:induction false} SentInPieces(s: State, es: seq<Event>, id: nat, client: nat, ranges: seq<Range>)
    requires Sending(s, id, client, ranges) && Feasible(s, es)
    ensures var s2, n := RunAll(s, es), Pieces(s, es, id);
            (n <= |ranges| && Sending(s2, id, client, ranges[n..])) || Over(s2, id, n, |ranges| + 1)
  {
    hide *;
    if es == [] {
      NoPieces(s, id, ranges);
    } else {
      PiecesLast(s, es, id);
      var before, e, n := es[..|es| - 1], es[|es| - 1], Pieces(s, es[..|es| - 1], id);
      SentInPieces(s, before, id, client, ranges);
      var d := RunAll(s, before);
      BaseStepIf(d, e, id, client, if n <= |ranges| then ranges[n..] else [], n, |ranges| + 1);
      if Over(d, id, n, |ranges| + 1) {
        StaysOver(d, e, id, n, |ranges| + 1);
      } else if !About(e, id) {
        SendingOther(d, e, id, client, ranges[n..]);
        NotAbout(d, e, id);
      } else if EndsPiece(d, e, id) {
        PieceEnds(d, e, id, client, ranges[n..]);
        OverNow(Step(d, e), id, n + 1, |ranges| + 1);
        Suffix(ranges, n);
      } else {
        PieceGoesOn(d, e, id, client, ranges[n..]);
        OverNow(Step(d, e), id, n, |ranges| + 1);
      }
    }
  }

  lemma NoPieces(s: State, id: nat, ranges: seq<Range>)
    ensures Feasible(s, []) && RunAll(s, []) == s && Pieces(s, [], id) == 0 && ranges[0..] == ranges
  {
  }

  lemma BaseStepIf(s: State, e: Event, id: nat, client: nat, ranges: seq<Range>, pieces: nat, n: nat)
    requires MayHappen(s, e) && (Sending(s, id, client, ranges) || Over(s, id, pieces, n))
    ensures Base(Step(s, e)) && id < |Step(s, e).tasks|
  {
    BaseStep(s, e);
    hide Base, Step, MayHappen;
    F.InTable(s);
    if About(e, id) {
      StillInTable(s, e);
    } else {
      Untouched(s, e, id);
    }
  }

  lemma StillInTable(s: State, e: Event)
    requires Base(s) && MayHappen(s, e) && (e.ReadDone? || e.Written?)
    ensures |s.tasks| <= |Step(s, e).tasks|
  {
    hide FileRead, WritevDone, Base;
    F.InTable(s);
    if e.Written? {
      WrittenInTable(s, e.id, e.outcome, e.header, e.wd);
    } else {
      ReadInTable(s, e.id, e.result, e.header);
    }
  }

  lemma WrittenInTable(s: State, id: nat, c: Completion, header: string, wd: int)
    requires MayHappen(s, Written(id, c, header, wd))
    ensures |WritevDone(s, id, c, header, wd).tasks| == |s.tasks|
  {
    hide Gather, Addrs, Size, Rebuilt, Unlock, AddOrUpdate, Body;
  }

  lemma ReadInTable(s: State, id: nat, r: ReadResult, header: string)
    requires MayHappen(s, ReadDone(id, r, header)) && s.freedIdxs == {}
    ensures |s.tasks| <= |FileRead(s, id, r, header).tasks|
  {
    hide Gather, Addrs, Body, Overwrite;
  }

  lemma NotAbout(s: State, e: Event, id: nat)
    requires !About(e, id)
    ensures !EndsPiece(s, e, id)
  {
  }

  lemma OverNow(s: State, id: nat, pieces: nat, n: nat)
    requires Base(s) && id < |s.tasks|
    ensures id !in s.ops && id < |s.log| && (s.log[id].status == Failed || (s.log[id].status == Done && pieces == n))
            ==> Over(s, id, pieces, n)
  {
  }

  lemma Suffix(ranges: seq<Range>, n: nat)
    requires n <= |ranges|
    ensures ranges[n..] == [] <==> n == |ranges|
    ensures n < |ranges| ==> ranges[n..][1..] == ranges[n + 1..]
  {
  }

  // ---------------------------------------------------------------- how a send begins

  /** What is logged for a piece that begins: nothing is taken yet of the header and the bytes of the file. */
  predicate Begins(s: State, id: nat, header: string, bytes: string) {
    id < |s.log| && s.log[id] == s.log[id].(want := AsCells(header + bytes), sent := [], status := Active)
  }

  /** The submission of a file or of its first range, which is `bytes`. */
  lemma SubmitSends(s: State, id: nat, client: nat, header: string)
    requires Table(s) && id < |s.tasks| && s.tasks[id].writeRangesIdx == 0 && s.tasks[id].opType == HttpSendFile
    ensures var s2 := SubmitFile(s, id, client, header);
            && id in s2.ops && |s2.tasks| == |s.tasks| && s2.ops[id] == Writev(client, s2.tasks[id].iovs)
            && s2.tasks[id].opType == HttpSendFile && Remaining(s2.tasks[id]) == Tail(s.tasks[id].writeRanges)
            && s2.tasks[id].filepath == s.tasks[id].filepath && s2.tasks[id].numIovecs == 2 == |s2.tasks[id].iovs| && id < |s2.log|
            && (UsingRanges(s.tasks[id]) ==> s2.log[id].file == None) && s2.log[id].status == Active && s2.log[id].sent == []
  {
    hide Gather, Addrs, Body;
  }

  lemma HitSubmits(s: State, client: nat, path: string, rangeStr: string, header: string, it: Item)
    requires Table(s) && s.freedIdxs == {} && (rangeStr == "" || rangeStr == "none" || |rangeStr| >= 6)
    requires ParseRanges(rangeStr, it.buffLength).1 && it.buff != 0
    ensures var t := BLANK.(opType := HttpSendFile, buff := Bytes(it.buff), buffLength := it.buffLength, filepath := path,
                            writeRanges := ParseRanges(rangeStr, it.buffLength).0);
            var s1 := s.(tasks := s.tasks + [t], log := s.log + [NO_LOG]);
            SendLocked(s, client, path, rangeStr, header, it) == SubmitFile(s1, |s.tasks|, client, header)
  {
    hide ParseRanges, SubmitFile;
    var t := BLANK.(opType := HttpSendFile, buff := Bytes(it.buff), buffLength := it.buffLength, filepath := path,
                    writeRanges := ParseRanges(rangeStr, it.buffLength).0);
    var (s1, id) := GetTaskBuffOp(s, HttpSendFile, it.buff, it.buffLength);
    assert SetTask(s1, id, t) == s.(tasks := s.tasks + [t], log := s.log + [NO_LOG]);
  }

  lemma HitStep(s: State, client: nat, path: string, rangeStr: string, header: string, size: Option<nat>)
    requires Table(s) && (rangeStr == "" || rangeStr == "none" || |rangeStr| >= 6) && GetAndLock(s.cache, path).1.Some?
    ensures var (c, hit) := GetAndLock(s.cache, path);
            Step(s, Send(client, path, rangeStr, header, size)) == SendLocked(WithCache(s, c), client, path, rangeStr, header, hit.value)
  {
    hide GetAndLock, SendLocked, ParseRanges;
  }

  /** A hit with a Range header that can be satisfied sends the first of its ranges to the client of the request:
      the header, and the bytes of the cached file from its start up to its end; the others are to follow, in
      order. Without ranges it sends the whole file. */
  lemma HitSends(s: State, client: nat, path: string, rangeStr: string, header: string, size: Option<nat>)
    requires Base(s) && MayHappen(s, Send(client, path, rangeStr, header, size)) && GetAndLock(s.cache, path).1.Some?
    requires ParseRanges(rangeStr, GetAndLock(s.cache, path).1.value.buffLength).1
    ensures GetAndLock(s.cache, path).1.value.buff in s.mem
    ensures var it, s2, id := GetAndLock(s.cache, path).1.value, Step(s, Send(client, path, rangeStr, header, size)), |s.tasks|;
            var ranges, file := ParseRanges(rangeStr, it.buffLength).0, s.mem[it.buff].bytes;
            && |file| == it.buffLength && Sending(s2, id, client, Tail(ranges))
            && (ranges == [] ==> Begins(s2, id, header, file))
            && (ranges != [] && ranges[0].start <= ranges[0].end < |file| <= SIZE_MAX ==>
                  Begins(s2, id, header, file[ranges[0].start..ranges[0].end]))
  {
    var it, e := GetAndLock(s.cache, path).1.value, Send(client, path, rangeStr, header, size);
    var ranges := ParseRanges(rangeStr, it.buffLength).0;
    HitItem(s, path);
    BaseStep(s, e);
    F.InTable(s);
    HitStep(s, client, path, rangeStr, header, size);
    LockedMemory(s, path);
    hide Base, Step, MayHappen, GetAndLock, ParseRanges, SubmitFile, SendLocked, WithCache, Begins;
    var s0 := WithCache(s, GetAndLock(s.cache, path).0);
    HitSubmits(s0, client, path, rangeStr, header, it);
    var t := BLANK.(opType := HttpSendFile, buff := Bytes(it.buff), buffLength := it.buffLength, filepath := path,
                    writeRanges := ranges);
    var s1 := s0.(tasks := s0.tasks + [t], log := s0.log + [NO_LOG]);
    SubmitSends(s1, |s.tasks|, client, header);
    FirstPiece(s1, |s.tasks|, client, header, it.buff);
  }

  /** Without a range, or with the value `none`, a hit sends the whole file. */
  lemma WholeFileSent(s: State, client: nat, path: string, rangeStr: string, header: string, size: Option<nat>)
    requires Base(s) && GetAndLock(s.cache, path).1.Some? && (rangeStr == "" || rangeStr == "none")
    ensures MayHappen(s, Send(client, path, rangeStr, header, size)) && GetAndLock(s.cache, path).1.value.buff in s.mem
    ensures var it, s2, id := GetAndLock(s.cache, path).1.value, Step(s, Send(client, path, rangeStr, header, size)), |s.tasks|;
            Sending(s2, id, client, []) && Begins(s2, id, header, s.mem[it.buff].bytes)
  {
    F.InTable(s);
    assert ParseRanges(rangeStr, GetAndLock(s.cache, path).1.value.buffLength) == ([], true);
    hide Base, Step, GetAndLock, ParseRanges, Begins, Sending;
    HitSends(s, client, path, rangeStr, header, size);
  }

  lemma LockedMemory(s: State, path: string)
    requires Base(s) && GetAndLock(s.cache, path).1.Some?
    ensures var s0, b := WithCache(s, GetAndLock(s.cache, path).0), GetAndLock(s.cache, path).1.value.buff;
            && Table(s0) && s0.freedIdxs == {} && s0.tasks == s.tasks && s0.log == s.log && s0.next == s.next
            && b in s.mem && b in s0.mem && s0.mem[b] == s.mem[b]
  {
    HitItem(s, path);
    hide IndexOf;
  }

  lemma FirstPiece(s: State, id: nat, client: nat, header: string, b: nat)
    requires Table(s) && id < |s.tasks| && 0 < b < s.next && b in s.mem
    requires var t := s.tasks[id]; t.buff == Bytes(b) && t.buffLength == |s.mem[b].bytes| && t.writeRangesIdx == 0
    ensures var s2, ranges, file := SubmitFile(s, id, client, header), s.tasks[id].writeRanges, s.mem[b].bytes;
            && (ranges == [] ==> Begins(s2, id, header, file))
            && (ranges != [] && ranges[0].start <= ranges[0].end < |file| <= SIZE_MAX ==>
                  Begins(s2, id, header, file[ranges[0].start..ranges[0].end]))
  {
    var ranges := s.tasks[id].writeRanges;
    if ranges == [] {
      WholeWants(s, id, client, header, b);
    } else if ranges[0].start <= ranges[0].end < |s.mem[b].bytes| <= SIZE_MAX {
      W.FirstRangeWants(s, id, client, header, b);
      LogBegins(s, id, client, header);
    }
    hide SubmitFile, Begins;
  }

  lemma LogBegins(s: State, id: nat, client: nat, header: string)
    requires Table(s) && id < |s.tasks|
    ensures var s2 := SubmitFile(s, id, client, header); id < |s2.log| && s2.log[id].sent == [] && s2.log[id].status == Active
    ensures forall bytes :: SubmitFile(s, id, client, header).log[id].want == AsCells(header + bytes) ==>
                              Begins(SubmitFile(s, id, client, header), id, header, bytes)
  {
    hide Gather, Addrs;
  }

  lemma WholeSubmitted(s: State, id: nat, client: nat, header: string, b: nat)
    requires Table(s) && id < |s.tasks|
    requires var t := s.tasks[id]; t.buff == Bytes(b) && t.writeRanges == []
    ensures var s2 := SubmitFile(s, id, client, header);
            var vecs := [IoVec(Addr(s.next, 0), |header|), IoVec(Addr(b, 0), s.tasks[id].buffLength)];
            && id < |s2.log| && s2.log[id].want == Gather(s2.mem, Addrs(vecs)) && s2.mem == s.mem[s.next := Block(HeaderOf(id), header)]
  {
    hide Addrs, Gather;
  }

  lemma WholeWants(s: State, id: nat, client: nat, header: string, b: nat)
    requires Table(s) && id < |s.tasks| && 0 < b < s.next && b in s.mem
    requires var t := s.tasks[id]; t.buff == Bytes(b) && t.buffLength == |s.mem[b].bytes| && t.writeRanges == []
    ensures Begins(SubmitFile(s, id, client, header), id, header, s.mem[b].bytes)
  {
    hide SubmitFile, Addrs, Gather, Begins;
    var s2, h, file := SubmitFile(s, id, client, header), s.next, s.mem[b].bytes;
    var vecs := [IoVec(Addr(h, 0), |header|), IoVec(Addr(b, 0), |file|)];
    WholeSubmitted(s, id, client, header, b);
    GatherTwo(s2.mem, vecs);
    GatherBlock(s2.mem, h);
    GatherBlock(s2.mem, b);
    LogBegins(s, id, client, header);
  }

  /** A miss with a Range header that can be satisfied reads the file for the client and keeps the same ranges. */
  lemma MissReads(s: State, client: nat, path: string, rangeStr: string, header: string, size: nat)
    requires Base(s) && MayHappen(s, Send(client, path, rangeStr, header, Some(size))) && GetAndLock(s.cache, path).1.None?
    requires ParseRanges(rangeStr, size).1
    ensures var s2, id := Step(s, Send(client, path, rangeStr, header, Some(size))), |s.tasks|;
            && |s2.tasks| == id + 1 && F.Reading(s2, id, s2.tasks[id], "") && s2.ops.Keys == s.ops.Keys + {id}
            && var t := s2.tasks[id];
               && t.writeRanges == ParseRanges(rangeStr, size).0 && t.writeRangesIdx == 0 && t.forClient == client
               && t.filepath == path && t.buffLength == size
  {
    F.InTable(s);
    F.ReadingStarts(s, client, path, rangeStr, header, size);
    hide ParseRanges, GetAndLock, Base, F.Reading;
  }

  /** When the last bytes of a file arrive, its first range, or all of it, is sent to the client it was read for. */
  lemma ArrivedSends(s: State, id: nat, t: Task, got: string, data: string, header: string)
    requires F.Reading(s, id, t, got) && |got| + |data| == t.buffLength && t.writeRangesIdx == 0
    requires MayHappen(s, ReadDone(id, Got(data), header))
    ensures var s2, ranges, file := Step(s, ReadDone(id, Got(data), header)), t.writeRanges, got + data;
            && Sending(s2, id, t.forClient, Tail(ranges)) && s2.tasks[id].filepath == t.filepath
            && (ranges == [] ==> Begins(s2, id, header, file))
            && (ranges != [] && ranges[0].start <= ranges[0].end < |file| <= SIZE_MAX ==>
                  Begins(s2, id, header, file[ranges[0].start..ranges[0].end]))
            && s2.tasks[|s.tasks|..] == [BLANK.(opType := RawClose)]
  {
    F.ReadingFacts(s, id, t, got);
    BaseStep(s, ReadDone(id, Got(data), header));
    F.LastArrived(s, id, t, got, data);
    ReadOver(s, id, data, header);
    hide F.Reading, Base, Arrived, SubmitFile, Step, MayHappen, Begins, SubmitRead;
    var s1 := Arrived(s, id, data);
    var s2 := SetTask(s1, id, s1.tasks[id].(additional := t.buff.block, forClient := SIZE_MAX));
    SubmitSends(s2, id, t.forClient, header);
    FirstPiece(s2, id, t.forClient, header, t.buff.block);
    CloseBehind(s1, id, header);
  }

  lemma ReadOver(s: State, id: nat, data: string, header: string)
    requires Base(s) && MayHappen(s, ReadDone(id, Got(data), header)) && s.tasks[id].progress + |data| == s.tasks[id].buffLength
    ensures Step(s, ReadDone(id, Got(data), header)) == SubmitRead(Arrived(s, id, data), id, header)
    ensures Table(Arrived(s, id, data)) && Arrived(s, id, data).freedIdxs == {}
  {
    hide SubmitRead, Overwrite;
  }

  /** The task that closes the file comes last. */
  lemma CloseBehind(s: State, id: nat, header: string)
    requires Table(s) && s.freedIdxs == {} && id < |s.tasks|
    ensures var t := s.tasks[id];
            var s1 := SubmitFile(SetTask(s, id, t.(additional := BlockOf(t.buff), forClient := SIZE_MAX)), id, t.forClient, header);
            && SubmitRead(s, id, header) == s1.(tasks := s1.tasks + [BLANK.(opType := RawClose)], log := s1.log + [NO_LOG])
            && |s1.tasks| == |s.tasks| && |s1.log| == |s.log|
  {
    hide Gather, Addrs, Body;
  }

  // ---------------------------------------------------------------- ranges as they are written in a request

  /** The bytes that the code sends for a spec of a file: all but the last one of the range. */
  function Selected(r: D.ByteRange, file: string): string
    requires D.StartsInside(r, |file|) && (r.FromTo? ==> r.first <= r.last < |file|)
  {
    file[r.first..if r.FromTo? then r.last else |file| - 1]
  }

  /** From the Range header of a request to the bytes of a cached file: for specs that start before the last byte
      the first one is sent, without its last byte, and those of the others are to follow. */
  lemma PrintedRangeSent(s: State, client: nat, path: string, rs: seq<D.ByteRange>, sep: string, header: string, size: Option<nat>)
    requires Base(s) && GetAndLock(s.cache, path).1.Some? && rs != []
    requires sep != "" && forall k :: 0 <= k < |sep| ==> sep[k] in SEPARATORS
    requires var len := GetAndLock(s.cache, path).1.value.buffLength;
             && 2 <= len <= SIZE_MAX && D.StartsInside(rs[0], len) && (rs[0].FromTo? ==> rs[0].first <= rs[0].last < len)
             && forall i :: 0 <= i < |rs| ==> D.Fits(rs[i]) && D.StartsInside(rs[i], len)
    ensures MayHappen(s, Send(client, path, D.Header(rs, sep), header, size)) && GetAndLock(s.cache, path).1.value.buff in s.mem
    ensures var it := GetAndLock(s.cache, path).1.value;
            var s2, id, file := Step(s, Send(client, path, D.Header(rs, sep), header, size)), |s.tasks|, s.mem[it.buff].bytes;
            && |file| == it.buffLength && Begins(s2, id, header, Selected(rs[0], file))
            && Sending(s2, id, client, D.RangesOf(rs[1..], |file|))
  {
    hide *;
    F.InTable(s);
    HeaderLong(rs, sep);
    var it, e := GetAndLock(s.cache, path).1.value, Send(client, path, D.Header(rs, sep), header, size);
    SendHappens(s, e);
    HeaderRanges(rs, sep, it.buffLength);
    HitSends(s, client, path, D.Header(rs, sep), header, size);
    FirstSelected(rs[0], s.mem[it.buff].bytes);
  }

  lemma SendHappens(s: State, e: Event)
    requires Table(s) && e.Send? && |e.rangeStr| >= 6
    ensures MayHappen(s, e)
  {
  }

  lemma FirstSelected(r: D.ByteRange, file: string)
    requires D.StartsInside(r, |file|) && |file| <= SIZE_MAX && (r.FromTo? ==> r.first <= r.last < |file|)
    ensures Selected(r, file) == file[D.RangeOf(r, |file|).start..D.RangeOf(r, |file|).end]
    ensures D.RangeOf(r, |file|).start <= D.RangeOf(r, |file|).end < |file|
  {
  }

  /** The ranges of a printed header whose specs start before the last byte. */
  lemma HeaderRanges(rs: seq<D.ByteRange>, sep: string, size: nat)
    requires rs != [] && 2 <= size <= SIZE_MAX && |D.Header(rs, sep)| >= 6
    requires forall i :: 0 <= i < |rs| ==> D.Fits(rs[i]) && D.StartsInside(rs[i], size)
    requires sep != "" && forall k :: 0 <= k < |sep| ==> sep[k] in SEPARATORS
    ensures var (ranges, valid) := ParseRanges(D.Header(rs, sep), size);
            valid && ranges != [] && ranges[0] == D.RangeOf(rs[0], size) && Tail(ranges) == D.RangesOf(rs[1..], size)
  {
    hide D.Header, ParseRanges;
    D.RangeRoundTrip(rs, sep, size);
    assert D.RangesOf(rs, size)[1..] == D.RangesOf(rs[1..], size);
  }

  lemma HeaderLong(rs: seq<D.ByteRange>, sep: string)
    ensures |D.Header(rs, sep)| >= 6
  {
  }

  // ---------------------------------------------------------------- ranges that cannot be satisfied

  /** Nothing of the file is sent or read: a response is written to the client by a task of its own, and a lock
      that was taken is given back. */
  ghost predicate Declined(s: State, s2: State, client: nat, header: string) {
    var n := |s.tasks|;
    && |s2.tasks| == n + 2 && s2.ops == s.ops[n + 1 := Write(client, s.next)]
    && s.next in s2.mem && s2.mem[s.next] == Block(Reply, header)
    && s2.tasks[n + 1] == BLANK.(opType := HttpWrite, buff := Bytes(s.next), buffLength := |header|)
    && forall f :: C.Locks(s2.cache, f) == C.Locks(s.cache, f)
  }

  lemma UnsatisfiableWrites(s: State, client: nat, header: string)
    requires Table(s) && s.freedIdxs == {} && 0 < s.next
    ensures var s2, n := SendUnsatisfiable(s, client, header), |s.tasks|;
            && |s2.tasks| == n + 1 && s2.ops == s.ops[n := Write(client, s.next)] && s2.cache == s.cache
            && s.next in s2.mem && s2.mem[s.next] == Block(Reply, header)
            && s2.tasks[n] == BLANK.(opType := HttpWrite, buff := Bytes(s.next), buffLength := |header|)
  {
  }

  lemma DeclinedHit(s: State, client: nat, path: string, rangeStr: string, header: string, size: Option<nat>)
    requires Base(s) && MayHappen(s, Send(client, path, rangeStr, header, size)) && GetAndLock(s.cache, path).1.Some?
    requires !ParseRanges(rangeStr, GetAndLock(s.cache, path).1.value.buffLength).1
    ensures Declined(s, Step(s, Send(client, path, rangeStr, header, size)), client, header)
  {
    var (c, hit) := GetAndLock(s.cache, path);
    var it, s0 := hit.value, WithCache(s, GetAndLock(s.cache, path).0);
    F.InTable(s);
    BaseCache(s);
    HitStep(s, client, path, rangeStr, header, size);
    forall f
      ensures C.Locks(Unlock(c, path), f) == C.Locks(s.cache, f)
    {
      C.LocksStep(s.cache, C.Lock(path), f);
      C.LocksStep(c, C.Release(path), f);
    }
    LockedMemory(s, path);
    NextPositive(s);
    hide Base, Step, GetAndLock, ParseRanges, Unlock, SendUnsatisfiable, C.Locks;
    var t := BLANK.(opType := HttpSendFile, filepath := path, writeRanges := ParseRanges(rangeStr, it.buffLength).0);
    var t1 := if it.buff != 0 then t.(buff := Bytes(it.buff), buffLength := it.buffLength) else t;
    var s2 := s0.(tasks := s0.tasks + [t1], log := s0.log + [NO_LOG]);
    UnsatisfiableWrites(WithCache(s2, Unlock(c, path)), client, header);
  }

  lemma NextPositive(s: State)
    requires Base(s)
    ensures 0 < s.next
  {
  }

  lemma DeclinedMiss(s: State, client: nat, path: string, rangeStr: string, header: string, size: nat)
    requires Base(s) && MayHappen(s, Send(client, path, rangeStr, header, Some(size))) && GetAndLock(s.cache, path).1.None?
    requires !ParseRanges(rangeStr, size).1
    ensures Declined(s, Step(s, Send(client, path, rangeStr, header, Some(size))), client, header)
  {
    hide Base, GetAndLock, ParseRanges, SendUnsatisfiable, C.Locks, Step, WellFormed, C.Step;
    F.InTable(s);
    BaseCache(s);
    NextPositive(s);
    forall f
      ensures C.Locks(GetAndLock(s.cache, path).0, f) == C.Locks(s.cache, f)
    {
      MissKeepsLocks(s.cache, path, f);
    }
    MissStep(s, client, path, rangeStr, header, size);
    var s0 := WithCache(s, GetAndLock(s.cache, path).0);
    var t := BLANK.(forClient := client, buffLength := size, filepath := path, opType := HttpSendFile,
                    writeRanges := ParseRanges(rangeStr, size).0);
    UnsatisfiableWrites(s0.(tasks := s0.tasks + [t], log := s0.log + [NO_LOG]), client, header);
  }

  lemma MissKeepsLocks(c: Cache, path: string, f: string)
    requires WellFormed(c) && GetAndLock(c, path).1.None?
    ensures C.Locks(GetAndLock(c, path).0, f) == C.Locks(c, f)
  {
    C.LocksStep(c, C.Lock(path), f);
    hide GetAndLock, WellFormed, C.Locks;
  }

  lemma MissStep(s: State, client: nat, path: string, rangeStr: string, header: string, size: nat)
    requires Table(s) && s.freedIdxs == {} && (rangeStr == "" || rangeStr == "none" || |rangeStr| >= 6)
    requires GetAndLock(s.cache, path).1.None? && !ParseRanges(rangeStr, size).1
    ensures var s0 := WithCache(s, GetAndLock(s.cache, path).0);
            var t := BLANK.(forClient := client, buffLength := size, filepath := path, opType := HttpSendFile,
                            writeRanges := ParseRanges(rangeStr, size).0);
            var s1 := s0.(tasks := s0.tasks + [t], log := s0.log + [NO_LOG]);
            Table(s1) && Step(s, Send(client, path, rangeStr, header, Some(size))) == SendUnsatisfiable(s1, client, header)
  {
    hide GetAndLock, ParseRanges, SendUnsatisfiable;
    var t := BLANK.(forClient := client, buffLength := size, filepath := path, opType := HttpSendFile,
                    writeRanges := ParseRanges(rangeStr, size).0);
    assert (s.tasks + [BLANK])[|s.tasks| := t] == s.tasks + [t];
  }

  /** A Range header whose first spec starts at or behind the last byte of the file is declined, whether the file is
      cached or not. */
  lemma PrintedRangeDeclined(s: State, client: nat, path: string, rs: seq<D.ByteRange>, sep: string, header: string, size: nat)
    requires Base(s) && rs != [] && D.Positioned(rs[0]) && forall i :: 0 <= i < |rs| ==> D.Fits(rs[i])
    requires sep != "" && forall k :: 0 <= k < |sep| ==> sep[k] in SEPARATORS
    requires var hit := GetAndLock(s.cache, path).1; var len := if hit.Some? then hit.value.buffLength else size;
             0 < len <= SIZE_MAX && rs[0].first >= len - 1
    ensures MayHappen(s, Send(client, path, D.Header(rs, sep), header, Some(size)))
    ensures Declined(s, Step(s, Send(client, path, D.Header(rs, sep), header, Some(size))), client, header)
  {
    hide *;
    var hit := GetAndLock(s.cache, path).1;
    F.InTable(s);
    HeaderLong(rs, sep);
    SendHappens(s, Send(client, path, D.Header(rs, sep), header, Some(size)));
    FirstUnsatisfiable(rs, sep, if hit.Some? then hit.value.buffLength else size);
    if hit.Some? {
      DeclinedHit(s, client, path, D.Header(rs, sep), header, Some(size));
    } else {
      DeclinedMiss(s, client, path, D.Header(rs, sep), header, size);
    }
  }

  lemma FirstUnsatisfiable(rs: seq<D.ByteRange>, sep: string, size: nat)
    requires rs != [] && D.Positioned(rs[0]) && (forall i :: 0 <= i < |rs| ==> D.Fits(rs[i])) && |D.Header(rs, sep)| >= 6
    requires sep != "" && forall k :: 0 <= k < |sep| ==> sep[k] in SEPARATORS
    requires 0 < size <= SIZE_MAX && rs[0].first >= size - 1
    ensures !ParseRanges(D.Header(rs, sep), size).1
  {
    hide D.Header, ParseRanges;
    D.ParseOfPrinted(rs, sep, size);
  }
}
