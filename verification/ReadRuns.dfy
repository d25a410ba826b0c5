/** Whole runs of a connection: completions of any of its reads, in any order. */
module ReadRuns {
  import opened Options
  import opened CText
  import opened RequestSpec
  import opened ReadSpec
  import P = PostReassembly

  /** The read of task `id` completes. */
  datatype Event = Done(id: nat, result: Result)

  predicate Feasible(c: Conn, es: seq<Event>)
    decreases |es|, 0
  {
    es == [] || (Feasible(c, es[..|es| - 1]) && MayHappen(RunAll(c, es[..|es| - 1]), es[|es| - 1].id, es[|es| - 1].result))
  }

  function RunAll(c: Conn, es: seq<Event>): Conn
    requires Feasible(c, es)
    decreases |es|, 1
  {
    if es == [] then c else ReadDone(RunAll(c, es[..|es| - 1]), es[|es| - 1].id, es[|es| - 1].result)
  }

  /** The completions of task `id`, in order. */
  function Own(es: seq<Event>, id: nat): seq<Result> {
    if es == [] then []
    else Own(es[..|es| - 1], id) + if es[|es| - 1].id == id then [es[|es| - 1].result] else []
  }

  /** The bytes of the connection, in the order of the completions. */
  function Wire(es: seq<Event>): string {
    if es == [] then "" else Wire(es[..|es| - 1]) + if es[|es| - 1].result.Got? then es[|es| - 1].result.data else ""
  }

  /** Nothing fails, and the peer does not close. */
  predicate Arrivals(es: seq<Event>) {
    forall i :: 0 <= i < |es| ==> es[i].result.Interrupted? || (es[i].result.Got? && es[i].result.data != "")
  }

  // ---------------------------------------------------------------- reads keep out of each other's way

  /** Task `id` and its read are the same in both. */
  predicate Alike(c: Conn, d: Conn, id: nat) {
    && id < |c.tasks| && id < |d.tasks| && c.tasks[id] == d.tasks[id] && (id in c.inFlight <==> id in d.inFlight)
  }

  lemma VerdictOfData(c: Conn, d: Conn, data: string)
    ensures Respond(c, data).1 == Respond(d, data).1
  {
    hide Parse, ContentLength;
  }

  lemma HandleAlike(c: Conn, d: Conn, id: nat, data: string)
    requires Alike(c, d, id)
    ensures Alike(Handle(c, id, data), Handle(d, id, data), id)
  {
    hide Respond;
    VerdictOfData(c, d, data);
    P.RespondApart(c, data, id);
    P.RespondApart(d, data, id);
  }

  /** What a completion does to its own task does not depend on anything else. */
  lemma OwnAlike(c: Conn, d: Conn, id: nat, r: Result)
    requires Alike(c, d, id)
    ensures Alike(ReadDone(c, id, r), ReadDone(d, id, r), id)
  {
    hide Handle;
    if r.Got? {
      HandleAlike(c, d, id, c.tasks[id].got + r.data);
    }
  }

  /** What the read of task `id` hands to the application when it completes. */
  function Handed(c: Conn, id: nat, r: Result): seq<Delivery>
    requires id < |c.tasks|
  {
    var d := ReadDone(c, id, r).delivered;
    if |c.delivered| <= |d| then d[|c.delivered|..] else []
  }

  lemma HandsAlike(c: Conn, d: Conn, id: nat, r: Result)
    requires Alike(c, d, id)
    ensures ReadDone(c, id, r).delivered == c.delivered + Handed(c, id, r) && Handed(c, id, r) == Handed(d, id, r)
  {
    hide Respond;
    if r.Got? {
      RespondHands(c, c.tasks[id].got + r.data);
      RespondHands(d, d.tasks[id].got + r.data);
      VerdictOfData(c, d, c.tasks[id].got + r.data);
    }
    Appended(c.delivered, ReadDone(c, id, r).delivered);
    Appended(d.delivered, ReadDone(d, id, r).delivered);
  }

  lemma RespondHands(c: Conn, data: string)
    ensures var (d, v) := Respond(c, data);
            d.delivered == c.delivered + (if v.Delivered? then [Delivery(data, false)] else []) && d.raw == c.raw
  {
    hide Parse, ContentLength;
  }

  lemma Appended(a: seq<Delivery>, b: seq<Delivery>)
    ensures b == a ==> b == a + b[|a|..] && b[|a|..] == []
    ensures |b| == |a| + 1 && a <= b ==> b == a + b[|a|..] && b[|a|..] == [b[|a|]]
  {
  }

  /** What the reads of task `id` hand over in a run. */
  function HandedBy(c: Conn, es: seq<Event>, id: nat): seq<Delivery>
    requires Feasible(c, es)
  {
    if es == [] then []
    else
      var before, e := es[..|es| - 1], es[|es| - 1];
      HandedBy(c, before, id) + if e.id == id then Handed(RunAll(c, before), id, e.result) else []
  }

  lemma OwnGrows(es: seq<Event>, id: nat)
    requires es != []
    ensures var own, e := Own(es, id), es[|es| - 1];
            if e.id == id then own != [] && own[..|own| - 1] == Own(es[..|es| - 1], id) && own[|own| - 1] == e.result
            else own == Own(es[..|es| - 1], id)
  {
  }

  /** Non-interference: in any interleaving of completions of any number of reads, the record of a read
      task, whether it is in flight and what it hands over are what its own completions alone make of them. */
  lemma {:induction false} OwnCompletionsDecide(c: Conn, es: seq<Event>, id: nat)
    requires id < |c.tasks| && Feasible(c, es)
    ensures Alike(RunAll(c, es), Feed(c, id, Own(es, id)), id)
    ensures Feed(c, id, Own(es, id)).delivered == c.delivered + HandedBy(c, es, id)
  {
    hide *;
    if es == [] {
      NoneYet(c, id);
    } else {
      var before, e := es[..|es| - 1], es[|es| - 1];
      RunLast(c, es);
      OwnCompletionsDecide(c, before, id);
      OwnGrows(es, id);
      HandedLast(c, es, id);
      var d, f := RunAll(c, before), Feed(c, id, Own(before, id));
      StillThere(d, f, id);
      if e.id == id {
        OwnAlike(d, f, id, e.result);
        HandsAlike(f, d, id, e.result);
        P.FeedLast(c, id, Own(es, id));
        HandsOn(c.delivered, HandedBy(c, before, id), Handed(d, id, e.result));
      } else {
        OtherAlike(d, f, e, id);
        HandsOn(c.delivered, HandedBy(c, before, id), []);
      }
    }
  }

  lemma NoneYet(c: Conn, id: nat)
    requires id < |c.tasks|
    ensures Own([], id) == [] && Feed(c, id, []) == c && RunAll(c, []) == c && Alike(c, c, id)
    ensures c.delivered == c.delivered + HandedBy(c, [], id)
  {
  }

  lemma StillThere(d: Conn, f: Conn, id: nat)
    requires Alike(d, f, id)
    ensures id < |d.tasks| && id < |f.tasks| && Alike(f, d, id)
  {
  }

  lemma HandedLast(c: Conn, es: seq<Event>, id: nat)
    requires Feasible(c, es) && es != []
    ensures var before, e := es[..|es| - 1], es[|es| - 1];
            Feasible(c, before) && e.id < |RunAll(c, before).tasks|
            && HandedBy(c, es, id) == HandedBy(c, before, id) + if e.id == id then Handed(RunAll(c, before), id, e.result) else []
  {
    hide Handed, ReadDone;
  }

  lemma HandsOn(a: seq<Delivery>, b: seq<Delivery>, c: seq<Delivery>)
    ensures a + b + c == a + (b + c)
    ensures b + [] == b
  {
  }

  /** What happens to a run at its last event. */
  lemma RunLast(c: Conn, es: seq<Event>)
    requires Feasible(c, es) && es != []
    ensures var before, e := es[..|es| - 1], es[|es| - 1];
            Feasible(c, before) && MayHappen(RunAll(c, before), e.id, e.result)
            && e.id < |RunAll(c, before).tasks| && RunAll(c, es) == ReadDone(RunAll(c, before), e.id, e.result)
  {
    hide ReadDone;
  }

  lemma OtherAlike(d: Conn, f: Conn, e: Event, id: nat)
    requires Alike(d, f, id) && e.id != id && e.id < |d.tasks|
    ensures Alike(ReadDone(d, e.id, e.result), f, id)
  {
    hide ReadDone;
    P.OtherReadsApart(d, id, e.id, e.result);
  }

  // ---------------------------------------------------------------- what reads in flight look like

  /** A network read in flight has an empty buffer, and every read has room. */
  predicate Roomy(c: Conn, id: nat) {
    && id < |c.tasks| && (!c.tasks[id].op.PostRead? ==> |c.tasks[id].got| < c.tasks[id].size)
    && (c.tasks[id].op.NetworkRead? ==> c.tasks[id].got == "")
  }

  predicate InOrder(c: Conn) {
    forall id {:trigger id in c.inFlight} {:trigger Roomy(c, id)} :: id in c.inFlight ==> Roomy(c, id)
  }

  /** In order, and no request is waited for. */
  predicate Idle(c: Conn) {
    InOrder(c) && forall id :: id in c.inFlight ==> !c.tasks[id].op.PostRead?
  }

  lemma RespondInOrder(c: Conn, data: string, id: nat)
    requires InOrder(c) && id in Respond(c, data).0.inFlight
    ensures Roomy(Respond(c, data).0, id)
  {
    hide Parse, ContentLength;
    assert id in c.inFlight ==> Roomy(c, id);
  }

  lemma HandleInOrder(c: Conn, id: nat, data: string)
    requires InOrder(c) && id < |c.tasks| && 0 < c.tasks[id].size
    ensures InOrder(Handle(c, id, data))
  {
    hide Respond;
    forall x | x in Handle(c, id, data).inFlight
      ensures Roomy(Handle(c, id, data), x)
    {
      if x in Respond(c, data).0.inFlight {
        RespondInOrder(c, data, x);
      }
    }
  }

  /** Every completion keeps the reads in flight in order. */
  lemma StaysInOrder(c: Conn, id: nat, r: Result)
    requires InOrder(c) && MayHappen(c, id, r)
    ensures InOrder(ReadDone(c, id, r))
  {
    assert Roomy(c, id);
    if r.Got? && r.data != "" {
      HandleInOrder(c, id, c.tasks[id].got + r.data);
    }
    hide Handle;
    forall x | x in ReadDone(c, id, r).inFlight
      ensures Roomy(ReadDone(c, id, r), x)
    {
      if x in c.inFlight {
        assert Roomy(c, x);
      }
    }
  }

  lemma {:induction false} RunInOrder(c: Conn, es: seq<Event>)
    requires InOrder(c) && Feasible(c, es)
    ensures InOrder(RunAll(c, es))
  {
    if es != [] {
      RunInOrder(c, es[..|es| - 1]);
      hide InOrder, ReadDone, MayHappen;
      StaysInOrder(RunAll(c, es[..|es| - 1]), es[|es| - 1].id, es[|es| - 1].result);
    }
  }

  // ---------------------------------------------------------------- a request that arrives in chunks

  /** In every run behind `c1` in which the connection carries at most the rest of `data`, nothing is
      handed over before all of it is there, and then exactly it, by whichever reads it arrives. */
  ghost predicate HandedOver(c: Conn, c1: Conn, first: string, data: string) {
    forall es :: Feasible(c1, es) && Arrivals(es) && first + Wire(es) <= data ==>
      && RunAll(c1, es).delivered == c.delivered + (if first + Wire(es) == data then [Delivery(data, false)] else [])
      && RunAll(c1, es).closed == c.closed
  }

  lemma WireGrows(es: seq<Event>)
    requires es != [] && Arrivals(es)
    ensures var before, e := es[..|es| - 1], es[|es| - 1];
            Arrivals(before) && Wire(before) <= Wire(es)
            && if e.result.Got? then e.result.data != "" && Wire(es) == Wire(before) + e.result.data
               else e.result.Interrupted? && Wire(es) == Wire(before)
  {
  }

  /** `got` has arrived of `data`, by the only read in flight. */
  predicate Gathered(c: Conn, w: Conn, got: string, data: string) {
    if |got| < |data| then w == c.(tasks := c.tasks + [Task(PostRead, |data|, got)], inFlight := {|c.tasks|})
    else w.delivered == c.delivered + [Delivery(data, false)] && w.closed == c.closed
  }

  lemma GatherFirst(c: Conn, id: nat, first: string, n: nat, data: string)
    requires id < |c.tasks| && c.tasks[id].op.NetworkRead? && c.tasks[id].got == "" && c.inFlight == {id}
    requires first != "" && P.Announces(first, n) && |first| < P.Total(first, n) == |data|
    ensures Gathered(c, ReadDone(c, id, Got(first)), first, data)
  {
    hide Handle, P.Announces, P.Total;
    assert "" + first == first && {id} + {|c.tasks|} - {id} == {|c.tasks|};
    P.PartOfRequest(c, id, first, n);
  }

  lemma GatherMore(c: Conn, w: Conn, got: string, e: Event, n: nat, data: string)
    requires Gathered(c, w, got, data) && MayHappen(w, e.id, e.result) && e.result.Got? && e.result.data != ""
    requires P.Announces(data, n) && |data| == P.Total(data, n) && got + e.result.data <= data
    ensures Gathered(c, ReadDone(w, e.id, e.result), got + e.result.data, data)
  {
    hide Handle, P.Announces, P.Total;
    var next := |c.tasks|;
    assert e.id == next && w.tasks[next] == Task(PostRead, |data|, got);
    var all := got + e.result.data;
    if |all| == |data| {
      assert all == data;
      P.WholeRequest(w, next, data, n);
    } else {
      var t := Task(PostRead, |data|, all);
      assert (c.tasks + [Task(PostRead, |data|, got)])[next := t] == c.tasks + [t];
      assert {next} + {next} == {next};
    }
  }

  lemma RunNone(c: Conn)
    ensures Feasible(c, []) && RunAll(c, []) == c && Arrivals([]) && Wire([]) == ""
  {
  }

  lemma PrefixParts(first: string, before: string, more: string, data: string)
    requires first + (before + more) <= data
    ensures first + before <= data && first <= data && first + before + more == first + (before + more)
    ensures first + data[|first|..] == data && first + "" == first
  {
  }

  lemma {:induction false} AloneGathers(c: Conn, id: nat, first: string, es: seq<Event>, n: nat, data: string)
    requires id < |c.tasks| && c.tasks[id].op.NetworkRead? && c.tasks[id].got == "" && c.inFlight == {id}
    requires first != "" && P.Announces(first, n) && |first| < P.Total(first, n) == |data|
    requires var c1 := ReadDone(c, id, Got(first)); Feasible(c1, es) && Arrivals(es) && first + Wire(es) <= data
    ensures Gathered(c, RunAll(ReadDone(c, id, Got(first)), es), first + Wire(es), data)
  {
    hide *;
    var c1 := ReadDone(c, id, Got(first));
    if es == [] {
      RunNone(c1);
      PrefixParts(first, "", "", data);
      GatherFirst(c, id, first, n, data);
    } else {
      var before, e := es[..|es| - 1], es[|es| - 1];
      WireGrows(es);
      RunLast(c1, es);
      PrefixParts(first, Wire(before), if e.result.Got? then e.result.data else "", data);
      AloneGathers(c, id, first, before, n, data);
      if e.result.Got? {
        P.Extended(first, data[|first|..], n);
        GatherMore(c, RunAll(c1, before), first + Wire(before), e, n, data);
      } else {
        InterruptedStays(RunAll(c1, before), e.id);
      }
    }
  }

  lemma InterruptedStays(c: Conn, id: nat)
    requires id < |c.tasks|
    ensures ReadDone(c, id, Interrupted) == c
  {
  }

  // ---------------------------------------------------------------- with other reads in flight

  /** Everything that is missing but the last byte goes to the task that waits, the last byte to another one. */
  function Diverted(next: nat, other: nat, first: string, data: string): seq<Event>
    requires |first| < |data|
  {
    var last := |data| - 1;
    (if |first| < last then [Done(next, Got(data[|first|..last]))] else []) + [Done(other, Got(data[last..]))]
  }

  /** A single byte is refused, but a line end alone counts as a request. */
  lemma OneByte(c: Conn, b: char)
    ensures var d := Respond(c, [b]);
            d == if b == '\r' || b == '\n' || b == NUL then (c.(delivered := c.delivered + [Delivery([b], false)]), Delivered)
                 else (c, Refused)
  {
    var r := Parse([b]);
    assert CStr([b], 0) == if b == NUL then "" else [b];
    hide CStr;
    assert HeadEnd([b]).None?;
    if b == '\r' || b == '\n' || b == NUL {
      TokensNone(CStr([b], 0), EOL);
    } else {
      assert Tokens([b], EOL) == [[b]];
      assert Head(BLANK, [[b]]) == RequestLine(BLANK, [b]);
    }
  }

  lemma DivertedWire(next: nat, other: nat, first: string, data: string)
    requires first < data
    ensures var es := Diverted(next, other, first, data);
            && Arrivals(es) && first + Wire(es) == data
            && es != [] && es[|es| - 1] == Done(other, Got(data[|data| - 1..]))
  {
    var last, es := |data| - 1, Diverted(next, other, first, data);
    var e := Done(other, Got(data[last..]));
    assert es[|es| - 1] == e && Wire(es) == Wire(es[..|es| - 1]) + data[last..];
    if |first| < last {
      var d := Done(next, Got(data[|first|..last]));
      assert es[..|es| - 1] == [d];
      assert [d][..0] == [] && Wire([d]) == "" + data[|first|..last];
      assert first + (data[|first|..last] + data[last..]) == data;
    } else {
      assert es[..|es| - 1] == [];
      assert first + ("" + data[last..]) == data;
    }
  }

  lemma RunOne(c: Conn, es: seq<Event>)
    requires es != [] && Feasible(c, es[..|es| - 1])
    requires MayHappen(RunAll(c, es[..|es| - 1]), es[|es| - 1].id, es[|es| - 1].result)
    ensures Feasible(c, es) && RunAll(c, es) == ReadDone(RunAll(c, es[..|es| - 1]), es[|es| - 1].id, es[|es| - 1].result)
  {
  }

  /** The state after the first read and all further bytes but the last. */
  lemma AllButLast(c: Conn, id: nat, other: nat, first: string, n: nat, data: string)
    requires id < |c.tasks| && c.tasks[id].op.NetworkRead? && c.tasks[id].got == ""
    requires first != "" && first < data && P.Announces(first, n) && P.Total(first, n) == |data|
    ensures var c1, next := ReadDone(c, id, Got(first)), |c.tasks|;
            var es := Diverted(next, other, first, data); var front := es[..|es| - 1];
            Feasible(c1, front) && RunAll(c1, front) == c.(tasks := c.tasks + [Task(PostRead, |data|, data[..|data| - 1])],
                                                           inFlight := c.inFlight + {next} - {id})
  {
    hide Handle, P.Announces, P.Total, Feasible, RunAll;
    var c1, next, last := ReadDone(c, id, Got(first)), |c.tasks|, |data| - 1;
    assert "" + first == first;
    P.PartOfRequest(c, id, first, n);
    var d := Done(next, Got(data[|first|..last]));
    RunNone(c1);
    if |first| < last {
      assert [d][..0] == [];
      RunOne(c1, [d]);
      assert first + data[|first|..last] == data[..last];
      assert (c.tasks + [Task(PostRead, |data|, first)])[next := Task(PostRead, |data|, data[..last])]
             == c.tasks + [Task(PostRead, |data|, data[..last])];
      assert c1.inFlight + {next} == c1.inFlight;
    } else {
      assert first == data[..last];
    }
  }

  /** What a read that is no part of a waiting request makes of one byte. */
  lemma OneByteRead(c: Conn, id: nat, b: char)
    requires Roomy(c, id) && !c.tasks[id].op.PostRead?
    ensures var d := ReadDone(c, id, Got([b]));
            d.delivered == c.delivered || d.delivered == c.delivered + [Delivery([b], false)]
  {
    hide Respond;
    assert "" + [b] == [b];
    RespondHands(c, [b]);
  }

  lemma IdleRead(c: Conn, id: nat)
    requires Idle(c) && id in c.inFlight
    ensures Roomy(c, id) && id < |c.tasks| && !c.tasks[id].op.PostRead? && |c.tasks[id].got| < c.tasks[id].size
    ensures c.tasks[id].op.NetworkRead? ==> c.tasks[id].got == ""
  {
    assert Roomy(c, id);
  }

  /** With another read in flight all bytes of the request can arrive without its being handed over. */
  lemma LostToAnother(c: Conn, id: nat, other: nat, first: string, n: nat, data: string)
    requires Idle(c) && id in c.inFlight && other in c.inFlight && id != other
    requires id < |c.tasks| && c.tasks[id].op.NetworkRead?
    requires first != "" && first < data && P.Announces(first, n) && P.Total(first, n) == |data|
    ensures var c1, es := ReadDone(c, id, Got(first)), Diverted(|c.tasks|, other, first, data);
            && Feasible(c1, es) && Arrivals(es) && first + Wire(es) == data
            && (RunAll(c1, es).delivered == c.delivered
                || RunAll(c1, es).delivered == c.delivered + [Delivery(data[|data| - 1..], false)])
  {
    hide *;
    IdleRead(c, id);
    IdleRead(c, other);
    var c1, next, es, last := ReadDone(c, id, Got(first)), |c.tasks|, Diverted(|c.tasks|, other, first, data), |data| - 1;
    DivertedWire(next, other, first, data);
    AllButLast(c, id, other, first, n, data);
    var w := RunAll(c1, es[..|es| - 1]);
    assert w.tasks[other] == c.tasks[other] && other in w.inFlight && data[last..] == [data[last]];
    SameRead(c, w, other);
    RunOne(c1, es);
    OneByteRead(w, other, data[last]);
  }

  lemma SameRead(c: Conn, w: Conn, id: nat)
    requires Roomy(c, id) && id < |w.tasks| && w.tasks[id] == c.tasks[id] && id in w.inFlight
    ensures Roomy(w, id) && (!c.tasks[id].op.PostRead? ==> forall b :: MayHappen(w, id, Got([b])))
  {
  }

  lemma NotHandedOver(c: Conn, c1: Conn, first: string, data: string, es: seq<Event>)
    requires Feasible(c1, es) && Arrivals(es) && first + Wire(es) == data && |data| > 1
    requires RunAll(c1, es).delivered == c.delivered
             || RunAll(c1, es).delivered == c.delivered + [Delivery(data[|data| - 1..], false)]
    ensures !HandedOver(c, c1, first, data)
  {
    hide RunAll, Feasible, Arrivals, Wire;
    assert RunAll(c1, es).delivered != c.delivered + [Delivery(data, false)] by {
      assert (c.delivered + [Delivery(data, false)])[|c.delivered|] == Delivery(data, false);
      assert |data[|data| - 1..]| == 1;
    }
  }

  /** If the first read holds the whole head of a POST request but not all of its body, then the request
      is handed over exactly when its bytes have arrived, in every run, if and only if no other read of
      the connection was in flight. */
  lemma ReassembledIff(c: Conn, id: nat, first: string, n: nat, data: string)
    requires Idle(c) && id in c.inFlight && id < |c.tasks| && c.tasks[id].op.NetworkRead?
    requires first != "" && first < data && P.Announces(first, n) && P.Total(first, n) == |data|
    ensures HandedOver(c, ReadDone(c, id, Got(first)), first, data) <==> c.inFlight == {id}
  {
    hide *;
    IdleRead(c, id);
    if c.inFlight == {id} {
      AloneHandsOver(c, id, first, n, data);
    } else {
      var other :| other in c.inFlight && other != id;
      LostToAnother(c, id, other, first, n, data);
      NotHandedOver(c, ReadDone(c, id, Got(first)), first, data, Diverted(|c.tasks|, other, first, data));
    }
  }

  lemma AloneHandsOver(c: Conn, id: nat, first: string, n: nat, data: string)
    requires id < |c.tasks| && c.tasks[id].op.NetworkRead? && c.tasks[id].got == "" && c.inFlight == {id}
    requires first != "" && first < data && P.Announces(first, n) && P.Total(first, n) == |data|
    ensures HandedOver(c, ReadDone(c, id, Got(first)), first, data)
  {
    var c1 := ReadDone(c, id, Got(first));
    hide RunAll, Feasible, Arrivals, Wire, P.Announces, P.Total, ReadDone;
    forall es | Feasible(c1, es) && Arrivals(es) && first + Wire(es) <= data
      ensures RunAll(c1, es).closed == c.closed
      ensures RunAll(c1, es).delivered == c.delivered + (if first + Wire(es) == data then [Delivery(data, false)] else [])
    {
      AloneGathers(c, id, first, es, n, data);
    }
  }

  /** After a POST request was handed over, two reads are in flight (unless it had the usual read size), and
      whichever of them the next request of that kind begins with, its last byte can be lost to the other. */
  lemma NextRequestMayBeLost(c: Conn, id: nat, whole: string, m: nat, reader: nat, first: string, n: nat, data: string)
    requires Idle(c) && c.inFlight == {id} && id < |c.tasks| && c.tasks[id].op.NetworkRead?
    requires whole != "" && |whole| <= c.tasks[id].size && P.Announces(whole, m) && |whole| == P.Total(whole, m)
    requires reader in ReadDone(c, id, Got(whole)).inFlight
    requires first != "" && first < data && P.Announces(first, n) && P.Total(first, n) == |data|
    ensures var c2 := ReadDone(c, id, Got(whole));
            && Idle(c2) && c2.delivered == c.delivered + [Delivery(whole, false)] && c2.closed == c.closed
            && reader < |c2.tasks| && (HandedOver(c2, ReadDone(c2, reader, Got(first)), first, data) <==> |whole| == READ_SIZE)
  {
    hide *;
    IdleRead(c, id);
    WholeStaysIdle(c, id, whole, m);
    var c2 := ReadDone(c, id, Got(whole));
    IdleRead(c2, reader);
    ReassembledIff(c2, reader, first, n, data);
  }

  lemma WholeStaysIdle(c: Conn, id: nat, whole: string, m: nat)
    requires Idle(c) && c.inFlight == {id} && id < |c.tasks| && c.tasks[id].op.NetworkRead? && c.tasks[id].got == ""
    requires whole != "" && |whole| <= c.tasks[id].size && P.Announces(whole, m) && |whole| == P.Total(whole, m)
    ensures var c2 := ReadDone(c, id, Got(whole));
            && Idle(c2) && c2.delivered == c.delivered + [Delivery(whole, false)] && c2.closed == c.closed
            && (forall x :: x in c2.inFlight ==> x < |c2.tasks| && c2.tasks[x].op.NetworkRead?)
            && (forall x :: x in c2.inFlight ==> (c2.inFlight == {x} <==> |whole| == READ_SIZE))
  {
    StaysInOrder(c, id, Got(whole));
    hide P.Announces, P.Total, InOrder;
    assert "" + whole == whole;
    P.WholeRequest(c, id, whole, m);
  }
}
