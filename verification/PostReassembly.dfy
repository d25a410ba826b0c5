/** Whatever chunks a request body arrives in, the request is handed over once, when it is complete,
    and is built from exactly its bytes. */
module PostReassembly {
  import opened Options
  import opened CText
  import opened RequestSpec
  import opened RequestRoundTrip
  import opened ReadSpec
  import opened Ranges

  /** The last chunk of a feed. */
  lemma FeedLast(c: Conn, id: nat, rs: seq<Result>)
    requires id < |c.tasks| && rs != []
    ensures var before := Feed(c, id, rs[..|rs| - 1]);
            Feed(c, id, rs) == ReadDone(before, id, rs[|rs| - 1])
  {
  }

  /** While chunks arrive that leave a multi-part read unfinished, only its buffer fills up: it holds what it
      held at first, followed by the stream. */
  lemma {:induction false} Filling(c: Conn, id: nat, rs: seq<Result>)
    requires id in c.inFlight && id < |c.tasks| && !c.tasks[id].op.NetworkRead? && Chunks(rs)
    requires |c.tasks[id].got| + |Stream(rs)| < c.tasks[id].size
    ensures Feed(c, id, rs) == c.(tasks := c.tasks[id := c.tasks[id].(got := c.tasks[id].got + Stream(rs))])
  {
    var t := c.tasks[id];
    if rs == [] {
      assert t.got + "" == t.got;
      assert c.tasks[id := t] == c.tasks;
    } else {
      var before, last := rs[..|rs| - 1], rs[|rs| - 1];
      assert Stream(before) <= Stream(rs);
      Filling(c, id, before);
      if last.Got? {
        var t2 := t.(got := t.got + Stream(before));
        assert t2.got + last.data == t.got + Stream(rs);
        assert c.tasks[id := t2][id := t.(got := t.got + Stream(rs))] == c.tasks[id := t.(got := t.got + Stream(rs))];
        assert c.inFlight + {id} == c.inFlight;
      } else {
        assert Stream(rs) == Stream(before);
      }
    }
  }

  /** The head of `data` is whole and announces a body of `n` bytes. */
  predicate Announces(data: string, n: nat) {
    && HeadEnd(data).Some? && Parse(data).reqType == "POST" && Parse(data).validReq
    && ContentLength(Parse(data)) == Some(n) && HeadEnd(data).value + 4 + n <= SIZE_MAX
  }

  /** The length of the request whose head `data` holds. */
  function Total(data: string, n: nat): nat {
    match HeadEnd(data)
    case None => n
    case Some(p) => p + 4 + n
  }

  /** A request whose bytes are all there is handed over; the task that read it reads on from the network, into a
      buffer of the same size, and so does a new task with the usual buffer unless that was its size. */
  lemma WholeRequest(c: Conn, id: nat, data: string, n: nat)
    requires id < |c.tasks| && Announces(data, n) && |data| == Total(data, n)
    ensures var c2 := Handle(c, id, data);
            && c2.delivered == c.delivered + [Delivery(data, false)] && c2.closed == c.closed && c2.raw == c.raw
            && c2.inFlight == c.inFlight + {id} + (if |data| != READ_SIZE then {|c.tasks|} else {})
            && c2.tasks == c.tasks[id := Task(NetworkRead, c.tasks[id].size, "")]
                           + if |data| != READ_SIZE then [Task(NetworkRead, READ_SIZE, "")] else []
  {
    hide Parse, HeadEnd, ContentLength;
    HeadAgrees(data, "");
  }

  /** Part of a request gets a buffer of the size of the whole one. */
  lemma PartOfRequest(c: Conn, id: nat, data: string, n: nat)
    requires id < |c.tasks| && Announces(data, n) && |data| < Total(data, n)
    ensures var c2 := Handle(c, id, data);
            && c2 == c.(tasks := c.tasks + [Task(PostRead, Total(data, n), data)], inFlight := c.inFlight + {|c.tasks|} - {id})
  {
    hide Parse, HeadEnd, ContentLength;
    HeadAgrees(data, "");
  }

  lemma Extended(data: string, more: string, n: nat)
    requires Announces(data, n)
    ensures Announces(data + more, n) && Total(data + more, n) == Total(data, n)
    ensures Parse(data + more) == Parse(data)
  {
    hide Parse, ContentLength, HeadEnd;
    HeadAgrees(data, more);
  }

  /** The state between the first read and the last byte. */
  lemma Waiting(c: Conn, id: nat, first: string, rs: seq<Result>, n: nat)
    requires id < |c.tasks| && c.tasks[id].op.NetworkRead? && c.tasks[id].got == "" && id in c.inFlight
    requires first != "" && Announces(first, n) && Chunks(rs) && |first| + |Stream(rs)| < Total(first, n)
    ensures var c1 := ReadDone(c, id, Got(first));
            |c.tasks| < |c1.tasks|
            && Feed(c1, |c.tasks|, rs) == c.(tasks := c.tasks + [Task(PostRead, Total(first, n), first + Stream(rs))],
                                             inFlight := c.inFlight + {|c.tasks|} - {id})
  {
    hide Handle, Feed, Announces, Stream, Total;
    assert "" + first == first;
    PartOfRequest(c, id, first, n);
    var c1, next := ReadDone(c, id, Got(first)), |c.tasks|;
    assert c1.tasks[next] == Task(PostRead, Total(first, n), first);
    Filling(c1, next, rs);
    assert c1.tasks[next := Task(PostRead, Total(first, n), first + Stream(rs))]
           == c.tasks + [Task(PostRead, Total(first, n), first + Stream(rs))];
  }

  /** If the first read holds the whole head and no more than the announced length, the request is
      handed over when that many bytes have arrived and not before, for every chunking of the rest,
      whatever interruptions there are; it is built from exactly those bytes, and the parser finds in
      them what it found in the first read. */
  lemma Reassembled(c: Conn, id: nat, first: string, rs: seq<Result>, n: nat)
    requires id < |c.tasks| && c.tasks[id].op.NetworkRead? && c.tasks[id].got == "" && id in c.inFlight
    requires first != "" && Announces(first, n) && Chunks(rs) && |first| < Total(first, n)
    requires rs != [] && rs[|rs| - 1].Got? && |first| + |Stream(rs)| <= Total(first, n)
    ensures var c1 := ReadDone(c, id, Got(first)); |c.tasks| < |c1.tasks|
    ensures var c2, data := Feed(ReadDone(c, id, Got(first)), |c.tasks|, rs), first + Stream(rs);
            && Parse(data) == Parse(first) && !Delivery(data, false).failed
            && (forall i :: 0 <= i < |rs| ==>
                  Feed(ReadDone(c, id, Got(first)), |c.tasks|, rs[..i]).delivered == c.delivered)
            && c2.delivered == c.delivered + (if |data| == Total(first, n) then [Delivery(data, false)] else [])
            && c2.closed == c.closed
  {
    hide Handle, Feed, Announces, Stream, Total, Parse;
    var c1, next, before, data := ReadDone(c, id, Got(first)), |c.tasks|, rs[..|rs| - 1], first + Stream(rs);
    StreamPrefix(rs, 0);
    Waiting(c, id, first, rs[..0], n);
    forall i | 0 <= i < |rs|
      ensures Feed(c1, next, rs[..i]).delivered == c.delivered
    {
      StreamPrefix(rs, i);
      Waiting(c, id, first, rs[..i], n);
    }
    StreamPrefix(rs, |rs| - 1);
    Waiting(c, id, first, before, n);
    FeedLast(c1, next, rs);
    var w := Feed(c1, next, before);
    assert w.tasks[next].got + rs[|rs| - 1].data == data;
    Extended(first, Stream(rs), n);
    if |data| == Total(first, n) {
      WholeRequest(w, next, data, n);
    }
  }

  lemma {:induction false} StreamPrefix(rs: seq<Result>, i: nat)
    requires Chunks(rs) && i <= |rs|
    ensures Chunks(rs[..i]) && Stream(rs[..i]) <= Stream(rs)
    ensures i < |rs| && rs[|rs| - 1].Got? ==> |Stream(rs[..i])| < |Stream(rs)|
    ensures i + 1 == |rs| && rs[i].Got? ==> Stream(rs) == Stream(rs[..i]) + rs[i].data
    decreases |rs|
  {
    if i < |rs| {
      StreamPrefix(rs[..|rs| - 1], i);
      assert rs[..|rs| - 1][..i] == rs[..i];
    } else {
      assert rs[..i] == rs;
    }
  }

  /** What the first read of a valid POST request with announced length `n` leads to: the request is
      handed over at once if all of it is there, or no head end but no body either; the connection is
      closed if the head is not whole; otherwise the rest is waited for. */
  lemma FirstRead(c: Conn, id: nat, first: string, n: nat)
    requires id < |c.tasks| && c.tasks[id].op.NetworkRead? && c.tasks[id].got == "" && first != ""
    requires Parse(first).reqType == "POST" && Parse(first).validReq && ContentLength(Parse(first)) == Some(n)
    ensures var c1 := ReadDone(c, id, Got(first));
            && (c1.delivered == c.delivered + [Delivery(first, false)] <==>
                  if HeadEnd(first).Some? then |first| >= Total(first, n) else n == 0)
            && (c1.closed && !c.closed <==> !c.closed && HeadEnd(first).None? && n != 0)
            && (c1.delivered == c.delivered <==> if HeadEnd(first).Some? then |first| < Total(first, n) else n != 0)
  {
    assert "" + first == first;
    ContentIsHeadEnd(first);
    hide Parse, HeadEnd, ContentLength;
  }

  lemma ContentIsHeadEnd(data: string)
    ensures Parse(data).content == Shift(HeadEnd(data), 4)
  {
    hide CStr, Tokens, Head, HeadEnd;
    HeadKeeps(BLANK, Tokens(CStr(data, 0), EOL));
    if HeadEnd(data).Some? {
      HeadAgrees(data, "");
    }
  }

  /** Once a request of the announced length was handed over, two reads of the connection are in
      flight, unless the request was as long as a usual read: then there is one. */
  lemma ReadsAfterRequest(c: Conn, id: nat, data: string, n: nat)
    requires id < |c.tasks| && c.inFlight == {id} && Announces(data, n) && |data| == Total(data, n)
    ensures |Handle(c, id, data).inFlight| == if |data| == READ_SIZE then 1 else 2
  {
    hide Handle, Announces;
    WholeRequest(c, id, data, n);
    assert {id} + {id} == {id};
    if |data| != READ_SIZE {
      assert |{id, |c.tasks|}| == 2;
    }
  }

  /** A finished contiguous read hands over what its buffer held at first followed by the stream, for
      every schedule of short completions. */
  lemma RawReadFills(c: Conn, id: nat, rs: seq<Result>)
    requires id in c.inFlight && id < |c.tasks| && c.tasks[id].op.RawRead? && Chunks(rs)
    requires rs != [] && rs[|rs| - 1].Got? && |c.tasks[id].got| + |Stream(rs)| == c.tasks[id].size
    ensures var c2 := Feed(c, id, rs); c2.raw == c.raw + [c.tasks[id].got + Stream(rs)] && c2.inFlight == c.inFlight - {id}
  {
    hide Feed, Stream;
    StreamPrefix(rs, |rs| - 1);
    Filling(c, id, rs[..|rs| - 1]);
    FeedLast(c, id, rs);
    var w := Feed(c, id, rs[..|rs| - 1]);
    assert w.tasks[id].got + rs[|rs| - 1].data == c.tasks[id].got + Stream(rs);
  }

  function Gots(rs: seq<Result>): nat {
    if rs == [] then 0 else Gots(rs[..|rs| - 1]) + if rs[|rs| - 1].Got? then 1 else 0
  }

  /** A read that is not finished has had fewer positive completions than there are bytes missing at first. */
  lemma {:induction false} ReadsTerminate(c: Conn, id: nat, rs: seq<Result>)
    requires id in c.inFlight && id < |c.tasks| && !c.tasks[id].op.NetworkRead? && Chunks(rs)
    requires |c.tasks[id].got| + |Stream(rs)| < c.tasks[id].size
    ensures var t, had := Feed(c, id, rs).tasks[id], |c.tasks[id].got|;
            t.size == c.tasks[id].size && Gots(rs) <= |t.got| - had < t.size - had
  {
    Filling(c, id, rs);
    GotsBounded(rs);
  }

  lemma {:induction false} GotsBounded(rs: seq<Result>)
    requires Chunks(rs)
    ensures Gots(rs) <= |Stream(rs)|
  {
    if rs != [] {
      GotsBounded(rs[..|rs| - 1]);
    }
  }

  /** The completion of another read leaves this one and its buffer alone, while tasks are appended. */
  lemma OtherReadsApart(c: Conn, id: nat, other: nat, r: Result)
    requires id < |c.tasks| && other < |c.tasks| && id != other
    ensures var c2 := ReadDone(c, other, r);
            |c.tasks| <= |c2.tasks| && c2.tasks[id] == c.tasks[id] && (id in c2.inFlight <==> id in c.inFlight)
  {
    hide Deliver, PostPart, Parse;
    if r.Got? {
      RespondApart(c, c.tasks[other].got + r.data, id);
    }
    hide Respond;
  }

  lemma RespondApart(c: Conn, data: string, id: nat)
    requires id < |c.tasks|
    ensures var c2 := Respond(c, data).0; c2.tasks[id] == c.tasks[id] && (id in c2.inFlight <==> id in c.inFlight)
  {
    hide Parse, ContentLength;
  }
}
