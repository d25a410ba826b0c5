/** What a connection hands over and when it is closed: every request is answered, waited for or refused. */
module Connections {
  import opened Options
  import opened CText
  import opened Ranges
  import opened RequestSpec
  import opened ReadSpec
  import R = RequestRoundTrip
  import P = PostReassembly
  import V = ReadRuns

  // ---------------------------------------------------------------- the three answers

  /** The bytes hold the head of a POST request that announces more than has arrived. */
  predicate Waits(data: string) {
    && Parse(data).reqType == "POST" && ContentLength(Parse(data)).Some? && HeadEnd(data).Some?
    && |data| < HeadEnd(data).value + 4 + ContentLength(Parse(data)).value
  }

  /** The bytes are a request the application can use: a valid request line, and for POST a length and as many
      bytes behind the head; without a head the length is zero. */
  predicate Usable(data: string) {
    && Parse(data).validReq
    && (Parse(data).reqType == "POST" ==>
          && ContentLength(Parse(data)).Some?
          && var n := ContentLength(Parse(data)).value;
             if HeadEnd(data).Some? then |data| >= HeadEnd(data).value + 4 + n else n == 0)
  }

  /** The length of the body is the one announced. */
  predicate Exact(data: string) {
    && Parse(data).reqType == "POST" && ContentLength(Parse(data)).Some? && HeadEnd(data).Some?
    && |data| == HeadEnd(data).value + 4 + ContentLength(Parse(data)).value
  }

  /** The reads of the connection behind a POST request of exactly the announced length. */
  function ReadAnew(c: Conn): Conn {
    c.(tasks := c.tasks + [Task(NetworkRead, READ_SIZE, "")], inFlight := c.inFlight + {|c.tasks|})
  }

  lemma RespondAnswers(c: Conn, data: string)
    ensures Respond(c, data) ==
            if Waits(data) then
              (c.(tasks := c.tasks + [Task(PostRead, ToSize(HeadEnd(data).value + 4 + ContentLength(Parse(data)).value), data)],
                  inFlight := c.inFlight + {|c.tasks|}), Growing)
            else
              var c1 := if Exact(data) && |data| != READ_SIZE then ReadAnew(c) else c;
              if Usable(data) then (c1.(delivered := c.delivered + [Delivery(data, false)]), Delivered) else (c1, Refused)
  {
    hide Parse, HeadEnd, ContentLength, ToSize;
    ContentAt(data);
    var r := Parse(data);
    if r.reqType == "POST" {
      PostAnswers(c, data);
    }
  }

  /** Where the body begins. */
  lemma ContentAt(data: string)
    ensures Parse(data).content == if HeadEnd(data).Some? then Some(HeadEnd(data).value + 4) else None
    ensures HeadEnd(data).Some? ==> HeadEnd(data).value + 4 <= |data|
  {
    hide *;
    P.ContentIsHeadEnd(data);
    if HeadEnd(data).Some? {
      R.HeadAgrees(data, "");
    }
    Shifted(HeadEnd(data), 4);
  }

  lemma Shifted(o: Option<nat>, n: nat)
    ensures Shift(o, n) == if o.Some? then Some(o.value + n) else None
  {
  }

  lemma PostAnswers(c: Conn, data: string)
    requires Parse(data).reqType == "POST"
    ensures PostPart(c, data) ==
            if Waits(data) then
              (c.(tasks := c.tasks + [Task(PostRead, ToSize(HeadEnd(data).value + 4 + ContentLength(Parse(data)).value), data)],
                  inFlight := c.inFlight + {|c.tasks|}), Some(Growing))
            else
              (if Exact(data) && |data| != READ_SIZE then ReadAnew(c) else c,
               if ContentLength(Parse(data)).None? || (HeadEnd(data).None? && ContentLength(Parse(data)).value != 0)
               then Some(Refused) else None)
  {
    hide Parse, HeadEnd, ContentLength, ToSize;
    ContentAt(data);
  }

  /** The bytes that task `id` has when `r` completes are a whole read of a request. */
  predicate Complete(t: Task, r: Result) {
    r.Got? && r.data != "" && (t.op.NetworkRead? || (t.op.PostRead? && |t.got + r.data| >= t.size))
  }

  /** What a completion hands to the application. */
  function Hands(t: Task, r: Result): seq<Delivery> {
    if r.Failed? then if t.op.NetworkRead? then [Delivery("", true)] else []
    else if Complete(t, r) && !Waits(t.got + r.data) && Usable(t.got + r.data) then [Delivery(t.got + r.data, false)]
    else []
  }

  /** What it hands to the reader of raw bytes: all that the buffer holds, when it is full or the read fails. */
  function HandsRaw(t: Task, r: Result): seq<string> {
    if !t.op.RawRead? then []
    else if r.Failed? then [t.got]
    else if r.Got? && r.data != "" && |t.got + r.data| >= t.size then [t.got + r.data]
    else []
  }

  /** The read fails, the stream ends, or the bytes are refused. */
  predicate Ends(t: Task, r: Result) {
    || r.Failed?
    || r == Got("")
    || (Complete(t, r) && !Waits(t.got + r.data) && !Usable(t.got + r.data))
  }

  /** Every completion hands over exactly what it should, and closes the connection exactly if it ends it; the read
      that ended it is not in flight any more, and no task is changed but for the reads of the next request. */
  lemma CompletionAnswers(c: Conn, id: nat, r: Result)
    requires MayHappen(c, id, r)
    ensures var t, d := c.tasks[id], ReadDone(c, id, r);
            && d.delivered == c.delivered + Hands(t, r) && d.raw == c.raw + HandsRaw(t, r)
            && d.closed == (c.closed || Ends(t, r))
            && (Ends(t, r) ==> id !in d.inFlight && c.tasks <= d.tasks)
  {
    hide Respond, Waits, Usable, Exact, ToSize, Parse, HeadEnd, ContentLength;
    var t := c.tasks[id];
    Nothing(c);
    if r.Got? && r.data != "" {
      RespondAnswers(c, t.got + r.data);
      AnsweredState(c, t.got + r.data);
    }
  }

  /** What an answer leaves of the connection. */
  lemma AnsweredState(c: Conn, data: string)
    ensures var (d, v) := Respond(c, data);
            && d.raw == c.raw && d.closed == c.closed && c.tasks <= d.tasks
            && d.delivered == c.delivered + (if v.Delivered? then [Delivery(data, false)] else [])
            && v == (if Waits(data) then Growing else if Usable(data) then Delivered else Refused)
            && (forall x :: x in d.inFlight ==> x in c.inFlight || x == |c.tasks|)
  {
    hide Respond, Waits, Usable, Exact, ToSize, Parse, HeadEnd, ContentLength;
    RespondAnswers(c, data);
    Nothing(c);
  }

  lemma Nothing(c: Conn)
    ensures c.delivered + [] == c.delivered && c.raw + [] == c.raw
  {
  }

  // ---------------------------------------------------------------- whole runs

  /** All that the completions of a run hand over, in order. */
  function Handings(c: Conn, es: seq<V.Event>): seq<Delivery>
    requires V.Feasible(c, es)
  {
    if es == [] then []
    else
      var before, e := es[..|es| - 1], es[|es| - 1];
      Handings(c, before) + Hands(V.RunAll(c, before).tasks[e.id], e.result)
  }

  function RawHandings(c: Conn, es: seq<V.Event>): seq<string>
    requires V.Feasible(c, es)
  {
    if es == [] then []
    else
      var before, e := es[..|es| - 1], es[|es| - 1];
      RawHandings(c, before) + HandsRaw(V.RunAll(c, before).tasks[e.id], e.result)
  }

  /** The completion at `i` ends the connection. */
  ghost predicate EndsAt(c: Conn, es: seq<V.Event>, i: nat) {
    && i < |es| && V.Feasible(c, es[..i]) && es[i].id < |V.RunAll(c, es[..i]).tasks|
    && Ends(V.RunAll(c, es[..i]).tasks[es[i].id], es[i].result)
  }

  lemma EndsBefore(c: Conn, es: seq<V.Event>, i: nat)
    requires i < |es| - 1
    ensures EndsAt(c, es, i) <==> EndsAt(c, es[..|es| - 1], i)
  {
    assert es[..|es| - 1][..i] == es[..i];
    hide V.Feasible, V.RunAll, Ends;
  }

  /** In every run of all reads of a connection, whatever their order: it is closed if and only if some completion
      was the end of the stream, a failure, or bytes that were refused; and what was handed to the application is,
      in order, what the completions hand over. */
  lemma {:induction false} ClosedIff(c: Conn, es: seq<V.Event>)
    requires V.Feasible(c, es) && !c.closed
    ensures V.RunAll(c, es).closed <==> exists i: nat :: EndsAt(c, es, i)
    ensures V.RunAll(c, es).delivered == c.delivered + Handings(c, es)
    ensures V.RunAll(c, es).raw == c.raw + RawHandings(c, es)
  {
    hide *;
    if es == [] {
      NoneHanded(c);
    } else {
      var before, e, n := es[..|es| - 1], es[|es| - 1], |es| - 1;
      V.RunLast(c, es);
      ClosedIff(c, before);
      var d := V.RunAll(c, before);
      CompletionAnswers(d, e.id, e.result);
      HandedLast(c, es);
      EndsLast(c, es);
      if i: nat :| EndsAt(c, before, i) {
        EndsInside(c, before, i);
        EndsBefore(c, es, i);
      }
      if i: nat :| EndsAt(c, es, i) {
        EndsInside(c, es, i);
        if i < n {
          EndsBefore(c, es, i);
        }
      }
    }
  }

  lemma NoneHanded(c: Conn)
    ensures V.RunAll(c, []) == c && Handings(c, []) == [] && RawHandings(c, []) == [] && forall i: nat :: !EndsAt(c, [], i)
    ensures c.delivered + [] == c.delivered && c.raw + [] == c.raw
  {
  }

  lemma EndsInside(c: Conn, es: seq<V.Event>, i: nat)
    requires EndsAt(c, es, i)
    ensures i < |es|
  {
  }

  lemma EndsLast(c: Conn, es: seq<V.Event>)
    requires es != [] && V.Feasible(c, es) && es[|es| - 1].id < |V.RunAll(c, es[..|es| - 1]).tasks|
    ensures EndsAt(c, es, |es| - 1) <==> Ends(V.RunAll(c, es[..|es| - 1]).tasks[es[|es| - 1].id], es[|es| - 1].result)
  {
    hide Ends, V.RunAll;
  }

  lemma HandedLast(c: Conn, es: seq<V.Event>)
    requires es != [] && V.Feasible(c, es)
    ensures var before, e := es[..|es| - 1], es[|es| - 1];
            && V.Feasible(c, before) && MayHappen(V.RunAll(c, before), e.id, e.result)
            && var t := V.RunAll(c, before).tasks[e.id];
               && c.delivered + Handings(c, es) == c.delivered + Handings(c, before) + Hands(t, e.result)
               && c.raw + RawHandings(c, es) == c.raw + RawHandings(c, before) + HandsRaw(t, e.result)
  {
    hide Hands, HandsRaw, V.RunAll;
  }

  // ---------------------------------------------------------------- requests that are not POST

  /** The state behind a request that is handed over by a network read: the same read is in flight again. */
  function AnsweredBy(c: Conn, data: string): Conn {
    c.(delivered := c.delivered + [Delivery(data, false)])
  }

  function ClosedBy(c: Conn, id: nat): Conn {
    c.(closed := true, inFlight := c.inFlight - {id})
  }

  /** The first read of a request of any other method: it is handed over as exactly its bytes if and only if its
      request line is valid, and the same read goes on with an empty buffer; otherwise the connection is closed. */
  lemma OtherMethods(c: Conn, id: nat, data: string)
    requires id in c.inFlight && id < |c.tasks| && c.tasks[id].op.NetworkRead? && c.tasks[id].got == ""
    requires data != "" && Parse(data).reqType != "POST"
    ensures ReadDone(c, id, Got(data)) == if Parse(data).validReq then AnsweredBy(c, data) else ClosedBy(c, id)
  {
    RespondAnswers(c, data);
    assert "" + data == data;
    assert c.tasks[id := c.tasks[id]] == c.tasks && c.inFlight + {id} == c.inFlight;
    hide Parse, Respond;
  }

  /** A POST request without a length is refused, whatever else it holds. */
  lemma PostWithoutLength(c: Conn, id: nat, data: string)
    requires id in c.inFlight && id < |c.tasks| && c.tasks[id].op.NetworkRead? && c.tasks[id].got == ""
    requires data != "" && Parse(data).reqType == "POST" && ContentLength(Parse(data)).None?
    ensures ReadDone(c, id, Got(data)) == ClosedBy(c, id)
  {
    RespondAnswers(c, data);
    assert "" + data == data;
    hide Parse, Respond;
  }

  /** A printed request that is not a POST: it is handed over, and the same read goes on, if and only if its request
      line is understood; otherwise the connection is closed. */
  lemma PrintedAnswered(c: Conn, id: nat, words: seq<string>, hs: seq<R.Header>, body: string)
    requires id in c.inFlight && id < |c.tasks| && c.tasks[id].op.NetworkRead? && c.tasks[id].got == ""
    requires R.AllWords(words) && R.AllPrintable(hs) && (words != [] ==> !("POST" <= words[0]))
    ensures var data := R.PrintLine(Join(words, " "), hs, body);
            ReadDone(c, id, Got(data)) == if R.Understood(words) then AnsweredBy(c, data) else ClosedBy(c, id)
  {
    hide *;
    R.HasWords(words);
    R.ValidIff(words, hs, body);
    R.PrintedBody(Join(words, " "), hs, body);
    OtherMethods(c, id, R.PrintLine(Join(words, " "), hs, body));
  }

  /** So every GET, PUT and DELETE request of the two versions is handed over. */
  lemma PlainRequestAnswered(c: Conn, id: nat, m: string, path: string, version: string, hs: seq<R.Header>, body: string)
    requires id in c.inFlight && id < |c.tasks| && c.tasks[id].op.NetworkRead? && c.tasks[id].got == ""
    requires m in METHODS && m != "POST" && R.Plain(path, ' ') && version in R.VERSIONS && R.AllPrintable(hs)
    ensures ReadDone(c, id, Got(R.Print(m, path, version, hs, body))) == AnsweredBy(c, R.Print(m, path, version, hs, body))
  {
    var data := R.Print(m, path, version, hs, body);
    R.RequestRoundTrip(m, path, version, hs, body);
    PrintedSome(m, path, version, hs, body);
    hide R.Print, Parse, ReadDone, Tokens, R.LastValues;
    OtherMethods(c, id, data);
  }

  lemma PrintedSome(m: string, path: string, version: string, hs: seq<R.Header>, body: string)
    ensures R.Print(m, path, version, hs, body) != ""
  {
    R.PrintedBody(R.FirstLine(m, path, version), hs, body);
  }

  /** A printed POST request whose headers hold no length is refused. */
  lemma PrintedPostWithoutLength(c: Conn, id: nat, path: string, version: string, hs: seq<R.Header>, body: string)
    requires id in c.inFlight && id < |c.tasks| && c.tasks[id].op.NetworkRead? && c.tasks[id].got == ""
    requires R.Plain(path, ' ') && version in R.VERSIONS && R.AllPrintable(hs)
    requires forall h :: h in hs ==> h.key != "Content-Length"
    ensures ReadDone(c, id, Got(R.Print("POST", path, version, hs, body))) == ClosedBy(c, id)
  {
    var data := R.Print("POST", path, version, hs, body);
    NoLength(map[], hs);
    R.RequestRoundTrip("POST", path, version, hs, body);
    PrintedSome("POST", path, version, hs, body);
    hide R.Print, Parse, ReadDone, Tokens, R.LastValues;
    PostWithoutLength(c, id, data);
  }

  lemma {:induction false} NoLength(fields: map<string, Field>, hs: seq<R.Header>)
    requires "Content-Length" !in fields && forall h :: h in hs ==> h.key != "Content-Length"
    ensures "Content-Length" !in R.LastValues(fields, hs)
    decreases |hs|
  {
    if hs != [] {
      var v := R.UpToColon(hs[0].value);
      assert hs[0] in hs;
      NoLength(if hs[0].key in RECOGNISED && v != "" then fields[hs[0].key := Text(v)] else fields, hs[1..]);
    }
  }
}
