/** From chunks on a connection to the parts of a posted form: the pieces put together. */
module Upload {
  import opened Options
  import opened CText
  import opened Ranges
  import opened RequestSpec
  import E = MultipartEncoding
  import opened ReadSpec
  import M = MultipartRoundTrip
  import R = RequestRoundTrip
  import P = PostReassembly
  import V = ReadRuns
  import H = HttpRequest
  import X = MultipartSpec
  import D = RangeRoundTrip

  // ---------------------------------------------------------------- the head of a prefix

  lemma {:induction false} StrStrShortens(s: string, t: string, p: string)
    requires StrStr(s + t, p).Some? && StrStr(s + t, p).value + |p| <= |s|
    ensures StrStr(s, p) == StrStr(s + t, p)
  {
    if |p| <= |s| {
      assert s[..|p|] == (s + t)[..|p|];
    }
    if !StartsWith(s + t, p) {
      assert (s + t)[1..] == s[1..] + t;
      StrStrShortens(s[1..], t, p);
    }
  }

  lemma {:induction false} CStrShortens(s: string, more: string, i: nat, n: nat)
    requires i <= |s| && n <= |CStr(s + more, i)| && i + n <= |s|
    ensures n <= |CStr(s, i)|
    decreases n
  {
    if n > 0 {
      CStrShortens(s, more, i + 1, n - 1);
    }
  }

  /** A prefix that reaches behind the empty line has the same head end. */
  lemma HeadEndOfPrefix(first: string, more: string)
    requires HeadEnd(first + more).Some? && HeadEnd(first + more).value + 4 <= |first|
    ensures HeadEnd(first) == HeadEnd(first + more)
  {
    var p, cs, cs2 := HeadEnd(first + more).value, CStr(first, 0), CStr(first + more, 0);
    CStrShortens(first, more, 0, p + 4);
    R.CStrExtends(first, more, 0);
    assert cs2 == cs + cs2[|cs|..];
    StrStrShortens(cs, cs2[|cs|..], CRLF2);
    hide StrStr, CStr;
  }

  // ---------------------------------------------------------------- a posted form

  const FORM_TYPE: string := "multipart/form-data; boundary="

  /** The headers announce the length of the body and the boundary `b`. */
  ghost predicate FormHeaders(hs: seq<R.Header>, n: nat, b: string) {
    && R.AllPrintable(hs)
    && var fields := R.LastValues(map[], hs);
       && "Content-Length" in fields && fields["Content-Length"] == Text(D.Dec(n))
       && "Content-Type" in fields && fields["Content-Type"] == Text(FORM_TYPE + b)
  }

  lemma BoundaryFound(b: string)
    ensures |FORM_TYPE| == 30 && |BOUNDARY_KEY| == 9 && StrStr(FORM_TYPE + b, BOUNDARY_KEY) == Some(21)
  {
    var a := "multipart/form-data; ";
    assert FORM_TYPE + b == a + (BOUNDARY_KEY + b);
    assert forall k :: 0 <= k < |a| ==> a[k] != 'b';
    assert StartsWith(BOUNDARY_KEY + b, BOUNDARY_KEY);
    R.SkipPlain(a, BOUNDARY_KEY + b, BOUNDARY_KEY);
  }

  lemma FormBoundary(r: Request, b: string)
    requires "Content-Type" in r.headers && r.headers["Content-Type"] == Text(FORM_TYPE + b)
    ensures var q := WithBoundary(r);
            && q.headers == r.headers && q.content == r.content && q.validReq == r.validReq && q.reqType == r.reqType
            && q.boundary == E.Boundary(b) && q.boundaryLast == E.LastBoundary(b)
  {
    BoundaryFound(b);
    var v := FORM_TYPE + b;
    assert v[30..] == b;
    assert "--" + b + CRLF == E.Boundary(b) && "--" + b + "--" == E.LastBoundary(b);
    hide StrStr, FORM_TYPE, BOUNDARY_KEY;
  }

  /** What the parser finds in a printed form request. */
  lemma FormParses(path: string, version: string, hs: seq<R.Header>, body: string, b: string)
    requires R.Plain(path, ' ') && version in R.VERSIONS
    requires |body| <= INT_MAX && FormHeaders(hs, |body|, b)
    ensures var data := R.Print("POST", path, version, hs, body); var r := Parse(data);
            && r.boundary == E.Boundary(b) && r.boundaryLast == E.LastBoundary(b)
            && ContentLength(r) == Some(|body|) && r.reqType == "POST" && r.validReq
            && HeadEnd(data).Some? && HeadEnd(data).value + 4 + |body| == |data| && data[HeadEnd(data).value + 4..] == body
  {
    var data := R.Print("POST", path, version, hs, body);
    var line := R.FirstLine("POST", path, version);
    var head := Join(R.Lines(line, hs), CRLF);
    hide R.PrintLine, R.FirstLine, R.Lines, Join, CStr, Tokens, Head, HeadEnd, StrStr, R.LastValues, Atoi;
    R.LinePlain("POST", path, version);
    R.PrintedHeadEnd(line, hs, body);
    R.PrintedBody(line, hs, body);
    var q := Head(BLANK.(content := Some(|head| + 4)), Tokens(head, EOL));
    R.PrintedHead(BLANK.(content := Some(|head| + 4)), "POST", path, version, hs);
    assert Parse(data) == WithBoundary(q);
    FormBoundary(q, b);
    D.AtoiDec(|body|);
    hide WithBoundary;
  }

  /** A form request that can be written down and that the code can hold. */
  ghost predicate Form(path: string, version: string, hs: seq<R.Header>, parts: seq<E.Part>, b: string) {
    && R.Plain(path, ' ') && version in R.VERSIONS
    && M.Encodable(parts, b) && |E.Encoded(parts, b)| <= INT_MAX && FormHeaders(hs, |E.Encoded(parts, b)|, b)
    && |R.Print("POST", path, version, hs, E.Encoded(parts, b))| < SIZE_MAX
  }

  /** A printed form is sent to the server in chunks, the first of which reaches behind the head.  It is handed
      over at once if that is all of it; else it is handed over exactly when its bytes have arrived, in every
      run, if and only if its first read was the only one in flight. */
  lemma UploadArrives(c: Conn, id: nat, first: string,
                      path: string, version: string, hs: seq<R.Header>, parts: seq<E.Part>, b: string)
    requires V.Idle(c) && id in c.inFlight && id < |c.tasks| && c.tasks[id].op.NetworkRead?
    requires Form(path, version, hs, parts, b)
    requires first <= R.Print("POST", path, version, hs, E.Encoded(parts, b)) && |first| >= |R.Print("POST", path, version, hs, "")|
    ensures var data, c1 := R.Print("POST", path, version, hs, E.Encoded(parts, b)), ReadDone(c, id, Got(first));
            if first == data then c1.delivered == c.delivered + [Delivery(data, false)] && c1.closed == c.closed
            else V.HandedOver(c, c1, first, data) <==> c.inFlight == {id}
  {
    hide *;
    var n, data := |E.Encoded(parts, b)|, R.Print("POST", path, version, hs, E.Encoded(parts, b));
    FormFacts(path, version, hs, parts, b);
    FormParses(path, version, hs, E.Encoded(parts, b), b);
    HeadLength(path, version, hs, E.Encoded(parts, b));
    assert first + data[|first|..] == data;
    PrefixAnnounces(first, data[|first|..], n);
    V.IdleRead(c, id);
    if first == data {
      WholeFirst(c, id, first, n);
    } else {
      V.ReassembledIff(c, id, first, n, data);
    }
  }

  /** Whatever other reads are in flight: a form whose further bytes all go to the task that waits for them is
      handed over. */
  lemma UploadToOneTask(c: Conn, id: nat, first: string, rs: seq<Result>,
                        path: string, version: string, hs: seq<R.Header>, parts: seq<E.Part>, b: string)
    requires id < |c.tasks| && c.tasks[id].op.NetworkRead? && c.tasks[id].got == "" && id in c.inFlight
    requires Form(path, version, hs, parts, b) && first + Stream(rs) == R.Print("POST", path, version, hs, E.Encoded(parts, b))
    requires Chunks(rs) && rs != [] && rs[|rs| - 1].Got? && |first| >= |R.Print("POST", path, version, hs, "")|
    ensures |c.tasks| < |ReadDone(c, id, Got(first)).tasks|
    ensures var data, c2 := first + Stream(rs), Feed(ReadDone(c, id, Got(first)), |c.tasks|, rs);
            c2.delivered == c.delivered + [Delivery(data, false)] && c2.closed == c.closed
  {
    hide *;
    var n := |E.Encoded(parts, b)|;
    FormFacts(path, version, hs, parts, b);
    FormParses(path, version, hs, E.Encoded(parts, b), b);
    HeadLength(path, version, hs, E.Encoded(parts, b));
    PrefixAnnounces(first, Stream(rs), n);
    P.StreamPrefix(rs, |rs| - 1);
    P.Reassembled(c, id, first, rs, n);
  }

  lemma FormFacts(path: string, version: string, hs: seq<R.Header>, parts: seq<E.Part>, b: string)
    requires Form(path, version, hs, parts, b)
    ensures R.Plain(path, ' ') && version in R.VERSIONS && M.Encodable(parts, b)
    ensures |E.Encoded(parts, b)| <= INT_MAX && FormHeaders(hs, |E.Encoded(parts, b)|, b)
    ensures |R.Print("POST", path, version, hs, E.Encoded(parts, b))| < SIZE_MAX
  {
  }

  lemma WholeFirst(c: Conn, id: nat, first: string, n: nat)
    requires id < |c.tasks| && c.tasks[id].op.NetworkRead? && c.tasks[id].got == ""
    requires first != "" && P.Announces(first, n) && P.Total(first, n) == |first|
    ensures var c1 := ReadDone(c, id, Got(first)); c1.delivered == c.delivered + [Delivery(first, false)] && c1.closed == c.closed
  {
    hide Handle, P.Announces, P.Total;
    assert "" + first == first;
    P.WholeRequest(c, id, first, n);
  }

  // ---------------------------------------------------------------- the parts of a form that has arrived

  /** Each item gives back its part from the buffer `buff`. */
  ghost predicate AllRecovered(buff: string, parts: seq<E.Part>, items: seq<X.PostContent>) {
    |items| == |parts| && forall i :: 0 <= i < |parts| ==> M.Recovers(buff, parts[i], items[i])
  }

  /** Extraction from the buffer a request was parsed in, whatever was cut up in its head and whatever
      byte follows the body. */
  lemma PartsRecovered(buff: string, h: nat, parts: seq<E.Part>, b: string)
    requires M.Encodable(parts, b) && h + |E.Encoded(parts, b)| <= |buff| <= SIZE_MAX
    requires buff[h..h + |E.Encoded(parts, b)|] == E.Encoded(parts, b)
    ensures M.ExtractsBack(buff, h, h, h + |E.Encoded(parts, b)| - 1, parts, b)
  {
    hide *;
    var n := |E.Encoded(parts, b)|;
    assert buff == buff[..h] + buff[h..h + n] + buff[h + n..];
    M.MultipartRoundTrip(buff[..h], parts, b, buff[h + n..]);
  }

  /** What is known of a request built from a printed form. */
  lemma FormBuilt(req: H.HttpRequest, path: string, version: string, hs: seq<R.Header>, parts: seq<E.Part>, b: string)
    requires Form(path, version, hs, parts, b)
    requires req.Built(R.Print("POST", path, version, hs, E.Encoded(parts, b)))
    ensures var n := |E.Encoded(parts, b)|;
            && req.content.Some? && n > 0 && req.content.value + n + 1 == req.buff.Length <= SIZE_MAX
            && req.buff[req.buff.Length - 1] == NUL && req.items == []
            && req.buff[req.content.value..req.content.value + n] == E.Encoded(parts, b)
            && req.boundaryStr == E.Boundary(b) && req.boundaryLastStr == E.LastBoundary(b)
            && ContentLength(req.request) == Some(n) && req.Shows(req.content.value - 1)
  {
    hide R.Print, E.Encoded, Parse, ContentLength, HeadEnd, FormHeaders, M.Encodable, H.FieldsPoint;
    FormParses(path, version, hs, E.Encoded(parts, b), b);
    P.ContentIsHeadEnd(R.Print("POST", path, version, hs, E.Encoded(parts, b)));
  }

  /** The item list and the buffer that extraction promises. */
  lemma Promised(buff: string, h: nat, max: nat, parts: seq<E.Part>, b: string)
    requires M.ExtractsBack(buff, h, h, max, parts, b)
    ensures h <= max <= |buff|
    ensures var r := X.Extract(buff, h, max, E.Boundary(b), E.LastBoundary(b));
            r.Some? && AllRecovered(r.value.0, parts, r.value.1)
  {
    hide M.Recovers, X.Extract;
  }

  lemma ReadyToExtract(req: H.HttpRequest, n: nat)
    requires req.content.Some? && n > 0 && req.content.value + n < req.buff.Length && req.buff[req.buff.Length - 1] == NUL
    requires req.boundaryStr != ""
    requires X.Extract(req.buff[..], req.content.value, req.content.value + n - 1, req.boundaryStr, req.boundaryLastStr).Some?
    ensures req.BodyArrived(n)
  {
  }

  /** The application extracts the data of a form from the request it was handed: one item per part, in order,
      each of which gives back its part. */
  method ExtractForm(req: H.HttpRequest, ghost path: string, ghost version: string, ghost hs: seq<R.Header>,
                     ghost parts: seq<E.Part>, ghost b: string)
    requires Form(path, version, hs, parts, b)
    requires req.Built(R.Print("POST", path, version, hs, E.Encoded(parts, b)))
    modifies req`items, req.buff
    ensures AllRecovered(req.buff[..], parts, req.items) && (req.content.Some? ==> req.Shows(req.content.value - 1))
  {
    hide *;
    ghost var n := |E.Encoded(parts, b)|;
    FormFacts(path, version, hs, parts, b);
    FormBuilt(req, path, version, hs, parts, b);
    PartsRecovered(req.buff[..], req.content.value, parts, b);
    Promised(req.buff[..], req.content.value, req.content.value + n - 1, parts, b);
    ReadyToExtract(req, n);
    ghost var r := X.Extract(req.buff[..], req.content.value, req.content.value + n - 1, E.Boundary(b), E.LastBoundary(b)).value;
    assert [] + r.1 == r.1;
    req.ExtractPostDataItems(n);
  }

  /** A form that has arrived: its request is built, and its parts are extracted. */
  method ReceiveForm(data: array<char>, size: nat, ghost path: string, ghost version: string, ghost hs: seq<R.Header>,
                     ghost parts: seq<E.Part>, ghost b: string) returns (req: H.HttpRequest)
    requires size <= data.Length && Form(path, version, hs, parts, b)
    requires data[..size] == R.Print("POST", path, version, hs, E.Encoded(parts, b))
    ensures fresh(req) && fresh(req.buff) && AllRecovered(req.buff[..], parts, req.items)
  {
    hide *;
    req := new H.HttpRequest(data, size);
    ExtractForm(req, path, version, hs, parts, b);
  }

  /** The first part of a request announces what the whole of it does. */
  lemma PrefixAnnounces(first: string, more: string, n: nat)
    requires var r := Parse(first + more);
             && HeadEnd(first + more).Some? && HeadEnd(first + more).value + 4 <= |first|
             && HeadEnd(first + more).value + 4 + n == |first + more| <= SIZE_MAX
             && r.reqType == "POST" && r.validReq && ContentLength(r) == Some(n)
    ensures P.Announces(first, n) && P.Total(first, n) == |first + more| && first != ""
    ensures Parse(first + more).content == Some(|first + more| - n)
  {
    hide HeadEnd, Parse, ContentLength, StrStr, CStr;
    HeadEndOfPrefix(first, more);
    R.HeadAgrees(first, more);
  }

  lemma HeadLength(path: string, version: string, hs: seq<R.Header>, body: string)
    ensures |R.Print("POST", path, version, hs, body)| == |R.Print("POST", path, version, hs, "")| + |body|
  {
    hide R.Lines, Join;
  }
}
