/** `http_request` as written: a copy of the bytes read, cut into C strings in place, and fields that
    point into it. */
module HttpRequest {
  import opened Options
  import opened CText
  import opened RequestSpec
  import opened MultipartSpec
  import opened Ranges

  /** A `char *` field that is set; `Invalid` is what the code computes from a value without a space. */
  datatype Pointer = Invalid | To(at: nat)

  /** `now` is `was` but for bytes behind `lo`, up to `hi`, that are overwritten by NUL. */
  ghost predicate CutBehind(now: string, was: string, lo: int, hi: int) {
    |now| == |was| && forall k {:trigger now[k]} :: 0 <= k < |was| ==> now[k] == was[k] || (lo < k <= hi && now[k] == NUL)
  }

  ghost predicate Points(b: string, ptr: Pointer, f: Field, bound: int) {
    match ptr
    case Invalid => f == Wild
    case To(at) => f.Text? && PointsTo(b, at, f.value) && at + |f.value| <= bound
  }

  ghost predicate FieldsPoint(b: string, ptrs: map<string, Pointer>, fields: map<string, Field>, bound: int) {
    ptrs.Keys == fields.Keys && forall k :: k in ptrs ==> Points(b, ptrs[k], fields[k], bound)
  }

  /** Cutting behind the strings the fields point to leaves them alone. */
  lemma FieldsStay(b: string, b2: string, ptrs: map<string, Pointer>, fields: map<string, Field>, bound: int, hi: int)
    requires FieldsPoint(b, ptrs, fields, bound) && CutBehind(b2, b, bound, hi) && bound <= hi
    ensures FieldsPoint(b2, ptrs, fields, bound) && FieldsPoint(b2, ptrs, fields, hi)
  {
    forall k | k in ptrs
      ensures Points(b2, ptrs[k], fields[k], bound)
    {
      assert Points(b, ptrs[k], fields[k], bound);
    }
  }

  lemma StringStays(b: string, b2: string, at: nat, s: string, lo: int, hi: int)
    requires PointsTo(b, at, s) && CutBehind(b2, b, lo, hi) && at + |s| <= lo
    ensures PointsTo(b2, at, s)
  {
  }

  /** What follows a line stays a string when the line, which ends in a NUL, is cut. */
  lemma RestStays(b: string, b2: string, at: nat, s: string, lo: int, hi: nat)
    requires PointsTo(b, at, s) && CutBehind(b2, b, lo, hi) && hi <= at && b[hi] == NUL
    ensures PointsTo(b2, at, s)
  {
  }

  lemma {:induction false} SpaceIs(b: string, i: nat, s: string)
    requires PointsTo(b, i, s)
    ensures StrChr(b, i, ' ') == Shift(StrStr(s, " "), i)
    decreases |s|
  {
    SpaceStep(b, i, s);
    hide StrChr, StrStr;
    if s != "" && s[0] != ' ' {
      PointsOn(b, i, s, 1);
      SpaceIs(b, i + 1, s[1..]);
    }
  }

  lemma SpaceStep(b: string, i: nat, s: string)
    requires PointsTo(b, i, s)
    ensures s == "" ==> StrChr(b, i, ' ') == None && StrStr(s, " ") == None
    ensures s != "" && s[0] == ' ' ==> StrChr(b, i, ' ') == Some(i) && StrStr(s, " ") == Some(0)
    ensures s != "" && s[0] != ' ' ==>
              StrChr(b, i, ' ') == StrChr(b, i + 1, ' ') && StrStr(s, " ") == Shift(StrStr(s[1..], " "), 1)
  {
  }

  lemma ValuePoints(b: string, value: nat, text: string, bound: nat)
    requires PointsTo(b, value, text) && value + |text| <= bound
    ensures var space := StrChr(b, value, ' ');
            if space.Some? && space.value + 1 >= value + |text| then ValueOf(text) == None
            else ValueOf(text).Some?
                 && Points(b, if space.Some? then To(space.value + 1) else Invalid, ValueOf(text).value, bound)
  {
    SpaceIs(b, value, text);
    if StrStr(text, " ").Some? {
      PointsOn(b, value, text, StrStr(text, " ").value + 1);
    }
    hide StrStr, StrChr, PointsTo;
  }

  /** What `strtok_r` does to the buffer: nothing, or one NUL behind the token. */
  lemma CutOnce(b: string, b2: string, tok: int, len: nat, lo: int, hi: int)
    requires (tok < 0 && b2 == b) || (0 <= tok && tok + len < |b| && b2 == b[tok + len := NUL] && lo < tok + len <= hi)
    ensures CutBehind(b2, b, lo, hi)
  {
  }

  lemma CutWithin(b: string, b2: string, lo: int, mid: int, hi: int)
    requires CutBehind(b2, b, lo, mid) && mid <= hi
    ensures CutBehind(b2, b, lo, hi)
  {
  }

  lemma CutTwice(b: string, b2: string, b3: string, lo: int, mid: int, hi: int)
    requires CutBehind(b2, b, lo, hi) && CutBehind(b3, b2, mid, hi) && lo <= mid
    ensures CutBehind(b3, b, lo, hi)
  {
  }

  /** The buffer after a line was delimited at `tok`. */
  lemma LineCut(b: string, b2: string, tok: nat, line: string, from: nat, hi: nat, ptrs: map<string, Pointer>, fields: map<string, Field>)
    requires from <= tok < tok + |line| <= hi && tok + |line| < |b| && b2 == b[tok + |line| := NUL]
    requires FieldsPoint(b, ptrs, fields, from)
    ensures CutBehind(b2, b, from, hi) && FieldsPoint(b2, ptrs, fields, tok)
  {
    FieldsStay(b, b2, ptrs, fields, from, hi);
    forall k | k in ptrs
      ensures Points(b2, ptrs[k], fields[k], tok)
    {
      assert Points(b, ptrs[k], fields[k], from);
    }
  }

  /** The buffer after a line was parsed: what follows it is still a string. */
  lemma LineDone(b: string, b2: string, tok: nat, line: string, save: nat, rest: string, hi: nat,
                 ptrs: map<string, Pointer>, fields: map<string, Field>)
    requires PointsTo(b, tok, line) && CutBehind(b2, b, tok, tok + |line|) && PointsTo(b, save, rest)
    requires tok + |line| <= save <= hi && FieldsPoint(b2, ptrs, fields, tok + |line|)
    ensures PointsTo(b2, save, rest) && CutBehind(b2, b, tok, hi) && FieldsPoint(b2, ptrs, fields, save)
  {
    RestStays(b, b2, save, rest, tok, tok + |line|);
    forall k | k in ptrs
      ensures Points(b2, ptrs[k], fields[k], save)
    {
      assert Points(b2, ptrs[k], fields[k], tok + |line|);
    }
  }

  lemma OneLonger(b: string, i: nat, t: string)
    requires i < |b| && b[i] != NUL && PointsTo(b, i + 1, t)
    ensures PointsTo(b, i, [b[i]] + t)
  {
  }

  lemma CStrStep(data: string, i: nat)
    requires i <= |data|
    ensures CStr(data, i) == if i < |data| && data[i] != NUL then [data[i]] + CStr(data, i + 1) else ""
  {
  }

  lemma {:induction false} CStrPoints(data: string, i: nat)
    requires i <= |data|
    ensures PointsTo(data + [NUL], i, CStr(data, i))
    decreases |data| - i
  {
    CStrStep(data, i);
    hide CStr;
    if i < |data| && data[i] != NUL {
      CStrPoints(data, i + 1);
      OneLonger(data + [NUL], i, CStr(data, i + 1));
    }
  }

  /** The head is a string once a NUL is put in place of the empty line. */
  lemma Delimited(data: string)
    ensures var cs := CStr(data, 0); var c := StrStr(cs, CRLF2);
            && |cs| <= |data|
            && if c.Some? && c.value > 4 then
                 && c.value + 4 <= |cs| && PointsTo((data + [NUL])[c.value := NUL], 0, cs[..c.value])
                 && Parse(data) == WithBoundary(Head(BLANK.(content := Some(c.value + 4)), Tokens(cs[..c.value], EOL)))
               else Parse(data) == WithBoundary(Head(BLANK, Tokens(cs, EOL)))
  {
    hide CStr, StrStr, Head, WithBoundary, Tokens;
    CStrPoints(data, 0);
    CStrLength(data, 0);
  }

  lemma OnlyBoundary(r: Request)
    ensures WithBoundary(r) == r.(boundary := WithBoundary(r).boundary, boundaryLast := WithBoundary(r).boundaryLast)
  {
    hide StrStr;
  }

  lemma TailStays(b: string, b2: string, p: nat, data: string)
    requires p < |data| && b == (data + [NUL])[p := NUL] && CutBehind(b2, b, 0, p)
    ensures forall from :: p < from <= |data| ==> b2[from..|data|] == data[from..]
  {
  }

  lemma NulStays(b: string, b2: string, lo: int, hi: int, i: nat)
    requires CutBehind(b2, b, lo, hi) && i < |b| && b[i] == NUL
    ensures b2[i] == NUL
  {
  }

  lemma FieldsKept(b: string, b2: string, ptrs: map<string, Pointer>, fields: map<string, Field>, from: nat)
    requires FieldsPoint(b, ptrs, fields, from - 1) && |b2| == |b| && forall k :: 0 <= k < from && k < |b| ==> b2[k] == b[k]
    ensures FieldsPoint(b2, ptrs, fields, from - 1)
  {
    forall k | k in ptrs
      ensures Points(b2, ptrs[k], fields[k], from - 1)
    {
      assert Points(b, ptrs[k], fields[k], from - 1);
    }
  }

  lemma OneMoreField(b: string, ptrs: map<string, Pointer>, fields: map<string, Field>, bound: int, name: string, ptr: Pointer, f: Field)
    requires FieldsPoint(b, ptrs, fields, bound) && Points(b, ptr, f, bound)
    ensures FieldsPoint(b, ptrs[name := ptr], fields[name := f], bound)
  {
    hide Points;
  }

  /** One field is set if and only if it is shown, and points to its string. */
  lemma FieldShown(b: string, ptrs: map<string, Pointer>, fields: map<string, Field>, bound: int, name: string)
    requires FieldsPoint(b, ptrs, fields, bound)
    ensures name in ptrs <==> name in fields
    ensures name in ptrs ==> (ptrs[name].To? <==> fields[name].Text?)
    ensures name in ptrs && ptrs[name].To? ==>
              PointsTo(b, ptrs[name].at, fields[name].value) && ptrs[name].at + |fields[name].value| <= bound
              && ptrs[name].at + |fields[name].value| < |b|
  {
    assert name in ptrs ==> Points(b, ptrs[name], fields[name], bound);
  }

  lemma LengthIsText(r: Request)
    requires ContentLength(r).Some?
    ensures "Content-Length" in r.headers && r.headers["Content-Length"].Text?
  {
  }

  /** One round of the extraction loop. */
  lemma ExtractNext(b: string, item: nat, max: nat, boundary: string, last: string)
    requires item <= max <= |b| && boundary != "" && Extract(b, item, max, boundary, last).Some?
    ensures var r := Extract(b, item, max, boundary, last).value;
            match Find(b, item, max, boundary)
            case None => r == (b, [])
            case Some(i) =>
              var data := i + |boundary|;
              && item < data <= max
              && if data == max then r == (b, []) && Extract(b, data, max, boundary, last) == Some((b, []))
                 else
                   var next := SectionEnd(b, data, max, boundary, last);
                   && data + 3 <= next <= max
                   && var (b2, post) := Section(b, data, next, max);
                      var rest := Extract(b2, data, max, boundary, last);
                      rest.Some? && r == (rest.value.0, [post] + rest.value.1)
  {
    hide Section, SectionEnd;
  }

  class HttpRequest {
    const buff: array<char>
    var validReq: bool
    var reqType: string
    var path: string
    var subdirs: seq<string>
    var fields: map<string, Pointer>
    var content: Option<nat>
    var boundaryStr: string
    var boundaryLastStr: string
    var items: seq<PostContent>

    /** What the fields stand for. */
    ghost var request: Request

    /** The fields show `request`, and point to strings that end at `bound` or before. */
    ghost predicate Shows(bound: int)
      reads this, buff
    {
      && validReq == request.validReq && reqType == request.reqType && path == request.path && subdirs == request.subdirs
      && content == request.content && boundaryStr == request.boundary && boundaryLastStr == request.boundaryLast
      && FieldsPoint(buff[..], fields, request.headers, bound)
    }

    /** What the constructor makes of `data`: the fields show what the parser function finds in it, but that
        the boundary may be missing from a request without a body; the body is as it was, and a NUL behind it. */
    ghost predicate Built(data: string)
      reads this, buff
    {
      && buff.Length == |data| + 1 && buff[|data|] == NUL && items == [] && Shows(|data|)
      && (request == Parse(data) || (request.content.None? && request == Parse(data).(boundary := "", boundaryLast := "")))
      && (content.Some? ==>
            content.value <= |data| && buff[content.value..|data|] == data[content.value..] && Shows(content.value - 1))
    }

    /** `req_type_data_parser` on the line at `tok`. */
    method ReqTypeDataParser(tok: nat, ghost line: string)
      requires Shows(tok) && PointsTo(buff[..], tok, line)
      modifies this, buff
      ensures items == old(items)
      ensures Shows(tok + |line|) && request == RequestLine(old(request), line)
      ensures CutBehind(buff[..], old(buff[..]), tok, tok + |line|)
    {
      hide FieldsPoint, CutBehind, CStr, Tokens, MethodOf, RequestSpec.PathAndVersion;
      CStrIs(buff[..], tok, line);
      assert tok + |line| < buff.Length;
      hide PointsTo;
      var tokenStr := CStr(buff[..], tok);
      CutOnce(buff[..], buff[..], -1, 0, tok, tok + |line|);
      FieldsStay(buff[..], buff[..], fields, request.headers, tok, tok + |line|);
      var isReqType := false;
      if |tokenStr| >= 14 {
        isReqType := FindReqType(tokenStr);
      }
      if isReqType {
        request := request.(reqType := reqType);
        PointsOn(buff[..], tok, line, |reqType| + 1);
        PathAndVersion(tok + |reqType| + 1, line[|reqType| + 1..], tok);
      } else {
        validReq := false;
        request := request.(validReq := false);
      }
    }

    /** The loop over the four methods. */
    method FindReqType(tokenStr: string) returns (isReqType: bool)
      modifies this`reqType
      ensures isReqType <==> MethodOf(tokenStr) != ""
      ensures reqType == if isReqType then MethodOf(tokenStr) else old(reqType)
    {
      isReqType := false;
      var reqTypes := ["GET", "PUT", "POST", "DELETE"];
      for i := 0 to |reqTypes|
        invariant isReqType ==> MethodOf(tokenStr) == reqType != ""
        invariant !isReqType ==> reqType == old(reqType) && forall j :: 0 <= j < i ==> !StartsWith(tokenStr, reqTypes[j])
      {
        if StartsWith(tokenStr, reqTypes[i]) {
          MethodOfPrinted(reqTypes[i], tokenStr[|reqTypes[i]|..]);
          assert tokenStr == reqTypes[i] + tokenStr[|reqTypes[i]|..];
          reqType := reqTypes[i];
          isReqType := true;
        }
      }
      if !isReqType {
        assert reqTypes[0] == "GET" && reqTypes[1] == "PUT" && reqTypes[2] == "POST" && reqTypes[3] == "DELETE";
      }
    }

    /** The loop that cuts the path into directories. */
    method SplitPath(p: nat, ghost text: string)
      requires PointsTo(buff[..], p, text)
      modifies this`subdirs, buff
      ensures subdirs == old(subdirs) + Tokens(text, {'/'})
      ensures CutBehind(buff[..], old(buff[..]), p, p + |text|)
    {
      TokensNonempty(text, {'/'});
      hide Tokens, PointsTo, CutBehind;
      ghost var todo, hi, rest := Tokens(text, {'/'}), p + |text|, "";
      var tok: int, save: nat;
      tok, save, rest := Strtok(buff, p, {'/'}, text);
      CutOnce(old(buff[..]), buff[..], tok, if todo == [] then 0 else |todo[0]|, p, hi);
      while tok >= 0
        invariant Pending(buff[..], tok, save, rest, todo, {'/'})
        invariant tok >= 0 ==> p < save && save + |rest| == hi
        invariant subdirs + todo == old(subdirs) + Tokens(text, {'/'})
        invariant CutBehind(buff[..], old(buff[..]), p, hi)
        decreases |todo|
      {
        CStrIs(buff[..], tok, todo[0]);
        subdirs := subdirs + [CStr(buff[..], tok)];
        todo := todo[1..];
        ghost var b, from := buff[..], save;
        tok, save, rest := Strtok(buff, save, {'/'}, rest);
        CutOnce(b, buff[..], tok, if todo == [] then 0 else |todo[0]|, from, hi);
        CutTwice(old(buff[..]), b, buff[..], p, from, hi);
      }
    }

    method PathAndVersion(at: nat, ghost rest: string, ghost lo: nat)
      requires Shows(lo) && lo < at && PointsTo(buff[..], at, rest)
      modifies this, buff
      ensures items == old(items)
      ensures Shows(at + |rest|) && request == RequestSpec.PathAndVersion(old(request), rest)
      ensures CutBehind(buff[..], old(buff[..]), lo, at + |rest|)
    {
      hide Tokens, PointsTo, FieldsPoint, CutBehind, CStr;
      ghost var was, hi, parts := buff[..], at + |rest|, Tokens(rest, {' '});
      var p, v, save;
      ghost var left;
      p, save, left := Strtok(buff, at, {' '}, rest);
      if p < 0 {
        CutOnce(was, was, -1, 0, lo, hi);
        FieldsStay(was, was, fields, request.headers, lo, hi);
        validReq := false;
        request := request.(validReq := false);
        return;
      }
      CutOnce(was, buff[..], p, |parts[0]|, lo, hi);
      ghost var b1 := buff[..];
      v, save, left := Strtok(buff, save, {' '}, left);
      if v >= 0 {
        CutOnce(b1, buff[..], v, |parts[1]|, p + |parts[0]|, hi);
        StringStays(b1, buff[..], p, parts[0], p + |parts[0]|, hi);
        CutTwice(was, b1, buff[..], lo, p + |parts[0]|, hi);
        CStrIs(buff[..], v, parts[1]);
      }
      ghost var b2 := buff[..];
      FieldsStay(was, b2, fields, request.headers, lo, hi);
      if v < 0 || (CStr(buff[..], v) != "HTTP/1.1" && CStr(buff[..], v) != "HTTP/1.0") {
        validReq := false;
        request := request.(validReq := false);
        return;
      }
      SetPath(p, parts[0], lo, hi);
      CutTwice(was, b2, buff[..], lo, p, hi);
    }

    /** The end of `req_type_data_parser`: the path and its directories. */
    method SetPath(p: nat, ghost text: string, ghost lo: nat, ghost hi: nat)
      requires Shows(lo) && lo <= p && p + |text| <= hi && PointsTo(buff[..], p, text)
      modifies this, buff
      ensures items == old(items)
      ensures Shows(hi) && CutBehind(buff[..], old(buff[..]), p, hi)
      ensures var r := old(request);
              request == r.(path := if text == "/" then "index.html" else text, subdirs := r.subdirs + Tokens(text, {'/'}))
    {
      CStrIs(buff[..], p, text);
      assert p <= buff.Length;
      hide Tokens, PointsTo, FieldsPoint, CutBehind, CStr;
      ghost var was := buff[..];
      path := if CStr(buff[..], p) == "/" then "index.html" else CStr(buff[..], p);
      SplitPath(p, text);
      CutWithin(was, buff[..], p, p + |text|, hi);
      CutOnce(was, was, -1, 0, lo, hi);
      CutTwice(was, was, buff[..], lo, p, hi);
      FieldsStay(was, buff[..], fields, request.headers, lo, hi);
      request := request.(path := path, subdirs := subdirs);
    }

    /** `http_header_parser` on the line at `tok`. */
    method HeaderParser(tok: nat, ghost line: string)
      requires Shows(tok) && PointsTo(buff[..], tok, line)
      modifies this, buff
      ensures items == old(items)
      ensures Shows(tok + |line|) && request == HeaderLine(old(request), line)
      ensures CutBehind(buff[..], old(buff[..]), tok, tok + |line|)
    {
      hide Tokens, CutBehind;
      ghost var was, hi, parts := buff[..], tok + |line|, Tokens(line, {':'});
      CStrIs(was, tok, line);
      CutOnce(was, was, -1, 0, tok, hi);
      FieldsStay(was, was, fields, request.headers, tok, hi);
      if |CStr(buff[..], tok)| < 3 {
        return;
      }
      var key, value, save;
      ghost var rest;
      key, save, rest := Strtok(buff, tok, {':'}, line);
      if key < 0 {
        return;
      }
      CutOnce(was, buff[..], key, |parts[0]|, tok, hi);
      FieldsStay(was, buff[..], fields, request.headers, tok, hi);
      ghost var b := buff[..];
      value, save, rest := Strtok(buff, save, {':'}, rest);
      if value < 0 {
        return;
      }
      CutOnce(b, buff[..], value, |parts[1]|, key + |parts[0]|, hi);
      CutTwice(was, b, buff[..], tok, key + |parts[0]|, hi);
      FieldsStay(was, buff[..], fields, request.headers, tok, hi);
      StringStays(b, buff[..], key, parts[0], key + |parts[0]|, hi);
      SetField(key, value, parts[0], parts[1], hi);
    }

    /** The end of `http_header_parser`: the field named by the first token is set from the second. */
    method SetField(key: nat, value: nat, ghost name: string, ghost text: string, ghost bound: nat)
      requires Shows(bound) && PointsTo(buff[..], key, name) && PointsTo(buff[..], value, text) && value + |text| <= bound
      modifies this`fields, this`request
      ensures Shows(bound)
      ensures request == match ValueOf(text)
                         case None => old(request)
                         case Some(f) => if name in RECOGNISED then old(request).(headers := old(request).headers[name := f])
                                         else old(request)
    {
      hide StrChr, CStr, ValueOf, RECOGNISED, Points, FieldsPoint;
      assert key + |name| < buff.Length && value + |text| < buff.Length && buff[value + |text|] == NUL;
      hide PointsTo;
      CStrIs(buff[..], key, name);
      CStrIs(buff[..], value, text);
      ValuePoints(buff[..], value, text, bound);
      var space := Strchr(buff, value, ' ', value + |text|);
      if space.Some? && space.value + 1 >= value + |CStr(buff[..], value)| {
        return;
      }
      var ptr := if space.Some? then To(space.value + 1) else Invalid;
      if CStr(buff[..], key) in RECOGNISED {
        OneMoreField(buff[..], fields, request.headers, bound, name, ptr, ValueOf(text).value);
        fields := fields[CStr(buff[..], key) := ptr];
        request := request.(headers := request.headers[name := ValueOf(text).value]);
      }
    }

    /** The loop over the header lines that follow at `start`. */
    method HeaderLoop(start: nat, ghost text: string)
      requires Shows(start) && PointsTo(buff[..], start, text)
      modifies this, buff
      ensures items == old(items)
      ensures Shows(start + |text|) && request == HeaderLines(old(request), Tokens(text, EOL))
      ensures CutBehind(buff[..], old(buff[..]), start, start + |text|)
    {
      hide Tokens, PointsTo, HeaderLine, CutBehind, FieldsPoint;
      PointsInside(buff[..], start, text);
      ghost var was, hi, rest, todo, from := buff[..], start + |text|, text, Tokens(text, EOL), start;
      var tok: int, save: nat := 0, start;
      CutOnce(was, was, -1, 0, start, hi);
      while true
        invariant items == old(items) && start <= save && save + |rest| == hi < buff.Length && PointsTo(buff[..], save, rest)
        invariant todo == Tokens(rest, EOL)
        invariant Shows(save) && HeaderLines(request, todo) == HeaderLines(old(request), Tokens(text, EOL))
        invariant CutBehind(buff[..], was, start, hi)
        decreases |todo|
      {
        ghost var b := buff[..];
        from := save;
        tok, save, rest := Strtok(buff, save, EOL, rest);
        if tok < 0 {
          CutOnce(b, b, -1, 0, from, hi);
          FieldsStay(b, b, fields, request.headers, from, hi);
          break;
        }
        ghost var line := todo[0];
        LineCut(b, buff[..], tok, line, from, hi, fields, request.headers);
        CutTwice(was, b, buff[..], start, from, hi);
        ghost var b2 := buff[..];
        HeaderParser(tok, line);
        LineDone(b2, buff[..], tok, line, save, rest, hi, fields, request.headers);
        CutTwice(was, b2, buff[..], start, tok, hi);
        todo := todo[1..];
      }
    }

    /** The tokenizing part of the constructor, on the head `text`. */
    method ParseHead(ghost text: string)
      requires Shows(0) && PointsTo(buff[..], 0, text)
      modifies this, buff
      ensures items == old(items)
      ensures Shows(|text|) && request == Head(old(request), Tokens(text, EOL))
      ensures CutBehind(buff[..], old(buff[..]), 0, |text|)
    {
      assert |text| < buff.Length;
      hide Tokens, PointsTo, HeaderLines, RequestLine, CutBehind, FieldsPoint;
      ghost var was, lines, rest := buff[..], Tokens(text, EOL), text;
      var tok: int, save: nat;
      tok, save, rest := Strtok(buff, 0, EOL, text);
      if tok >= 0 {
        ghost var line := lines[0];
        LineCut(was, buff[..], tok, line, 0, |text|, fields, request.headers);
        ghost var b := buff[..];
        ReqTypeDataParser(tok, line);
        LineDone(b, buff[..], tok, line, save, rest, |text|, fields, request.headers);
        CutTwice(was, b, buff[..], 0, tok, |text|);
      } else {
        CutOnce(was, was, -1, 0, 0, |text|);
        CutOnce(was, was, -1, 0, 0, save);
        FieldsStay(was, was, fields, request.headers, 0, save);
        TokensNone(rest, EOL);
      }
      ghost var b := buff[..];
      HeaderLoop(save, rest);
      CutTwice(was, b, buff[..], 0, save, |text|);
    }

    /** `atoi(content_length)`, if the pointer is set. */
    method AnnouncedLength(ghost bound: int) returns (n: Option<nat>)
      requires Shows(bound) && ("Content-Length" in request.headers ==> request.headers["Content-Length"].Text?)
      ensures n == ContentLength(request)
    {
      if "Content-Length" !in fields {
        return None;
      }
      assert Points(buff[..], fields["Content-Length"], request.headers["Content-Length"], bound);
      CStrIs(buff[..], fields["Content-Length"].at, request.headers["Content-Length"].value);
      hide FieldsPoint, PointsTo, CStr, Atoi;
      return Some(ToSize(Atoi(CStr(buff[..], fields["Content-Length"].at))));
    }

    /** The boundary lines announced by the Content-Type field; the search for a space has no effect
        in the source.  `bound` is the end of the head. */
    method SetBoundary(length: nat, ghost bound: nat)
      requires Shows(bound) && bound <= length
      modifies this
      ensures items == old(items)
      ensures Shows(bound)
      ensures request == WithBoundary(old(request)) || (bound == length && request == old(request))
    {
      FieldShown(buff[..], fields, request.headers, bound, "Content-Type");
      hide FieldsPoint, PointsTo, CStr, Points, StrStr;
      if "Content-Type" in fields && fields["Content-Type"].To? {
        var at := fields["Content-Type"].at;
        ghost var v := request.headers["Content-Type"].value;
        var b := Strstr(buff, at, BOUNDARY_KEY, v);
        if b.Some? && b.value + |BOUNDARY_KEY| < length {
          var from := b.value + |BOUNDARY_KEY|;
          PointsOn(buff[..], at, v, from - at);
          CStrIs(buff[..], from, v[from - at..]);
          boundaryStr := "--" + CStr(buff[..], from);
          boundaryLastStr := boundaryStr + "--";
          boundaryStr := boundaryStr + CRLF;
          request := request.(boundary := boundaryStr, boundaryLast := boundaryLastStr);
        }
      }
    }

    /** The constructor behind the copying: `data` is what was copied. */
    method ParseBuffer(ghost data: string)
      requires buff[..] == data + [NUL] && Shows(0) && request == BLANK && items == []
      modifies this, buff
      ensures Built(data)
    {
      hide CStr, StrStr, Head, Tokens, Parse, WithBoundary, PointsTo, Points, CutBehind;
      ghost var cs, head := CStr(data, 0), CStr(data, 0);
      CStrPoints(data, 0);
      Delimited(data);
      var c := Strstr(buff, 0, CRLF2, cs);
      if c.Some? && c.value > 4 {
        buff[c.value] := NUL;
        content := Some(c.value + 4);
        request := request.(content := content);
        head := cs[..c.value];
      }
      ghost var b, r := buff[..], request;
      assert b[|data|] == NUL;
      ParseHead(head);
      NulStays(b, buff[..], 0, |head|, |data|);
      HeadKeeps(r, Tokens(head, EOL));
      OnlyBoundary(request);
      SetBoundary(buff.Length - 1, |head|);
      CutOnce(buff[..], buff[..], -1, 0, |head|, |data|);
      FieldsStay(buff[..], buff[..], fields, request.headers, |head|, |data|);
      if content.Some? {
        CutOnce(buff[..], buff[..], -1, 0, |head|, content.value - 1);
        FieldsStay(buff[..], buff[..], fields, request.headers, |head|, content.value - 1);
        TailStays(b, buff[..], |head|, data);
      }
    }

    /** The constructor copies the bytes read, if there are any; the byte behind them is taken to be NUL. */
    constructor (original: array?<char>, length: nat)
      requires original != null ==> length <= original.Length
      ensures fresh(buff) && items == []
      ensures original == null ==> request == BLANK && Shows(0)
      ensures original != null ==> Built(original[..length])
    {
      buff := new char[if original == null then 0 else length + 1](_ => NUL);
      validReq, reqType, path, subdirs, fields, content := true, "", "", [], map[], None;
      boundaryStr, boundaryLastStr, items, request := "", "", [], BLANK;
      new;
      if original != null {
        forall i | 0 <= i < length {
          buff[i] := original[i];
        }
        assert buff[..] == original[..length] + [NUL];
        ParseBuffer(original[..length]);
      }
    }

    /** One key of a section. */
    method TakeField(from: nat, upto: nat, key: string, stop: char) returns (at: Option<nat>)
      requires from <= upto < buff.Length && buff[buff.Length - 1] == NUL
      modifies buff
      ensures (buff[..], at) == Take(old(buff[..]), from, upto, key, stop)
      ensures buff[buff.Length - 1] == NUL
    {
      at := Memmem(buff, from, upto, key);
      if at.Some? {
        at := Some(at.value + |key|);
        var end := Strchr(buff, at.value, stop, buff.Length - 1);
        if end.Some? {
          buff[end.value] := NUL;
        }
      }
    }

    /** The fields of the section from `data` up to `next`. */
    method ParseSection(data: nat, next: nat, max: nat) returns (post: PostContent)
      requires data + 3 <= next <= max < buff.Length && buff[buff.Length - 1] == NUL
      modifies buff
      ensures (buff[..], post) == Section(old(buff[..]), data, next, max)
      ensures buff[buff.Length - 1] == NUL && forall k :: 0 <= k < data ==> buff[k] == old(buff[k])
    {
      hide Take, Find;
      buff[next - 2] := NUL;
      var blank := Memmem(buff, data, max, CRLF2);
      var disposition := TakeField(data, next - 3, DISPOSITION_KEY, ';');
      var name := TakeField(data, next - 3, NAME_KEY, '"');
      var filename := TakeField(data, next - 3, FILENAME_KEY, '"');
      var contentType := TakeField(data, next - 3, TYPE_KEY, '\n');
      post := NOTHING.(name := name, filename := filename, contentType := contentType, contentDisposition := disposition);
      if blank.Some? {
        var from := blank.value + 4;
        post := post.(buff := Some(from), size := ToSize(next - from - 2));
      }
    }

    method FindSectionEnd(data: nat, max: nat) returns (next: nat)
      requires data <= max <= buff.Length
      ensures next == SectionEnd(buff[..], data, max, boundaryStr, boundaryLastStr)
    {
      var found := Memmem(buff, data, max, boundaryStr);
      if found.None? {
        found := Memmem(buff, data, max, boundaryLastStr);
      }
      next := if found.Some? then found.value else max;
    }

    /** The loop of `extract_post_data_items` over the body from `start` up to `max`. */
    method ExtractItems(start: nat, max: nat)
      requires start <= max < buff.Length && buff[buff.Length - 1] == NUL && boundaryStr != ""
      requires Extract(buff[..], start, max, boundaryStr, boundaryLastStr).Some?
      modifies this`items, buff
      ensures var (b, posts) := old(Extract(buff[..], start, max, boundaryStr, boundaryLastStr).value);
              buff[..] == b && items == old(items) + posts
      ensures forall k :: 0 <= k < start ==> buff[k] == old(buff[k])
    {
      hide Section, SectionEnd, Extract, Find;
      ghost var all := Extract(buff[..], start, max, boundaryStr, boundaryLastStr).value;
      var item := start;
      var found := Memmem(buff, item, max, boundaryStr);
      while found.Some?
        invariant start <= item <= max && found == Find(buff[..], item, max, boundaryStr)
        invariant buff[buff.Length - 1] == NUL && forall k :: 0 <= k < start ==> buff[k] == old(buff[k])
        invariant var r := Extract(buff[..], item, max, boundaryStr, boundaryLastStr);
                  r.Some? && all.0 == r.value.0 && old(items) + all.1 == items + r.value.1
        decreases max - item
      {
        ExtractNext(buff[..], item, max, boundaryStr, boundaryLastStr);
        item := found.value + |boundaryStr|;
        if item < max {
          var next := FindSectionEnd(item, max);
          var post := ParseSection(item, next, max);
          items := items + [post];
        }
        found := Memmem(buff, item, max, boundaryStr);
      }
      ExtractNext(buff[..], item, max, boundaryStr, boundaryLastStr);
    }

    /** The whole body of `n` bytes is in the buffer, and none of its sections is too short. */
    ghost predicate BodyArrived(n: nat)
      reads this, buff
    {
      && content.Some? && content.value + n < buff.Length && buff[buff.Length - 1] == NUL
      && (boundaryStr != "" && n > 0 ==>
            Extract(buff[..], content.value, content.value + n - 1, boundaryStr, boundaryLastStr).Some?)
    }

    /** `extract_post_data_items` of a request whose body has arrived; `n` is the announced length.
        The source follows the Content-Length pointer and writes up to the end it announces. */
    method ExtractPostDataItems(ghost n: nat)
      requires BodyArrived(n) && Shows(content.value - 1) && ContentLength(request) == Some(n)
      modifies this`items, buff
      ensures Shows(content.value - 1)
      ensures if boundaryStr == "" || boundaryLastStr == "" || n == 0 then items == old(items) && buff[..] == old(buff[..])
              else
                var (b, posts) := old(Extract(buff[..], content.value, content.value + n - 1, boundaryStr, boundaryLastStr).value);
                buff[..] == b && items == old(items) + posts
    {
      hide Extract, FieldsPoint, Atoi, ContentLength;
      if boundaryStr == "" || boundaryLastStr == "" {
        return;
      }
      LengthIsText(request);
      var length := AnnouncedLength(content.value - 1);
      var contentLengthNum := length.value;
      if contentLengthNum == 0 {
        return;
      }
      ghost var was := buff[..];
      ExtractItems(content.value, content.value + contentLengthNum - 1);
      FieldsKept(was, buff[..], fields, request.headers, content.value);
    }
  }
}
