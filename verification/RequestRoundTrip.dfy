/** Printing a request by section 3 of RFC 7230 and parsing it back; a complete head is parsed alike
    whatever follows it. */
module RequestRoundTrip {
  import opened Options
  import opened CText
  import opened RequestSpec

  datatype Header = Header(key: string, value: string)

  /** Nonempty and free of NUL and line breaks. */
  ghost predicate OneLine(s: string) {
    s != "" && forall k :: 0 <= k < |s| ==> s[k] != NUL && s[k] != '\r' && s[k] != '\n'
  }

  /** In one line and free of `c`. */
  ghost predicate Plain(s: string, c: char) {
    OneLine(s) && c !in s
  }

  ghost predicate Printable(h: Header) {
    Plain(h.key, ':') && OneLine(h.value)
  }

  ghost predicate AllPrintable(hs: seq<Header>) {
    forall i :: 0 <= i < |hs| ==> Printable(hs[i])
  }

  function FirstLine(m: string, path: string, version: string): string {
    Join([m, path, version], " ")
  }

  function HeaderText(h: Header): string {
    h.key + ": " + h.value
  }

  function Lines(line: string, hs: seq<Header>): (r: seq<string>)
    ensures |r| == 1 + |hs|
  {
    [line] + seq(|hs|, i requires 0 <= i < |hs| => HeaderText(hs[i]))
  }

  function PrintLine(line: string, hs: seq<Header>, body: string): string {
    Join(Lines(line, hs), CRLF) + CRLF2 + body
  }

  function Print(m: string, path: string, version: string, hs: seq<Header>, body: string): string {
    PrintLine(FirstLine(m, path, version), hs, body)
  }

  /** What the code keeps of the value of a header. */
  function UpToColon(v: string): string {
    if v == "" || v[0] == ':' then "" else [v[0]] + UpToColon(v[1..])
  }

  /** The value of the last header of each recognised name, up to its first colon; one that begins with a colon
      is skipped. */
  function LastValues(fields: map<string, Field>, hs: seq<Header>): map<string, Field>
    decreases |hs|
  {
    if hs == [] then fields
    else
      var v := UpToColon(hs[0].value);
      LastValues(if hs[0].key in RECOGNISED && v != "" then fields[hs[0].key := Text(v)] else fields, hs[1..])
  }

  // ---------------------------------------------------------------- the request line

  const VERSIONS: set<string> := {"HTTP/1.0", "HTTP/1.1"}

  ghost predicate AllWords(words: seq<string>) {
    words != [] && forall i :: 0 <= i < |words| ==> Plain(words[i], ' ')
  }

  /** The words behind the method `m` that the first word begins with: the code skips one character and goes on
      with what is left of that word. */
  function Behind(words: seq<string>, m: string): seq<string>
    requires words != []
  {
    (if |words[0]| <= |m| + 1 then [] else [words[0][|m| + 1..]]) + words[1..]
  }

  /** A path, a version and possibly more. */
  predicate Accepted(words: seq<string>) {
    |words| >= 2 && words[1] in VERSIONS
  }

  /** The line is long enough, begins with one of the four methods, and has a version of HTTP in the right place. */
  predicate Understood(words: seq<string>) {
    words != [] && |Join(words, " ")| >= 14 && exists m :: m in METHODS && m <= words[0] && Accepted(Behind(words, m))
  }

  lemma {:induction false} WordsPlain(words: seq<string>)
    requires AllWords(words)
    ensures TokenLike(Join(words, " "), EOL) && NUL !in Join(words, " ")
    ensures words[0] <= Join(words, " ")
    ensures |words| > 1 ==> |words[0]| < |Join(words, " ")| && Join(words, " ")[|words[0]|] == ' '
  {
    if |words| > 1 {
      WordsPlain(words[1..]);
    }
  }

  /** Printed words begin with a method if and only if the first one does. */
  lemma MethodOfWords(words: seq<string>)
    requires AllWords(words)
    ensures var m := MethodOf(Join(words, " "));
            if m == "" then forall x :: x in METHODS ==> !(x <= words[0])
            else m in METHODS && m <= words[0] && forall x :: x in METHODS && x <= words[0] ==> x == m
  {
    var line, w := Join(words, " "), words[0];
    WordsPlain(words);
    hide Join;
    forall x | x in METHODS
      ensures StartsWith(line, x) <==> x <= w
      ensures StartsWith(line, x) ==> MethodOf(line) == x
    {
      PrefixOfWord(line, w, x);
      if StartsWith(line, x) {
        assert line == x + line[|x|..];
        MethodOfPrinted(x, line[|x|..]);
      }
    }
    assert StartsWith(line, MethodOf(line));
  }

  lemma PrefixOfWord(line: string, w: string, x: string)
    requires w <= line && (|w| < |line| ==> line[|w|] == ' ') && ' ' !in x
    ensures StartsWith(line, x) <==> x <= w
  {
    if |w| < |x| <= |line| {
      assert line[..|x|][|w|] == ' ' && x[|w|] in x;
    }
  }

  /** A word and what follows it behind one space. */
  lemma WordTail(w: string, rest: string, n: nat)
    ensures n <= |w| ==> (w + " " + rest)[n..] == w[n..] + (" " + rest)
    ensures n == |w| + 1 ==> n <= |w + " " + rest| && (w + " " + rest)[n..] == rest
    ensures "" + (" " + rest) == " " + rest
  {
  }

  lemma TailTokens(tail: string, rest: string)
    requires tail == "" || TokenLike(tail, {' '})
    ensures Tokens(tail + (" " + rest), {' '}) == (if tail == "" then [] else [tail]) + Tokens(rest, {' '})
  {
    hide Tokens;
    TokensSkipAll(" ", rest, {' '});
    if tail == "" {
      WordTail(tail, rest, 0);
    } else {
      TokensFirst(tail, " " + rest, {' '});
    }
  }

  lemma OneToken(tail: string)
    requires tail == "" || TokenLike(tail, {' '})
    ensures Tokens(tail, {' '}) == if tail == "" then [] else [tail]
  {
    hide Tokens;
    TokensNone("", {' '});
    if tail != "" {
      assert tail + "" == tail;
      TokensFirst(tail, "", {' '});
    }
  }

  lemma PlainTail(w: string, n: nat)
    requires Plain(w, ' ') && n <= |w|
    ensures w[n..] == "" || TokenLike(w[n..], {' '})
  {
  }

  lemma JoinWords(words: seq<string>)
    requires words != []
    ensures Join(words, " ") == if |words| == 1 then words[0] else words[0] + " " + Join(words[1..], " ")
  {
  }

  lemma WordsBehind(words: seq<string>, m: string)
    requires AllWords(words) && m <= words[0] && |m| < |Join(words, " ")|
    ensures Tokens(Join(words, " ")[|m| + 1..], {' '}) == Behind(words, m)
  {
    hide Tokens, Join, TokenLike, OneLine;
    var w, rest, n := words[0], Join(words[1..], " "), |m| + 1;
    JoinWords(words);
    RestTokens(words);
    if |words| == 1 {
      PlainTail(w, n);
      OneToken(w[n..]);
      assert words[1..] == [];
    } else if n <= |w| {
      PlainTail(w, n);
      WordTail(w, rest, n);
      TailTokens(w[n..], rest);
    } else {
      WordTail(w, rest, n);
    }
  }

  lemma RestTokens(words: seq<string>)
    requires AllWords(words)
    ensures Tokens(Join(words[1..], " "), {' '}) == words[1..]
  {
    TokensOfJoin(words[1..], " ", {' '});
    hide Tokens, Join;
  }

  /** The request line is valid if and only if it is understood. */
  lemma LineValidIff(r: Request, words: seq<string>)
    requires AllWords(words)
    ensures RequestLine(r, Join(words, " ")).validReq <==> r.validReq && Understood(words)
    ensures RequestLine(r, Join(words, " ")).reqType ==
            if |Join(words, " ")| < 14 || MethodOf(Join(words, " ")) == "" then r.reqType else MethodOf(Join(words, " "))
  {
    hide *;
    var line := Join(words, " ");
    MethodOfWords(words);
    var m := MethodOf(line);
    HasWords(words);
    UnderstoodIff(words, m);
    if |line| >= 14 && m != "" {
      WordsBehind(words, m);
      LineVerdict(r, line, m, Behind(words, m));
    } else {
      LineRefused(r, line);
    }
  }

  lemma LineVerdict(r: Request, line: string, m: string, parts: seq<string>)
    requires MethodOf(line) == m != "" && |line| >= 14 && Tokens(line[|m| + 1..], {' '}) == parts
    ensures RequestLine(r, line).reqType == m && (RequestLine(r, line).validReq <==> r.validReq && Accepted(parts))
  {
    hide MethodOf, Tokens;
  }

  lemma LineRefused(r: Request, line: string)
    requires |line| < 14 || MethodOf(line) == ""
    ensures RequestLine(r, line) == r.(validReq := false)
  {
    hide MethodOf;
  }

  lemma HasWords(words: seq<string>)
    requires AllWords(words)
    ensures words != []
  {
  }

  lemma UnderstoodIff(words: seq<string>, m: string)
    requires words != []
    requires if m == "" then forall x :: x in METHODS ==> !(x <= words[0])
             else m in METHODS && m <= words[0] && forall x :: x in METHODS && x <= words[0] ==> x == m
    ensures Understood(words) <==> |Join(words, " ")| >= 14 && m != "" && Accepted(Behind(words, m))
  {
    hide Join, Accepted, Behind;
  }

  // ---------------------------------------------------------------- lines

  lemma LinePlain(m: string, path: string, version: string)
    requires m in METHODS && Plain(path, ' ') && version in VERSIONS
    ensures AllWords([m, path, version])
    ensures |FirstLine(m, path, version)| == |m| + |path| + |version| + 2 >= 14
    ensures TokenLike(FirstLine(m, path, version), EOL) && NUL !in FirstLine(m, path, version)
  {
    WordsPlain([m, path, version]);
    JoinThree(m, path, version);
    hide FirstLine;
  }

  lemma JoinThree(a: string, b: string, c: string)
    ensures FirstLine(a, b, c) == a + " " + (b + " " + c)
  {
    assert [a, b, c][1..] == [b, c] && [b, c][1..] == [c];
    assert Join([c], " ") == c && Join([b, c], " ") == b + " " + c;
    hide Join;
  }

  lemma FirstLineParses(r: Request, m: string, path: string, version: string)
    requires m in METHODS && Plain(path, ' ') && version in VERSIONS && r.subdirs == []
    ensures RequestLine(r, FirstLine(m, path, version)) ==
            r.(reqType := m, path := if path == "/" then "index.html" else path, subdirs := Tokens(path, {'/'}))
  {
    hide *;
    LinePlain(m, path, version);
    FirstLineWords(m, path, version);
    WordsBehind([m, path, version], m);
    LineMeans(r, FirstLine(m, path, version), m, path, version);
  }

  lemma FirstLineWords(m: string, path: string, version: string)
    requires m in METHODS
    ensures FirstLine(m, path, version) == Join([m, path, version], " ") && MethodOf(FirstLine(m, path, version)) == m != ""
    ensures |m| + 1 <= |FirstLine(m, path, version)|
    ensures m <= [m, path, version][0] && Behind([m, path, version], m) == [path, version]
  {
    hide MethodOf;
    JoinThree(m, path, version);
    MethodOfPrinted(m, " " + (path + " " + version));
    ThreeWords(m, path, version);
  }

  lemma ThreeWords(m: string, path: string, version: string)
    ensures m + " " + (path + " " + version) == m + (" " + (path + " " + version))
    ensures [m, path, version][1..] == [path, version] && [] + [path, version] == [path, version]
  {
  }

  lemma LineMeans(r: Request, line: string, m: string, path: string, version: string)
    requires MethodOf(line) == m != "" && |line| >= 14 && |m| + 1 <= |line|
    requires Tokens(line[|m| + 1..], {' '}) == [path, version] && version in VERSIONS && r.subdirs == []
    ensures RequestLine(r, line) ==
            r.(reqType := m, path := if path == "/" then "index.html" else path, subdirs := Tokens(path, {'/'}))
  {
    hide MethodOf, Tokens;
    assert r.subdirs + Tokens(path, {'/'}) == Tokens(path, {'/'});
  }

  lemma {:induction false} ColonSplits(v: string)
    ensures UpToColon(v) <= v && ':' !in UpToColon(v)
    ensures |UpToColon(v)| < |v| ==> v[|UpToColon(v)|] == ':'
    ensures ':' !in v ==> UpToColon(v) == v
  {
    if v != "" && v[0] != ':' {
      ColonSplits(v[1..]);
    }
  }

  /** A printed header line gives back its name and its value up to the first colon; a value that begins with a
      colon is not set. */
  lemma HeaderParses(h: Header)
    requires Printable(h)
    ensures HeaderOf(HeaderText(h)) == if UpToColon(h.value) == "" then None else Some((h.key, Text(UpToColon(h.value))))
    ensures ':' !in h.value ==> HeaderOf(HeaderText(h)) == Some((h.key, Text(h.value)))
  {
    hide Tokens, HeaderText, StrStr, UpToColon;
    ColonSplits(h.value);
    HeaderTokens(h);
    HeaderOneLine(h);
    if UpToColon(h.value) != "" {
      SpaceFirst(UpToColon(h.value));
    } else {
      SpaceAlone();
      assert " " + "" == " ";
    }
  }

  /** A value that follows its colon without any space makes the field a pointer that must not be followed. */
  lemma NoSpaceIsWild(key: string, value: string)
    requires Plain(key, ':') && OneLine(value) && value[0] != ':' && ' ' !in UpToColon(value)
    ensures HeaderOf(key + ":" + value) == Some((key, Wild))
  {
    hide Tokens, StrStr;
    ColonSplits(value);
    var v := UpToColon(value);
    var rest := value[|v|..];
    assert key + ":" + value == key + (":" + (v + rest));
    TokensFirst(key, ":" + (v + rest), {':'});
    TokensSkipAll(":", v + rest, {':'});
    TokensFirst(v, rest, {':'});
    NoSpace(v);
  }

  lemma {:induction false} NoSpace(v: string)
    requires ' ' !in v
    ensures StrStr(v, " ") == None
  {
    if v == "" {
      StrStrNone(" ");
    } else {
      assert v[..1][0] == v[0];
      NoSpace(v[1..]);
      StrStrTail(v, " ");
    }
  }

  lemma SpaceAlone()
    ensures ValueOf(" ") == None
  {
    assert StartsWith(" ", " ");
  }

  lemma HeaderTokens(h: Header)
    requires Printable(h)
    ensures var parts := Tokens(HeaderText(h), {':'}); |parts| >= 2 && parts[0] == h.key && parts[1] == " " + UpToColon(h.value)
  {
    hide Tokens, UpToColon;
    ColonSplits(h.value);
    var v := UpToColon(h.value);
    var rest := h.value[|v|..];
    HeaderSplits(h, v, rest);
    TokensFirst(h.key, ":" + (" " + v + rest), {':'});
    TokensSkipAll(":", " " + v + rest, {':'});
    TokensFirst(" " + v, rest, {':'});
  }

  lemma HeaderSplits(h: Header, v: string, rest: string)
    requires v <= h.value && rest == h.value[|v|..]
    ensures HeaderText(h) == h.key + (":" + (" " + v + rest))
  {
    assert h.value == v + rest;
    assert ": " == ":" + " ";
  }

  lemma SpaceFirst(v: string)
    requires v != ""
    ensures ValueOf(" " + v) == Some(Text(v))
  {
    var value := " " + v;
    assert value[1..] == v;
    assert StartsWith(value, " ");
  }

  lemma HeaderOneLine(h: Header)
    requires Printable(h)
    ensures TokenLike(HeaderText(h), EOL) && NUL !in HeaderText(h) && |HeaderText(h)| >= 3
  {
  }

  lemma {:induction false} HeadersParse(r: Request, hs: seq<Header>)
    requires AllPrintable(hs)
    ensures HeaderLines(r, seq(|hs|, i requires 0 <= i < |hs| => HeaderText(hs[i])))
            == r.(headers := LastValues(r.headers, hs))
    decreases |hs|
  {
    if hs != [] {
      var lines := seq(|hs|, i requires 0 <= i < |hs| => HeaderText(hs[i]));
      HeaderParses(hs[0]);
      assert lines[1..] == seq(|hs[1..]|, i requires 0 <= i < |hs[1..]| => HeaderText(hs[1..][i]));
      HeadersParse(HeaderLine(r, lines[0]), hs[1..]);
    }
  }

  // ---------------------------------------------------------------- the end of the head

  lemma StartsDifferently(s: string, p: string)
    requires s != "" && p != "" && s[0] != p[0]
    ensures StrStr(s, p) == Shift(StrStr(s[1..], p), 1)
  {
    assert !StartsWith(s, p) by {
      if |p| <= |s| {
        assert s[..|p|][0] == s[0];
      }
    }
    StrStrTail(s, p);
    hide StrStr;
  }

  lemma {:induction false} SkipPlain(a: string, s: string, p: string)
    requires p != "" && forall k :: 0 <= k < |a| ==> a[k] != p[0]
    ensures StrStr(a + s, p) == Shift(StrStr(s, p), |a|)
  {
    hide StrStr;
    if a == "" {
      assert a + s == s;
    } else {
      var all := a + s;
      assert all[1..] == a[1..] + s;
      StartsDifferently(all, p);
      SkipPlain(a[1..], s, p);
    }
  }

  lemma SkipBreak(s: string)
    requires s != "" && s[0] != '\r'
    ensures StrStr(CRLF + s, CRLF2) == Shift(StrStr(s, CRLF2), 2)
  {
    var all := CRLF + s;
    if |all| >= 4 {
      assert all[..4][2] == s[0] && CRLF2[2] == '\r';
    }
    assert all[1..] == "\n" + s;
    StartsDifferently("\n" + s, CRLF2);
    assert ("\n" + s)[1..] == s;
  }

  lemma FoundAtOnce(p: string, tail: string)
    ensures StrStr(p + tail, p) == Some(0)
  {
    assert (p + tail)[..|p|] == p;
  }

  lemma {:induction false} FirstEmptyLine(lines: seq<string>, tail: string)
    requires lines != [] && forall i :: 0 <= i < |lines| ==> TokenLike(lines[i], EOL)
    ensures StrStr(Join(lines, CRLF) + (CRLF2 + tail), CRLF2) == Some(|Join(lines, CRLF)|)
    ensures Join(lines, CRLF) != "" && Join(lines, CRLF)[0] != '\r'
  {
    hide StrStr, StartsWith;
    var rest := if |lines| == 1 then "" else Join(lines[1..], CRLF);
    if |lines| == 1 {
      FoundAtOnce(CRLF2, tail);
      SkipPlain(lines[0], CRLF2 + tail, CRLF2);
    } else {
      FirstEmptyLine(lines[1..], tail);
      var after := rest + (CRLF2 + tail);
      assert Join(lines, CRLF) + (CRLF2 + tail) == lines[0] + (CRLF + after);
      SkipPlain(lines[0], CRLF + after, CRLF2);
      SkipBreak(after);
    }
  }

  lemma {:induction false} CStrSplit(a: string, s: string, i: nat)
    requires i <= |a| && NUL !in a
    ensures CStr(a + s, i) == a[i..] + CStr(s, 0)
    decreases |a| - i
  {
    if i < |a| {
      assert (a + s)[i] == a[i] && a[i] in a;
      CStrSplit(a, s, i + 1);
    } else {
      CStrShift(a, s, 0);
    }
  }

  lemma {:induction false} CStrShift(a: string, s: string, j: nat)
    requires j <= |s|
    ensures CStr(a + s, |a| + j) == CStr(s, j)
    decreases |s| - j
  {
    if j < |s| && s[j] != NUL {
      CStrShift(a, s, j + 1);
    }
  }

  lemma JoinNoNul(lines: seq<string>)
    requires forall i :: 0 <= i < |lines| ==> NUL !in lines[i]
    ensures NUL !in Join(lines, CRLF)
  {
  }

  /** What a first line is made of. */
  ghost predicate PlainLine(line: string) {
    TokenLike(line, EOL) && NUL !in line
  }

  lemma LinesPlain(line: string, hs: seq<Header>)
    requires PlainLine(line) && AllPrintable(hs)
    ensures var ls := Lines(line, hs); forall i :: 0 <= i < |ls| ==> TokenLike(ls[i], EOL) && NUL !in ls[i]
  {
    var ls := Lines(line, hs);
    forall i | 0 <= i < |ls|
      ensures TokenLike(ls[i], EOL) && NUL !in ls[i]
    {
      if i > 0 {
        HeaderOneLine(hs[i - 1]);
      }
    }
  }

  lemma PrintedCStr(line: string, hs: seq<Header>, body: string)
    requires PlainLine(line) && AllPrintable(hs)
    ensures CStr(PrintLine(line, hs, body), 0) == Join(Lines(line, hs), CRLF) + (CRLF2 + CStr(body, 0))
  {
    hide CStr, Lines, HeaderText, Join;
    var lines := Lines(line, hs);
    var head := Join(lines, CRLF);
    LinesPlain(line, hs);
    JoinNoNul(lines);
    assert PrintLine(line, hs, body) == (head + CRLF2) + body;
    CStrSplit(head + CRLF2, body, 0);
    assert (head + CRLF2)[0..] == head + CRLF2;
  }

  /** The head of a printed request ends where its lines end, unless they are all too short. */
  lemma PrintedHeadEnd(line: string, hs: seq<Header>, body: string)
    requires PlainLine(line) && AllPrintable(hs)
    ensures var head, data := Join(Lines(line, hs), CRLF), PrintLine(line, hs, body);
            && HeadEnd(data) == (if |head| > 4 then Some(|head|) else None)
            && |line| <= |head| <= |CStr(data, 0)| && CStr(data, 0)[..|head|] == head
  {
    hide CStr, Lines, HeaderText, StrStr, Join, PrintLine;
    var head := Join(Lines(line, hs), CRLF);
    LinesPlain(line, hs);
    PrintedCStr(line, hs, body);
    FirstEmptyLine(Lines(line, hs), CStr(body, 0));
    FirstLineInside(line, hs);
    assert (head + (CRLF2 + CStr(body, 0)))[..|head|] == head;
  }

  lemma FirstLineInside(line: string, hs: seq<Header>)
    ensures line <= Join(Lines(line, hs), CRLF)
  {
  }

  /** Parsing a printed request recovers its method, path, directories, the last value of each recognised
      header up to its first colon, and a body that starts exactly where it was put. */
  lemma RequestRoundTrip(m: string, path: string, version: string, hs: seq<Header>, body: string)
    requires m in METHODS && Plain(path, ' ') && version in VERSIONS && AllPrintable(hs)
    ensures var data := Print(m, path, version, hs, body); var r := Parse(data);
            && r.validReq && r.reqType == m && r.path == (if path == "/" then "index.html" else path)
            && r.subdirs == Tokens(path, {'/'}) && r.headers == LastValues(map[], hs)
            && r.content.Some? && r.content.value <= |data| && data[r.content.value..] == body
  {
    hide HeadEnd, Tokens, Head, PrintLine, Lines, Join, Parse, CStr, FirstLine;
    var line := FirstLine(m, path, version);
    var head := Join(Lines(line, hs), CRLF);
    LinePlain(m, path, version);
    PrintedHeadEnd(line, hs, body);
    PrintedHead(BLANK.(content := Some(|head| + 4)), m, path, version, hs);
    PrintedBody(line, hs, body);
    ParseWhole(PrintLine(line, hs, body), head);
  }

  lemma PrintedBody(line: string, hs: seq<Header>, body: string)
    ensures var head, data := Join(Lines(line, hs), CRLF), PrintLine(line, hs, body);
            |head| + 4 <= |data| && data[|head| + 4..] == body
  {
    hide Join, Lines;
  }

  /** Where the fields come from once the head is found; the boundary is derived from them. */
  lemma ParseWhole(data: string, head: string)
    requires HeadEnd(data) == Some(|head|) && |head| <= |CStr(data, 0)| && CStr(data, 0)[..|head|] == head
    ensures var r, h := Parse(data), Head(BLANK.(content := Some(|head| + 4)), Tokens(head, EOL));
            r == h.(boundary := r.boundary, boundaryLast := r.boundaryLast)
  {
    hide HeadEnd, Tokens, Head, CStr;
  }

  lemma PrintedHead(r: Request, m: string, path: string, version: string, hs: seq<Header>)
    requires m in METHODS && Plain(path, ' ') && version in VERSIONS && AllPrintable(hs)
    requires r.subdirs == [] && r.headers == map[]
    ensures Head(r, Tokens(Join(Lines(FirstLine(m, path, version), hs), CRLF), EOL)) ==
            r.(reqType := m, path := if path == "/" then "index.html" else path, subdirs := Tokens(path, {'/'}),
                   headers := LastValues(map[], hs))
  {
    LinePlain(m, path, version);
    FirstLineParses(r, m, path, version);
    PrintedLines(r, FirstLine(m, path, version), hs);
    hide Head, RequestLine, Tokens, FirstLine, Lines, Join, LastValues;
  }

  lemma PrintedLines(r: Request, line: string, hs: seq<Header>)
    requires PlainLine(line) && AllPrintable(hs)
    ensures var q := RequestLine(r, line);
            Head(r, Tokens(Join(Lines(line, hs), CRLF), EOL)) == q.(headers := LastValues(q.headers, hs))
  {
    var lines := Lines(line, hs);
    LinesPlain(line, hs);
    TokensOfJoin(lines, CRLF, EOL);
    HeadersParse(RequestLine(r, line), hs);
    assert lines[1..] == seq(|hs|, i requires 0 <= i < |hs| => HeaderText(hs[i]));
    hide Tokens, HeaderLines, RequestLine, LastValues;
  }

  /** In every request, whole or not, the boundary lines are made from the text behind the first `boundary=` of its
      Content-Type, and there are none without that header. */
  lemma BoundaryOf(data: string, before: string, b: string)
    requires StrStr(before + BOUNDARY_KEY + b, BOUNDARY_KEY) == Some(|before|)
    ensures var r := Parse(data);
            && ("Content-Type" !in r.headers ==> r.boundary == "" && r.boundaryLast == "")
            && ("Content-Type" in r.headers && r.headers["Content-Type"] == Text(before + BOUNDARY_KEY + b) ==>
                  r.boundary == "--" + b + CRLF && r.boundaryLast == "--" + b + "--")
  {
    hide *;
    var r := ParsedFields(data);
    BehindKey(before, b);
    BoundaryKeeps(r);
    if "Content-Type" in r.headers && r.headers["Content-Type"] == Text(before + BOUNDARY_KEY + b) {
      BoundaryFrom(r, before + BOUNDARY_KEY + b, |before|, b);
    }
  }

  /** The fields before the boundary lines are made. */
  lemma ParsedFields(data: string) returns (r: Request)
    ensures Parse(data) == WithBoundary(r) && r.boundary == "" && r.boundaryLast == ""
  {
    hide CStr, Tokens, Head, StrStr, WithBoundary;
    match HeadEnd(data)
    case Some(p) =>
      HeadKeeps(BLANK.(content := Some(p + 4)), Tokens(CStr(data, 0)[..p], EOL));
      r := Head(BLANK.(content := Some(p + 4)), Tokens(CStr(data, 0)[..p], EOL));
    case None =>
      HeadKeeps(BLANK, Tokens(CStr(data, 0), EOL));
      r := Head(BLANK, Tokens(CStr(data, 0), EOL));
  }

  lemma BehindKey(before: string, b: string)
    ensures |before| + |BOUNDARY_KEY| <= |before + BOUNDARY_KEY + b|
    ensures (before + BOUNDARY_KEY + b)[|before| + |BOUNDARY_KEY|..] == b
  {
  }

  lemma BoundaryFrom(r: Request, v: string, i: nat, b: string)
    requires "Content-Type" in r.headers && r.headers["Content-Type"] == Text(v)
    requires StrStr(v, BOUNDARY_KEY) == Some(i) && v[i + |BOUNDARY_KEY|..] == b
    ensures WithBoundary(r).boundary == "--" + b + CRLF && WithBoundary(r).boundaryLast == "--" + b + "--"
  {
    hide StrStr, BOUNDARY_KEY, CRLF;
    var q := "--" + b;
    assert WithBoundary(r).boundary == q + CRLF;
    assert WithBoundary(r).boundaryLast == q + "--";
  }

  lemma BoundaryKeeps(r: Request)
    ensures WithBoundary(r).headers == r.headers && ("Content-Type" !in r.headers ==> WithBoundary(r) == r)
  {
    hide StrStr;
  }

  // ---------------------------------------------------------------- which requests are valid

  lemma {:induction false} HeadersKeepLine(r: Request, lines: seq<string>)
    ensures var q := HeaderLines(r, lines); q.validReq == r.validReq && q.reqType == r.reqType
    decreases |lines|
  {
    if lines != [] {
      HeadersKeepLine(HeaderLine(r, lines[0]), lines[1..]);
    }
  }

  /** The first line alone decides validity and method. */
  lemma FirstLineDecides(line: string, hs: seq<Header>, body: string)
    requires PlainLine(line) && AllPrintable(hs)
    ensures var r, q := Parse(PrintLine(line, hs, body)), RequestLine(BLANK, line);
            r.validReq == q.validReq && r.reqType == q.reqType
  {
    hide CStr, Lines, Join, PrintLine, RequestLine, HeadEnd, Tokens, HeaderLines, StrStr;
    var head, data := Join(Lines(line, hs), CRLF), PrintLine(line, hs, body);
    PrintedHeadEnd(line, hs, body);
    PrintedCStr(line, hs, body);
    var r := if |head| > 4 then BLANK.(content := Some(|head| + 4)) else BLANK;
    var text := if |head| > 4 then head else CStr(data, 0);
    LineFirst(line, hs, if |head| > 4 then "" else CRLF2 + CStr(body, 0));
    assert head + "" == head;
    var lines := Tokens(text, EOL);
    assert lines != [] && lines[0] == line;
    HeadersKeepLine(RequestLine(r, line), lines[1..]);
    ContentApart(line, r.content);
    assert Parse(data) == WithBoundary(Head(r, lines));
    KeepsLine(Head(r, lines));
  }

  lemma KeepsLine(r: Request)
    ensures WithBoundary(r).validReq == r.validReq && WithBoundary(r).reqType == r.reqType
  {
    hide StrStr;
  }

  lemma ContentApart(line: string, content: Option<nat>)
    ensures var q, r := RequestLine(BLANK.(content := content), line), RequestLine(BLANK, line);
            q.validReq == r.validReq && q.reqType == r.reqType
  {
    hide Tokens, MethodOf;
  }

  /** Whatever follows the lines, the first token is the first line. */
  lemma LineFirst(line: string, hs: seq<Header>, rest: string)
    requires PlainLine(line) && AllPrintable(hs) && (rest == "" || rest[0] in EOL)
    ensures var lines := Tokens(Join(Lines(line, hs), CRLF) + rest, EOL); lines != [] && lines[0] == line
  {
    var all := Join(Lines(line, hs), CRLF) + rest;
    var tail := all[|line|..];
    FirstLineInside(line, hs);
    assert all == line + tail;
    assert |hs| > 0 ==> Join(Lines(line, hs), CRLF) == line + CRLF + Join(Lines(line, hs)[1..], CRLF);
    hide Tokens, Lines;
    TokensFirst(line, tail, EOL);
  }

  /** A printed request is valid if and only if its first line is understood, whatever its headers and its body
      are. */
  lemma ValidIff(words: seq<string>, hs: seq<Header>, body: string)
    requires AllWords(words) && AllPrintable(hs)
    ensures var line := Join(words, " "); var r := Parse(PrintLine(line, hs, body));
            && (r.validReq <==> Understood(words))
            && (r.reqType == "POST" <==> |line| >= 14 && "POST" <= words[0])
  {
    hide Parse, PrintLine, Join, RequestLine, Understood;
    WordsPlain(words);
    FirstLineDecides(Join(words, " "), hs, body);
    LineValidIff(BLANK, words);
    MethodOfWords(words);
    assert "POST" in METHODS;
  }

  // ---------------------------------------------------------------- extensions of a buffer

  lemma {:induction false} StrStrExtends(s: string, t: string, p: string)
    requires StrStr(s, p).Some?
    ensures StrStr(s + t, p) == StrStr(s, p)
  {
    var i := StrStr(s, p).value;
    assert s[i..i + |p|] == p;
    if i == 0 {
      assert (s + t)[..|p|] == s[..|p|];
    } else {
      assert (s + t)[..|p|] == s[..|p|];
      assert (s + t)[1..] == s[1..] + t;
      StrStrExtends(s[1..], t, p);
    }
  }

  lemma {:induction false} CStrExtends(s: string, more: string, i: nat)
    requires i <= |s|
    ensures CStr(s, i) <= CStr(s + more, i)
    decreases |s| - i
  {
    if i < |s| && s[i] != NUL {
      CStrExtends(s, more, i + 1);
    }
  }

  lemma HeadEndAgrees(data: string, more: string)
    requires HeadEnd(data).Some?
    ensures HeadEnd(data + more) == HeadEnd(data)
    ensures var cs, cs2, p := CStr(data, 0), CStr(data + more, 0), HeadEnd(data).value;
            p + 4 <= |cs| <= |data| && |cs| <= |cs2| && cs2[..p] == cs[..p]
  {
    var cs, cs2 := CStr(data, 0), CStr(data + more, 0);
    CStrExtends(data, more, 0);
    CStrLength(data, 0);
    assert cs2 == cs + cs2[|cs|..];
    StrStrExtends(cs, cs2[|cs|..], CRLF2);
    hide StrStr, CStr;
    var p := HeadEnd(data).value;
    assert cs2[..p] == cs[..p];
  }

  /** Once a buffer holds the whole head, everything the parser finds stays the same however the
      buffer is extended. */
  lemma HeadAgrees(data: string, more: string)
    requires HeadEnd(data).Some?
    ensures Parse(data + more) == Parse(data) && HeadEnd(data + more) == HeadEnd(data)
    ensures Parse(data).content == Some(HeadEnd(data).value + 4) && HeadEnd(data).value + 4 <= |data|
  {
    hide CStr, Tokens, Head, HeadEnd;
    HeadEndAgrees(data, more);
    var p := HeadEnd(data).value;
    HeadKeeps(BLANK.(content := Some(p + 4)), Tokens(CStr(data, 0)[..p], EOL));
  }
}
