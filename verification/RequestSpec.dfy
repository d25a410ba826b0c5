/** What the constructor of `http_request` makes of a buffer, as a function of its bytes. */
module RequestSpec {
  import opened Options
  import opened CText
  import opened Ranges

  /** A `char *` field: null, or the string it points to.  `Wild` is the pointer the code makes from a
      value without a space, which must not be followed. */
  datatype Field = Wild | Text(value: string)

  /** `headers` holds the fields the code sets for the names it recognises, `content` the offset of
      the body.  `boundary` and `boundaryLast` are meant for requests with a body. */
  datatype Request = Request(
    validReq: bool, reqType: string, path: string, subdirs: seq<string>, headers: map<string, Field>,
    content: Option<nat>, boundary: string, boundaryLast: string)

  const BLANK := Request(true, "", "", [], map[], None, "", "")

  const EOL: set<char> := {'\r', '\n'}

  const RECOGNISED: set<string> := {
    "Host", "User-Agent", "Accept", "Accept-Language", "Accept-Encoding", "Content-Length", "Content-Type", "DNT",
    "Connection", "Upgrade-Insecure-Requests", "Upgrade", "Sec-WebSocket-Key", "X-Forwarded-For", "Range"
  }

  // ---------------------------------------------------------------- the request line

  /** The method whose name the line begins with; no two of the four share a beginning. */
  function MethodOf(line: string): (m: string)
    ensures StartsWith(line, m) && (m == "" || 3 <= |m| <= 6)
  {
    if StartsWith(line, "GET") then "GET"
    else if StartsWith(line, "PUT") then "PUT"
    else if StartsWith(line, "POST") then "POST"
    else if StartsWith(line, "DELETE") then "DELETE"
    else ""
  }

  const METHODS: set<string> := {"GET", "PUT", "POST", "DELETE"}

  lemma MethodOfPrinted(m: string, rest: string)
    requires m in METHODS
    ensures MethodOf(m + rest) == m
  {
    var line := m + rest;
    assert line[..|m|] == m;
    assert line[0] == m[0] && line[1] == m[1];
    assert StartsWith(line, "GET") ==> line[0] == line[..3][0] == 'G';
    assert StartsWith(line, "PUT") ==> line[0] == line[..3][0] == 'P' && line[1] == line[..3][1] == 'U';
    assert StartsWith(line, "POST") ==> line[0] == line[..4][0] == 'P';
  }

  /** `req_type_data_parser`. */
  function RequestLine(r: Request, line: string): Request {
    var m := MethodOf(line);
    if |line| < 14 || m == "" then r.(validReq := false)
    else PathAndVersion(r.(reqType := m), line[|m| + 1..])
  }

  /** The part of the line behind the method. */
  function PathAndVersion(r: Request, rest: string): Request {
    var parts := Tokens(rest, {' '});
    if |parts| < 2 || (parts[1] != "HTTP/1.1" && parts[1] != "HTTP/1.0") then r.(validReq := false)
    else r.(path := if parts[0] == "/" then "index.html" else parts[0], subdirs := r.subdirs + Tokens(parts[0], {'/'}))
  }

  // ---------------------------------------------------------------- header lines

  /** What a field is set to from the token behind the colon: the text behind its first space. */
  function ValueOf(text: string): Option<Field> {
    match StrStr(text, " ")
    case None => Some(Wild)
    case Some(i) => if i + 1 >= |text| then None else Some(Text(text[i + 1..]))
  }

  /** The name of a header line and what its field is set to, if anything. */
  function HeaderOf(line: string): Option<(string, Field)> {
    var parts := Tokens(line, {':'});
    if |line| < 3 || |parts| < 2 then None
    else match ValueOf(parts[1])
      case None => None
      case Some(f) => Some((parts[0], f))
  }

  /** `http_header_parser`: a later line of the same name wins. */
  function HeaderLine(r: Request, line: string): Request {
    match HeaderOf(line)
    case None => r
    case Some((key, value)) => if key in RECOGNISED then r.(headers := r.headers[key := value]) else r
  }

  function HeaderLines(r: Request, lines: seq<string>): Request
    decreases |lines|
  {
    if lines == [] then r else HeaderLines(HeaderLine(r, lines[0]), lines[1..])
  }

  /** The request line and the header lines behind it. */
  function Head(r: Request, lines: seq<string>): Request {
    if lines == [] then r else HeaderLines(RequestLine(r, lines[0]), lines[1..])
  }

  lemma {:induction false} LinesKeep(r: Request, lines: seq<string>)
    ensures var q := HeaderLines(r, lines); q.content == r.content && q.boundary == r.boundary && q.boundaryLast == r.boundaryLast
    decreases |lines|
  {
    if lines != [] {
      LinesKeep(HeaderLine(r, lines[0]), lines[1..]);
    }
  }

  lemma HeadKeeps(r: Request, lines: seq<string>)
    ensures var q := Head(r, lines); q.content == r.content && q.boundary == r.boundary && q.boundaryLast == r.boundaryLast
  {
    if lines != [] {
      LinesKeep(RequestLine(r, lines[0]), lines[1..]);
    }
  }

  /** `atoi(content_length)` as a `size_t`, if the header is there. */
  function ContentLength(r: Request): Option<nat> {
    if "Content-Length" in r.headers && r.headers["Content-Length"].Text? then
      Some(ToSize(Atoi(r.headers["Content-Length"].value)))
    else None
  }

  // ---------------------------------------------------------------- the whole buffer

  const BOUNDARY_KEY: string := "boundary="

  /** The boundary lines announced by the Content-Type field. */
  function WithBoundary(r: Request): Request {
    if "Content-Type" in r.headers && r.headers["Content-Type"].Text? then
      var v := r.headers["Content-Type"].value;
      match StrStr(v, BOUNDARY_KEY)
      case None => r
      case Some(i) =>
        var b := "--" + v[i + |BOUNDARY_KEY|..];
        r.(boundary := b + CRLF, boundaryLast := b + "--")
    else r
  }

  /** The end of the head, if the buffer holds all of it: an empty line that is not too close to the start. */
  function HeadEnd(data: string): Option<nat> {
    match StrStr(CStr(data, 0), CRLF2)
    case None => None
    case Some(p) => if p > 4 then Some(p) else None
  }

  /** The constructor. */
  function Parse(data: string): Request {
    match HeadEnd(data)
    case Some(p) => WithBoundary(Head(BLANK.(content := Some(p + 4)), Tokens(CStr(data, 0)[..p], EOL)))
    case None => WithBoundary(Head(BLANK, Tokens(CStr(data, 0), EOL)))
  }
}
