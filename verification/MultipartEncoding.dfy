/** Form data in the syntax of section 4 of RFC 7578 and section 5.1.1 of RFC 2046. */
module MultipartEncoding {
  import opened Options
  import opened CText
  import opened MultipartSpec

  /** A part without a file name is an ordinary field of the form. */
  datatype Part = Part(name: string, filename: Option<string>, contentType: Option<string>, body: string)

  const NAME_START: string := "Content-Disposition: form-data; name=\""
  const FILENAME_START: string := "\"; filename=\""

  /** Free of NUL, line breaks and quotes. */
  predicate Quotable(s: string) {
    forall k :: 0 <= k < |s| ==> s[k] != NUL && s[k] != '\r' && s[k] != '\n' && s[k] != '"'
  }

  predicate OneLine(s: string) {
    forall k :: 0 <= k < |s| ==> s[k] != NUL && s[k] != '\r' && s[k] != '\n'
  }

  ghost predicate Contains(s: string, p: string) {
    exists i: nat :: At(s, i, p)
  }

  ghost predicate PrintableNames(p: Part) {
    Quotable(p.name) && (p.filename.Some? ==> Quotable(p.filename.value))
  }

  /** A part that can be written down. */
  ghost predicate Printable(p: Part) {
    PrintableNames(p) && (p.contentType.Some? ==> OneLine(p.contentType.value))
  }

  /** Neither name holds the text of the Content-Type key. */
  ghost predicate PlainNames(p: Part) {
    !Contains(p.name, TYPE_KEY) && (p.filename.Some? ==> !Contains(p.filename.value, TYPE_KEY))
  }

  /** Where the body holds the text of the Content-Type key, short of its last byte. */
  function BodyKey(p: Part): (r: Option<nat>)
    ensures r.Some? ==> r.value + |TYPE_KEY| <= |p.body|
  {
    if p.body == "" then None else Find(p.body, 0, |p.body| - 1, TYPE_KEY)
  }

  /** The line feed of the body that is overwritten when that text is taken for the header: there has
      to be no other occurrence of it in the section. */
  ghost function Damage(p: Part): Option<nat> {
    if p.contentType.Some? || !PlainNames(p) || BodyKey(p).None? then None
    else StrChr(p.body, BodyKey(p).value + |TYPE_KEY|, '\n')
  }

  // A part without a file name: its key is searched behind the name.

  /** What follows the names. */
  function Tail(p: Part): string {
    TypeLine(p) + CRLF2 + p.body
  }

  /** Where a text is taken for a file name. */
  function TailKey(p: Part): (r: Option<nat>)
    ensures r.Some? ==> r.value + |FILENAME_KEY| <= |Tail(p)|
  {
    if p.filename.Some? then None else Find(Tail(p), 0, |Tail(p)| - 1, FILENAME_KEY)
  }

  /** The quote that is overwritten to delimit it. */
  function TailQuote(p: Part): Option<nat> {
    match TailKey(p)
    case None => None
    case Some(i) => StrChr(Tail(p), i + |FILENAME_KEY|, '"')
  }

  lemma QuoteInTail(p: Part)
    requires TailQuote(p).Some?
    ensures p.filename.None? && TailQuote(p).value < |Tail(p)| && Tail(p)[TailQuote(p).value] == '"'
    ensures TailQuote(p).value < |TypeLine(p)| ==>
              p.contentType.Some? && 16 <= TailQuote(p).value && |TypeLine(p)| == 16 + |p.contentType.value|
    ensures TailQuote(p).value >= |TypeLine(p)| ==> |TypeLine(p)| + 4 <= TailQuote(p).value
  {
    TypeKeyText();
    TypeKeyNoQuote();
    hide TYPE_KEY, Find, StrChr;
  }

  lemma TypeKeyNoQuote()
    ensures |TYPE_KEY| == 14 && forall k :: 0 <= k < 14 ==> TYPE_KEY[k] != '"'
  {
  }

  /** The part that the buffer holds once a file name was searched for: a quote of the media type or of the
      body is missing if that text was found. */
  function Searched(p: Part): (q: Part)
    ensures q.name == p.name && q.filename == p.filename && |q.body| == |p.body| && (q.contentType.Some? <==> p.contentType.Some?)
    ensures |TypeLine(q)| == |TypeLine(p)|
  {
    match TailQuote(p)
    case None => p
    case Some(i) =>
      QuoteInTail(p);
      if i < |TypeLine(p)| then p.(contentType := Some(p.contentType.value[i - 16 := NUL]))
      else p.(body := p.body[i - |TypeLine(p)| - 4 := NUL])
  }

  /** The content of the part survives the search for a file name and for a media type. */
  ghost predicate Intact(p: Part) {
    Searched(p).body == p.body && Damage(Searched(p)).None?
  }

  function TypeLine(p: Part): string {
    match p.contentType
    case None => ""
    case Some(t) => CRLF + TYPE_KEY + t
  }

  /** What ends the name, and the file name if there is one. */
  function FilePart(p: Part): string {
    match p.filename
    case None => "\""
    case Some(f) => FILENAME_START + f + "\""
  }

  function HeadText(p: Part): string {
    NAME_START + p.name + FilePart(p) + TypeLine(p)
  }

  function SectionText(p: Part): string {
    HeadText(p) + CRLF2 + p.body + CRLF
  }

  function Boundary(b: string): (r: string)
    ensures |r| == |b| + 4
  {
    "--" + b + CRLF
  }

  function LastBoundary(b: string): (r: string)
    ensures |r| == |b| + 4
  {
    "--" + b + "--"
  }

  function Encoded(parts: seq<Part>, b: string): (r: string)
    ensures |r| > |b|
  {
    if parts == [] then LastBoundary(b) + CRLF
    else Boundary(b) + SectionText(parts[0]) + Encoded(parts[1..], b)
  }

  // ---------------------------------------------------------------- positions in a section

  function NameEnd(p: Part): nat { 38 + |p.name| }
  function FilenameAt(p: Part): nat { NameEnd(p) + 13 }
  /** The last quote of the names. */
  function FilenameEnd(p: Part): nat { if p.filename.Some? then FilenameAt(p) + |p.filename.value| else NameEnd(p) }
  function HeadEnd(p: Part): nat { FilenameEnd(p) + 1 + |TypeLine(p)| }
  function BodyAt(p: Part): nat { HeadEnd(p) + 4 }
  function Length(p: Part): nat { BodyAt(p) + |p.body| + 2 }

  // what is needed of the fixed text: where its quotes and its semicolon are

  lemma NameStartText()
    ensures |NAME_START| == 38
    ensures forall k :: 0 <= k < 37 ==> NAME_START[k] != '"'
    ensures forall k :: 0 <= k < 38 ==> NAME_START[k] != NUL && NAME_START[k] != '\r' && NAME_START[k] != '\n'
    ensures forall k :: 21 <= k < 30 ==> NAME_START[k] != ';'
    ensures NAME_START[30] == ';' && NAME_START[37] == '"' && NAME_START[28] == 't'
  {
  }

  lemma KeysInNameStart()
    ensures |DISPOSITION_KEY| == 21 && |NAME_KEY| == 6 && NAME_KEY[5] == '"'
    ensures At(NAME_START, 0, DISPOSITION_KEY) && At(NAME_START, 32, NAME_KEY)
  {
  }

  lemma FilenameStartText()
    ensures |FILENAME_START| == 13 && |FILENAME_KEY| == 10
    ensures FILENAME_START[0] == '"' && FILENAME_START[12] == '"' && At(FILENAME_START, 3, FILENAME_KEY)
    ensures forall k :: 0 < k < 12 ==> FILENAME_START[k] != '"'
    ensures forall k :: 0 <= k < 13 ==> FILENAME_START[k] != NUL && FILENAME_START[k] != '\r' && FILENAME_START[k] != '\n'
    ensures FILENAME_KEY[9] == '"' && FILENAME_KEY[0] == 'f' && NUL !in FILENAME_KEY
  {
  }

  lemma TypeKeyText()
    ensures |TYPE_KEY| == 14
    ensures forall k :: 0 <= k < 14 ==> TYPE_KEY[k] != NUL && TYPE_KEY[k] != '\r' && TYPE_KEY[k] != '\n'
  {
  }

  /** Buffer `b` holds the pieces of a section at `d`, one behind the other. */
  ghost predicate Laid(b: string, d: nat, p: Part) {
    && At(b, d, NAME_START) && At(b, d + 38, p.name)
    && (p.filename.Some? ==> At(b, d + NameEnd(p), FILENAME_START) && At(b, d + FilenameAt(p), p.filename.value))
    && At(b, d + FilenameEnd(p), "\"") && At(b, d + FilenameEnd(p) + 1, TypeLine(p))
    && At(b, d + HeadEnd(p), CRLF2) && At(b, d + BodyAt(p), p.body) && At(b, d + Length(p) - 2, CRLF)
  }

  lemma AtConcat(b: string, i: nat, s: string, t: string)
    ensures At(b, i, s + t) <==> At(b, i, s) && At(b, i + |s|, t)
  {
  }

  lemma SectionLaid(b: string, d: nat, p: Part)
    requires At(b, d, SectionText(p))
    ensures Laid(b, d, p) && |SectionText(p)| == Length(p)
  {
    NameStartText();
    FilenameStartText();
    hide At, FilePart, TypeLine;
    var s1 := NAME_START + p.name;
    AtConcat(b, d, HeadText(p) + CRLF2 + p.body, CRLF);
    AtConcat(b, d, HeadText(p) + CRLF2, p.body);
    AtConcat(b, d, HeadText(p), CRLF2);
    AtConcat(b, d, s1 + FilePart(p), TypeLine(p));
    AtConcat(b, d, s1, FilePart(p));
    AtConcat(b, d, NAME_START, p.name);
    FilePartLaid(b, d + NameEnd(p), p);
  }

  lemma FilePartLaid(b: string, n: nat, p: Part)
    requires At(b, n, FilePart(p))
    ensures |FilePart(p)| == FilenameEnd(p) - NameEnd(p) + 1 && At(b, n + FilenameEnd(p) - NameEnd(p), "\"")
    ensures p.filename.Some? ==> At(b, n, FILENAME_START) && At(b, n + 13, p.filename.value)
  {
    FilenameStartText();
    hide At, FILENAME_START, FILENAME_KEY;
    if p.filename.Some? {
      AtConcat(b, n, FILENAME_START + p.filename.value, "\"");
      AtConcat(b, n, FILENAME_START, p.filename.value);
    }
  }

  lemma KeyWithin(b: string, d: nat, text: string, i: nat, key: string)
    requires At(b, d, text) && At(text, i, key)
    ensures At(b, d + i, key)
  {
    forall k | d + i <= k < d + i + |key|
      ensures b[k] == key[k - d - i]
    {
      assert text[k - d] == key[k - d - i];
    }
  }

  lemma PartOf(c: string, d: nat, s: string, i: nat, x: string)
    requires At(c, d, s) && At(c, i, x) && d <= i && i + |x| <= d + |s|
    ensures Contains(s, x)
  {
    forall k | i - d <= k < i - d + |x|
      ensures s[k] == x[k - (i - d)]
    {
      assert c[k + d] == s[k] && c[k + d] == x[k + d - i];
    }
    assert At(s, i - d, x);
  }

  lemma LastAt(b: string, i: nat, s: string)
    requires At(b, i, s)
    ensures i + |s| <= |b|
  {
  }
}
