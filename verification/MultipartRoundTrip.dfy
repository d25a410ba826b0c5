/** Extracting form data from its encoding gives back the parts. */
module MultipartRoundTrip {
  import opened Options
  import opened CText
  import opened MultipartSpec
  import opened MultipartEncoding
  import opened Ranges
  import opened MultipartSection

  // ---------------------------------------------------------------- boundaries

  /** A text that cannot lie across a line break other than at its own end. */
  ghost predicate Marker(x: string) {
    |x| > 2 && NUL !in x && x[0] != '\n' && forall r :: 0 <= r < |x| - 2 ==> x[r] != '\r'
  }

  lemma BoundariesMark(b: string)
    requires OneLine(b)
    ensures |Boundary(b)| == |b| + 4 && Marker(Boundary(b)) && Boundary(b)[|b| + 3] == '\n'
    ensures |LastBoundary(b)| == |b| + 4 && Marker(LastBoundary(b)) && LastBoundary(b)[|b| + 3] == '-'
  {
  }

  lemma MarkerEnds(c: string, e: nat, i: nat, x: string)
    requires At(c, i, x) && Marker(x) && i < e <= |c| && 2 <= e && c[e - 2] == '\r' && c[e - 1] == '\n'
    ensures i + |x| <= e
  {
  }

  /** A marker that is not in a section does not start in it either. */
  lemma NoneStarts(c: string, d: nat, s: string, x: string)
    requires At(c, d, s) && |s| >= 2 && s[|s| - 2] == '\r' && s[|s| - 1] == '\n' && Marker(x) && !Contains(s, x)
    ensures forall i: nat :: d <= i < d + |s| ==> !At(c, i, x)
  {
    forall i: nat | d <= i < d + |s|
      ensures !At(c, i, x)
    {
      if At(c, i, x) {
        MarkerEnds(c, d + |s|, i, x);
        PartOf(c, d, s, i, x);
      }
    }
  }

  /** No boundary starts in the closing line, whose last byte is out of reach. */
  lemma NoneInClosing(c: string, e: nat, b: string)
    requires At(c, e, LastBoundary(b) + CRLF) && OneLine(b)
    ensures forall i: nat :: e <= i && i + |Boundary(b)| <= e + |b| + 5 ==> !At(c, i, Boundary(b))
  {
    BoundariesMark(b);
    AtConcat(c, e, LastBoundary(b), CRLF);
    forall i: nat | e <= i && i + |Boundary(b)| <= e + |b| + 5
      ensures !At(c, i, Boundary(b))
    {
      var last := i + |b| + 3;
      if i == e {
        assert c[last] == LastBoundary(b)[|b| + 3];
      } else {
        assert c[last] == CRLF[0];
      }
    }
  }

  ghost predicate Encodable(parts: seq<Part>, b: string) {
    && OneLine(b)
    && (forall p :: p in parts ==> Printable(p) && !Contains(SectionText(p), Boundary(b)))
    && (parts != [] ==> !Contains(SectionText(parts[|parts| - 1]), LastBoundary(b)))
  }

  /** `post` gives back the name, the file name and the size of `p` from the buffer `c`, its content if and only
      if no text of it was taken for a file name or a media type, and its media type, with a carriage return at
      the end.  A part without a file name gets one exactly if the key of it occurs behind the name. */
  ghost predicate Recovers(c: string, p: Part, post: PostContent) {
    && post.name.Some? && PointsTo(c, post.name.value, p.name)
    && (match p.filename
        case Some(f) => post.filename.Some? && PointsTo(c, post.filename.value, f)
        case None => post.filename.Some? <==> TailKey(p).Some?)
    && post.contentDisposition.Some? && PointsTo(c, post.contentDisposition.value, "form-data")
    && post.size == |p.body| && post.buff.Some? && (At(c, post.buff.value, p.body) <==> Intact(p))
    && (PlainNames(p) && Searched(p).contentType == p.contentType ==>
          match p.contentType
          case None => post.contentType.Some? <==> BodyKey(Searched(p)).Some?
          case Some(t) => post.contentType.Some? && PointsTo(c, post.contentType.value, t + "\r"))
  }

  lemma ItemRecovers(c: string, c2: string, d: nat, p: Part, post: PostContent)
    requires ItemAt(c, d, p, post) && |c2| == |c| && forall k: nat {:trigger c2[k]} :: k < d + Length(p) && k < |c| ==> c2[k] == c[k]
    ensures Recovers(c2, p, post)
  {
    hide TypeLine, PlainNames, Intact, Damage, BodyKey, TailKey, Searched, At, Length, HeadEnd, BodyAt, FilenameEnd, FilenameAt, NameEnd;
    TypeLineLength(p);
    Places(p);
    FilenamePlace(p);
    SearchedPlaces(p);
    AtSame(c, c2, d + BodyAt(p), p.body);
  }

  lemma AtSame(c: string, c2: string, i: nat, s: string)
    requires |c2| == |c| && i + |s| <= |c| && forall k: nat {:trigger c2[k]} :: i <= k < i + |s| ==> c2[k] == c[k]
    ensures At(c, i, s) <==> At(c2, i, s)
  {
    forall k | i <= k < i + |s|
      ensures c[k] == c2[k]
    {
    }
  }

  lemma TypeLineLength(p: Part)
    ensures p.contentType.Some? ==> |TypeLine(p)| == 16 + |p.contentType.value|
  {
  }

  lemma EndOfSection(p: Part)
    ensures var s := SectionText(p); |s| >= 3 && s[|s| - 2] == '\r' && s[|s| - 1] == '\n'
  {
    hide HeadText;
  }

  lemma SectionEndIs(c: string, d: nat, max: nat, s: string, rest: seq<Part>, b: string)
    requires OneLine(b) && At(c, d, s) && At(c, d + |s|, Encoded(rest, b)) && max + 1 == d + |s| + |Encoded(rest, b)|
    requires |s| >= 2 && s[|s| - 2] == '\r' && s[|s| - 1] == '\n' && !Contains(s, Boundary(b))
    requires rest == [] ==> !Contains(s, LastBoundary(b))
    ensures d <= max <= |c| && d + |s| <= max
    ensures SectionEnd(c, d, max, Boundary(b), LastBoundary(b)) == d + |s|
    ensures forall i: nat :: d <= i < d + |s| ==> !At(c, i, Boundary(b))
  {
    hide SectionText, Boundary, LastBoundary, At, Contains, Marker, Encoded;
    BoundariesMark(b);
    NoneStarts(c, d, s, Boundary(b));
    LastAt(c, d + |s|, Encoded(rest, b));
    if rest == [] {
      ClosingLaid(c, d + |s|, b);
      NoneInClosing(c, d + |s|, b);
      NoneStarts(c, d, s, LastBoundary(b));
    } else {
      assert [rest[0]] + rest[1..] == rest;
      EncodedLaid(c, d + |s|, rest[0], rest[1..], b);
    }
  }

  lemma ClosingLaid(c: string, e: nat, b: string)
    requires At(c, e, Encoded([], b))
    ensures At(c, e, LastBoundary(b) + CRLF) && At(c, e, LastBoundary(b)) && |Encoded([], b)| == |b| + 6
  {
    AtConcat(c, e, LastBoundary(b), CRLF);
  }

  lemma EncodableRest(p: Part, rest: seq<Part>, b: string)
    requires Encodable([p] + rest, b)
    ensures Encodable(rest, b) && Printable(p) && OneLine(b) && !Contains(SectionText(p), Boundary(b))
    ensures rest == [] ==> !Contains(SectionText(p), LastBoundary(b))
  {
    hide Printable, Contains, SectionText, Boundary, LastBoundary;
    assert ([p] + rest)[0] == p && forall q :: q in rest ==> q in [p] + rest;
    assert ([p] + rest)[|rest|] == if rest == [] then p else rest[|rest| - 1];
  }

  lemma NoneNewWithin(c: string, c2: string, lo: nat, hi: nat, i: nat, x: string)
    requires NulledWithin(c2, c, lo, hi) && At(c2, i, x) && NUL !in x
    ensures At(c, i, x)
  {
    forall k: nat | i <= k < i + |x|
      ensures c[k] == x[k - i]
    {
      assert c2[k] == x[k - i] && x[k - i] in x;
    }
  }

  /** Extraction from `from` yields one item per part, in order, and leaves what is before `pos` alone. */
  ghost predicate ExtractsBack(c: string, from: nat, pos: nat, max: nat, parts: seq<Part>, b: string) {
    && from <= max <= |c|
    && var r := Extract(c, from, max, Boundary(b), LastBoundary(b));
       && r.Some? && |r.value.0| == |c| && (forall k: nat {:trigger r.value.0[k]} :: k < pos && k < |c| ==> r.value.0[k] == c[k])
       && |r.value.1| == |parts| && forall i :: 0 <= i < |parts| ==> Recovers(r.value.0, parts[i], r.value.1[i])
  }

  lemma ExtractsFirst(c: string, from: nat, pos: nat, max: nat, p: Part, rest: seq<Part>, b: string)
    requires from <= pos && At(c, pos, Boundary(b)) && forall i: nat :: from <= i < pos ==> !At(c, i, Boundary(b))
    requires var d := pos + |Boundary(b)|; var e := d + Length(p);
             && e <= max <= |c| && SectionEnd(c, d, max, Boundary(b), LastBoundary(b)) == e
             && var (c2, post) := Section(c, d, e, max);
                NulledWithin(c2, c, d, e) && ItemAt(c2, d, p, post) && ExtractsBack(c2, d, e, max, rest, b)
    ensures ExtractsBack(c, from, pos, max, [p] + rest, b)
  {
    var d := pos + |Boundary(b)|;
    var e := d + Length(p);
    hide TypeLine, Section, Boundary, LastBoundary, SectionEnd, ItemAt, Recovers;
    assert Find(c, from, max, Boundary(b)) == Some(pos);
    hide At;
    var (c2, post) := Section(c, d, e, max);
    assert Extract(c2, d, max, Boundary(b), LastBoundary(b)).Some?;
    var (c3, posts) := Extract(c2, d, max, Boundary(b), LastBoundary(b)).value;
    assert Extract(c, from, max, Boundary(b), LastBoundary(b)) == Some((c3, [post] + posts));
    hide Extract, Find;
    ItemRecovers(c2, c3, d, p, post);
  }

  lemma ExtractNone(c: string, from: nat, pos: nat, max: nat, b: string)
    requires OneLine(b) && from <= pos && At(c, pos, Encoded([], b)) && max + 1 == pos + |Encoded([], b)|
    requires forall i: nat :: from <= i < pos ==> !At(c, i, Boundary(b))
    ensures ExtractsBack(c, from, pos, max, [], b)
  {
    BoundariesMark(b);
    NoneInClosing(c, pos, b);
    LastAt(c, pos, Encoded([], b));
    hide Boundary, LastBoundary, At, Marker;
    assert Find(c, from, max, Boundary(b)) == None;
    hide Encoded, Find;
  }

  lemma EncodedLaid(c: string, pos: nat, p: Part, rest: seq<Part>, b: string)
    requires At(c, pos, Encoded([p] + rest, b))
    ensures var d := pos + |Boundary(b)|;
            && At(c, pos, Boundary(b)) && At(c, d, SectionText(p)) && At(c, d + |SectionText(p)|, Encoded(rest, b))
            && |Encoded([p] + rest, b)| == |Boundary(b)| + |SectionText(p)| + |Encoded(rest, b)|
  {
    hide At, SectionText, Boundary, LastBoundary;
    assert ([p] + rest)[1..] == rest;
    assert Encoded([p] + rest, b) == Boundary(b) + SectionText(p) + Encoded(rest, b);
    hide Encoded;
    AtConcat(c, pos, Boundary(b) + SectionText(p), Encoded(rest, b));
    AtConcat(c, pos, Boundary(b), SectionText(p));
  }

  /** The loop from `from` on, when the next boundary line is at `pos` and none starts in between. */
  lemma {:induction false} ExtractAll(c: string, from: nat, pos: nat, max: nat, parts: seq<Part>, b: string)
    requires Encodable(parts, b) && from <= pos && At(c, pos, Encoded(parts, b)) && max + 1 == pos + |Encoded(parts, b)|
    requires |c| <= SIZE_MAX && forall i: nat :: from <= i < pos ==> !At(c, i, Boundary(b))
    ensures ExtractsBack(c, from, pos, max, parts, b)
    decreases |parts|
  {
    hide *;
    EncodableBoundary(parts, b);
    BoundariesMark(b);
    if parts == [] {
      ExtractNone(c, from, pos, max, b);
    } else {
      var p, rest, d := parts[0], parts[1..], pos + |Boundary(b)|;
      assert parts == [p] + rest;
      EncodedLaid(c, pos, p, rest, b);
      EncodableRest(p, rest, b);
      EndOfSection(p);
      SectionEndIs(c, d, max, SectionText(p), rest, b);
      SectionLaid(c, d, p);
      var e := d + |SectionText(p)|;
      SectionIs(c, d, max, p);
      var (c2, post) := Section(c, d, e, max);
      SectionStays(c, d, e, max);
      MarkerNoNul(Boundary(b));
      RestStays(c, c2, d, e, Encoded(rest, b), Boundary(b));
      ExtractAll(c2, d, e, max, rest, b);
      ExtractsFirst(c, from, pos, max, p, rest, b);
    }
  }

  lemma EncodableBoundary(parts: seq<Part>, b: string)
    requires Encodable(parts, b)
    ensures OneLine(b)
  {
  }

  lemma MarkerNoNul(x: string)
    requires Marker(x)
    ensures NUL !in x
  {
  }

  lemma SectionStays(c: string, d: nat, e: nat, max: nat)
    requires d + 3 <= e <= max <= |c|
    ensures |Section(c, d, e, max).0| == |c|
  {
  }

  lemma RestStays(c: string, c2: string, d: nat, e: nat, text: string, x: string)
    requires NulledWithin(c2, c, d, e) && At(c, e, text) && NUL !in x && forall i: nat :: d <= i < e ==> !At(c, i, x)
    ensures At(c2, e, text) && forall i: nat :: d <= i < e ==> !At(c2, i, x)
  {
    forall i: nat | d <= i < e
      ensures !At(c2, i, x)
    {
      if At(c2, i, x) {
        NoneNewWithin(c, c2, d, e, i, x);
      }
    }
  }

  /** Extracting from an encoded body gives one item per part, in order, with its exact name, file
      name, size and content, although NULs are written into the buffer while it is scanned; what is
      before the body is left alone. */
  lemma MultipartRoundTrip(head: string, parts: seq<Part>, b: string, more: string)
    requires Encodable(parts, b) && |head + Encoded(parts, b) + more| <= SIZE_MAX
    ensures ExtractsBack(head + Encoded(parts, b) + more, |head|, |head|, |head| + |Encoded(parts, b)| - 1, parts, b)
  {
    hide *;
    AtMiddle(head, Encoded(parts, b), more);
    assert forall i: nat :: |head| <= i < |head| ==> !At(head + Encoded(parts, b) + more, i, Boundary(b));
    ExtractAll(head + Encoded(parts, b) + more, |head|, |head|, |head| + |Encoded(parts, b)| - 1, parts, b);
  }

  // ---------------------------------------------------------------- parts whose content is damaged

  /** A file without a media type that begins with the text of the header for it. */
  const TYPED_BODY := Part("a", Some("b"), None, "Content-Type: x\ny")

  /** A field without a file name whose value looks like one. */
  const NAMED_BODY := Part("a", None, None, "filename=\"x\"")

  predicate Hashless(s: string) {
    forall k :: 0 <= k < |s| ==> s[k] != '#'
  }

  lemma HashlessText()
    ensures Hashless(NAME_START) && Hashless(FILENAME_START) && Hashless(CRLF) && Hashless(CRLF2)
    ensures Hashless(TYPED_BODY.body) && Hashless(NAMED_BODY.body)
  {
  }

  lemma HashlessSection(p: Part)
    requires p == TYPED_BODY || p == NAMED_BODY
    ensures Hashless(SectionText(p))
  {
    HashlessText();
    assert Hashless(p.name) && Hashless("\"") && Hashless(TypeLine(p)) && (p.filename.Some? ==> Hashless(p.filename.value));
    hide NAME_START, FILENAME_START, CRLF, CRLF2;
    assert Hashless(FilePart(p));
    assert Hashless(HeadText(p));
  }

  lemma HashlessFree(s: string, x: string)
    requires Hashless(s) && |x| > 2 && x[2] == '#'
    ensures !Contains(s, x)
  {
    forall i: nat
      ensures !At(s, i, x)
    {
      if i + |x| <= |s| {
        assert s[i + 2] != x[2];
      }
    }
  }

  lemma DamagedPrintable(p: Part)
    requires p == TYPED_BODY || p == NAMED_BODY
    ensures Printable(p) && OneLine("#")
  {
  }

  lemma DamagedEncodable(p: Part)
    requires p == TYPED_BODY || p == NAMED_BODY
    ensures Encodable([p], "#")
  {
    HashlessSection(p);
    HashlessFree(SectionText(p), Boundary("#"));
    HashlessFree(SectionText(p), LastBoundary("#"));
    DamagedPrintable(p);
    hide SectionText, Boundary, LastBoundary, Printable, Contains;
  }

  lemma TypedBodyDamaged()
    ensures Searched(TYPED_BODY) == TYPED_BODY && Damage(TYPED_BODY) == Some(15) && !Intact(TYPED_BODY)
  {
    var body := TYPED_BODY.body;
    NothingSought("", 0, TYPED_BODY);
    assert At(body, 0, TYPE_KEY);
    assert Find(body, 0, |body| - 1, TYPE_KEY) == Some(0);
    StrChrIs(body, 14, '\n', 15);
  }

  lemma NamedBodyDamaged()
    ensures Searched(NAMED_BODY).body == "filename=\"x\0" && !Intact(NAMED_BODY)
  {
    var t := Tail(NAMED_BODY);
    assert t == "\r\n\r\nfilename=\"x\"";
    assert At(t, 4, FILENAME_KEY);
    assert Find(t, 0, |t| - 1, FILENAME_KEY) == Some(4) by {
      RuledOut(t, 0, 4, FILENAME_KEY, 0);
    }
    StrChrIs(t, 14, '"', 15);
  }

  /** Extraction yields one item for the part `p`, and its content is not that of `p`. */
  ghost predicate ContentLost(c: string, from: nat, max: nat, p: Part, b: string) {
    && from <= max <= |c|
    && var r := Extract(c, from, max, Boundary(b), LastBoundary(b));
       r.Some? && |r.value.1| == 1 && r.value.1[0].buff.Some? && !At(r.value.0, r.value.1[0].buff.value, p.body)
  }

  /** Both can be sent in a form, and what is extracted is not what was sent. */
  lemma DamagedContent(p: Part, head: string, more: string)
    requires (p == TYPED_BODY || p == NAMED_BODY) && |head + Encoded([p], "#") + more| <= SIZE_MAX
    ensures Encodable([p], "#")
    ensures ContentLost(head + Encoded([p], "#") + more, |head|, |head| + |Encoded([p], "#")| - 1, p, "#")
  {
    hide *;
    DamagedEncodable(p);
    TypedBodyDamaged();
    NamedBodyDamaged();
    MultipartRoundTrip(head, [p], "#", more);
    OneItem(head + Encoded([p], "#") + more, |head|, |head| + |Encoded([p], "#")| - 1, p, "#");
  }

  lemma OneItem(c: string, from: nat, max: nat, p: Part, b: string)
    requires ExtractsBack(c, from, from, max, [p], b) && !Intact(p)
    ensures ContentLost(c, from, max, p, b)
  {
    hide Extract, At, Intact, Searched, TailKey, PointsTo, PlainNames, BodyKey;
  }

  lemma AtMiddle(a: string, s: string, z: string)
    ensures At(a + s + z, |a|, s)
  {
  }
}
