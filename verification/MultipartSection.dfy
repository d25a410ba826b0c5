/** What the fields of one section are, and what is overwritten to delimit them. */
module MultipartSection {
  import opened Options
  import opened CText
  import opened MultipartSpec
  import opened MultipartEncoding
  import opened Ranges

  // ---------------------------------------------------------------- one section

  lemma TakeIs(b: string, from: nat, upto: nat, key: string, stop: char, i: nat, j: nat)
    requires from <= i && i + |key| <= upto <= |b| && At(b, i, key) && forall k: nat :: from <= k < i ==> !At(b, k, key)
    requires i + |key| <= j < |b| && b[j] == stop && forall k :: i + |key| <= k < j ==> b[k] != stop && b[k] != NUL
    ensures Take(b, from, upto, key, stop) == (b[j := NUL], Some(i + |key|))
  {
    StrChrIs(b, i + |key|, stop, j);
  }

  lemma StrChrIs(b: string, i: nat, c: char, j: nat)
    requires i <= j < |b| && b[j] == c && forall k :: i <= k < j ==> b[k] != c && b[k] != NUL
    ensures StrChr(b, i, c) == Some(j)
    decreases j - i
  {
    if i < j {
      StrChrIs(b, i + 1, c, j);
    }
  }

  /** A key does not occur where one of its characters does not. */
  lemma RuledOut(b: string, from: nat, i: nat, key: string, m: nat)
    requires m < |key| && i + m <= |b| && forall x :: from + m <= x < i + m ==> b[x] != key[m]
    ensures forall k: nat :: from <= k < i ==> !At(b, k, key)
  {
    forall k: nat | from <= k < i
      ensures !At(b, k, key)
    {
      if k + |key| <= |b| {
        assert b[k + m] != key[m];
      }
    }
  }

  /** The first three keys: what is found, and what is overwritten. */
  lemma TakeDisposition(c: string, d: nat, upto: nat)
    requires At(c, d, NAME_START) && d + 38 <= upto <= |c|
    ensures Take(c, d, upto, DISPOSITION_KEY, ';') == (c[d + 30 := NUL], Some(d + 21))
  {
    NameStartText();
    KeysInNameStart();
    KeyWithin(c, d, NAME_START, 0, DISPOSITION_KEY);
    hide NAME_START, DISPOSITION_KEY;
    TakeIs(c, d, upto, DISPOSITION_KEY, ';', d, d + 30);
  }

  /** `c` is `b` with at most the bytes at `at` overwritten by NUL. */
  ghost predicate Nulled(c: string, b: string, at: set<nat>) {
    |c| == |b| && forall k: nat {:trigger c[k]} :: k < |b| ==> c[k] == if k in at then NUL else b[k]
  }

  /** Where the quotes of the two names are, and that nothing in between ends a string early. */
  ghost predicate Shaped(b: string, d: nat, p: Part) {
    && d + Length(p) <= |b|
    && (forall k {:trigger b[k]} :: d <= k < d + 37 ==> b[k] != '"') && b[d + 28] == 't' && b[d + 37] == '"'
    && (forall k {:trigger b[k]} :: d + 38 <= k < d + NameEnd(p) ==> b[k] != '"' && b[k] != NUL)
    && b[d + NameEnd(p)] == '"'
    && (p.filename.Some? ==>
          && (forall k {:trigger b[k]} :: d + NameEnd(p) < k < d + NameEnd(p) + 12 ==> b[k] != '"')
          && (forall k {:trigger b[k]} :: d + FilenameAt(p) <= k < d + FilenameEnd(p) ==> b[k] != '"' && b[k] != NUL)
          && At(b, d + NameEnd(p) + 3, FILENAME_KEY))
    && b[d + FilenameEnd(p)] == '"' && At(b, d + 32, NAME_KEY)
  }

  lemma LaidShaped(b: string, d: nat, p: Part)
    requires Laid(b, d, p) && PrintableNames(p)
    ensures Shaped(b, d, p)
    ensures |NAME_KEY| == 6 && |FILENAME_KEY| == 10 && NAME_KEY[5] == '"' && FILENAME_KEY[9] == '"' && FILENAME_KEY[0] == 'f'
            && NUL !in FILENAME_KEY
  {
    hide NAME_START, FILENAME_START, NAME_KEY, FILENAME_KEY, DISPOSITION_KEY, TypeLine;
    NameStartText();
    KeysInNameStart();
    FilenameStartText();
    KeyWithin(b, d, NAME_START, 32, NAME_KEY);
    if p.filename.Some? {
      KeyWithin(b, d + NameEnd(p), FILENAME_START, 3, FILENAME_KEY);
    }
    assert d + Length(p) <= |b|;
    hide CRLF, CRLF2;
  }

  lemma KeyStays(b: string, c: string, at: set<nat>, i: nat, key: string)
    requires Nulled(c, b, at) && At(b, i, key) && forall k :: k in at ==> k < i || i + |key| <= k
    ensures At(c, i, key)
  {
    forall k | i <= k < i + |key|
      ensures c[k] == key[k - i]
    {
      assert b[k] == key[k - i];
    }
  }

  lemma TakeName(b: string, c: string, d: nat, p: Part)
    requires Shaped(b, d, p) && |NAME_KEY| == 6 && NAME_KEY[5] == '"' && Nulled(c, b, {d + Length(p) - 2, d + 30})
    ensures Take(c, d, d + Length(p) - 3, NAME_KEY, '"') == (c[d + NameEnd(p) := NUL], Some(d + 38))
  {
    hide NAME_KEY, FILENAME_KEY, Take, TypeLine;
    KeyStays(b, c, {d + Length(p) - 2, d + 30}, d + 32, NAME_KEY);
    RuledOut(c, d, d + 32, NAME_KEY, 5);
    hide At;
    TakeIs(c, d, d + Length(p) - 3, NAME_KEY, '"', d + 32, d + NameEnd(p));
  }

  /** Overwriting with NUL makes no new occurrence of a text that is free of NUL. */
  lemma NoneNew(b: string, c: string, at: set<nat>, i: nat, key: string)
    requires Nulled(c, b, at) && At(c, i, key) && NUL !in key
    ensures At(b, i, key) && forall k :: k in at ==> k < i || i + |key| <= k
  {
    forall k: nat | i <= k < i + |key|
      ensures b[k] == key[k - i] && k !in at
    {
      assert c[k] == key[k - i] && key[k - i] in key;
    }
  }

  /** The quotes before the file name's own are that of the name's start, behind a `t`, and that of
      its end, which is overwritten by now. */
  lemma FilenameKeyFirst(c: string, d: nat, q: nat, key: string)
    requires |key| == 10 && key[9] == '"' && key[0] == 'f' && d + 38 <= q && q + 13 <= |c|
    requires forall x {:trigger c[x]} :: d <= x < q + 12 && x != d + 37 ==> c[x] != '"'
    requires c[d + 28] == 't'
    ensures forall k: nat :: d <= k < q + 3 ==> !At(c, k, key)
  {
    RuledOut(c, d, d + 28, key, 9);
    RuledOut(c, d + 29, q + 3, key, 9);
  }

  lemma TakeFilename(b: string, c: string, d: nat, p: Part)
    requires Shaped(b, d, p) && p.filename.Some? && |FILENAME_KEY| == 10 && FILENAME_KEY[9] == '"' && FILENAME_KEY[0] == 'f'
    requires Nulled(c, b, {d + Length(p) - 2, d + 30, d + NameEnd(p)})
    ensures Take(c, d, d + Length(p) - 3, FILENAME_KEY, '"') == (c[d + FilenameEnd(p) := NUL], Some(d + FilenameAt(p)))
  {
    hide NAME_KEY, FILENAME_KEY, Take, TypeLine;
    var q, e := d + NameEnd(p), d + FilenameEnd(p);
    KeyStays(b, c, {d + Length(p) - 2, d + 30, q}, q + 3, FILENAME_KEY);
    hide At;
    FilenameKeyFirst(c, d, q, FILENAME_KEY);
    assert c[e] == '"' && forall k :: q + 13 <= k < e ==> c[k] != '"' && c[k] != NUL;
    hide Shaped, Nulled;
    TakeIs(c, d, d + Length(p) - 3, FILENAME_KEY, '"', q + 3, e);
  }

  /** A text without line breaks does not lie across one. */
  lemma BreakOutside(c: string, i: nat, key: string, x: nat)
    requires At(c, i, key) && OneLine(key) && x < |c| && (c[x] == '\r' || c[x] == '\n')
    ensures x < i || i + |key| <= x
  {
  }

  lemma TypeInLine(b: string, d: nat, p: Part)
    requires Laid(b, d, p) && p.contentType.Some?
    ensures At(b, d + FilenameEnd(p) + 3, TYPE_KEY)
    ensures |TypeLine(p)| == 16 + |p.contentType.value|
  {
    hide At;
    AtConcat(b, d + FilenameEnd(p) + 1, CRLF + TYPE_KEY, p.contentType.value);
    AtConcat(b, d + FilenameEnd(p) + 1, CRLF, TYPE_KEY);
  }

  /** `c2` is `c` but for line feeds from `lo` up to `hi` that are overwritten by NUL. */
  ghost predicate LineEnded(c2: string, c: string, lo: nat, hi: nat) {
    |c2| == |c| && forall k: nat {:trigger c2[k]} :: k < |c| ==> c2[k] == c[k] || (lo <= k < hi && c[k] == '\n' && c2[k] == NUL)
  }

  lemma KeyText()
    ensures |TYPE_KEY| == 14 && OneLine(TYPE_KEY) && NUL !in TYPE_KEY && TYPE_KEY[0] == 'C' && TYPE_KEY[8] == 'T'
    ensures forall r :: 0 <= r < 14 ==> TYPE_KEY[r] != '"'
  {
  }

  lemma NameStartType()
    ensures |NAME_START| == 38 && NAME_START[8] == 'D' && NAME_START[37] == '"'
    ensures forall k :: 0 < k < 30 ==> NAME_START[k] != 'C'
  {
  }

  predicate Clear(i: nat, x: nat) {
    x < i || i + 14 <= x
  }

  lemma NoTypeAtStart(b: string, d: nat, i: nat)
    requires At(b, d, NAME_START) && At(b, i, TYPE_KEY) && d <= i
    ensures i + 14 > d + 30
  {
    KeyText();
    NameStartType();
    hide NAME_START, TYPE_KEY;
    var x, y, z := b[i], b[i + 8], b[d + 8];
  }

  /** Where the key can be before the end of the file name: nowhere. */
  lemma NoTypeInNames(b: string, d: nat, p: Part, i: nat)
    requires At(b, d, NAME_START) && At(b, d + 38, p.name) && d + NameEnd(p) <= |b| && b[d + 37] == '"' && PlainNames(p)
    requires p.filename.Some? ==>
               At(b, d + FilenameAt(p), p.filename.value) && d + FilenameAt(p) <= |b| && b[d + NameEnd(p) + 12] == '"'
    requires d <= i && At(b, i, TYPE_KEY)
    requires Clear(i, d + 30) && Clear(i, d + NameEnd(p)) && Clear(i, d + FilenameEnd(p))
    ensures i > d + FilenameEnd(p)
  {
    hide NAME_START, TYPE_KEY, TypeLine, At, Contains;
    KeyText();
    NoTypeAtStart(b, d, i);
    QuoteOutside(b, i, d + 37);
    if i + 14 <= d + NameEnd(p) {
      PartOf(b, d + 38, p.name, i, TYPE_KEY);
    } else if p.filename.Some? {
      QuoteOutside(b, i, d + NameEnd(p) + 12);
      if i + 14 <= d + FilenameEnd(p) {
        PartOf(b, d + FilenameAt(p), p.filename.value, i, TYPE_KEY);
      }
    }
  }

  lemma QuoteOutside(b: string, i: nat, x: nat)
    requires At(b, i, TYPE_KEY) && x < |b| && b[x] == '"'
    ensures x < i || i + 14 <= x
  {
    KeyText();
    hide TYPE_KEY;
  }

  /** So the key stands in its own line if there is one, and in the body if not. */
  lemma TypeFirst(b: string, c: string, d: nat, p: Part, i: nat)
    requires Laid(b, d, p) && PlainNames(p)
    requires Nulled(c, b, {d + Length(p) - 2, d + 30, d + NameEnd(p), d + FilenameEnd(p)})
    requires At(c, i, TYPE_KEY) && d <= i && i + 14 <= d + Length(p) - 3
    ensures i >= if p.contentType.Some? then d + FilenameEnd(p) + 3 else d + BodyAt(p)
  {
    NameStartType();
    FilenameStartText();
    KeyText();
    TypeBreaks(b, d, p);
    hide NAME_START, FILENAME_START, TYPE_KEY, TypeLine;
    NoneNew(b, c, {d + Length(p) - 2, d + 30, d + NameEnd(p), d + FilenameEnd(p)}, i, TYPE_KEY);
    assert b[d + 37] == NAME_START[37];
    if p.filename.Some? {
      assert b[d + NameEnd(p) + 12] == FILENAME_START[12];
    }
    NoTypeInNames(b, d, p, i);
    TypeBehind(b, d, p, i);
    hide *;
  }

  lemma TypeBehind(b: string, d: nat, p: Part, i: nat)
    requires Laid(b, d, p) && At(b, i, TYPE_KEY) && d + FilenameEnd(p) < i
    ensures i >= if p.contentType.Some? then d + FilenameEnd(p) + 3 else d + BodyAt(p)
  {
    KeyText();
    TypeBreaks(b, d, p);
    hide NAME_START, FILENAME_START, TYPE_KEY, TypeLine;
    BreakOutside(b, i, TYPE_KEY, d + FilenameEnd(p) + 1);
    BreakOutside(b, i, TYPE_KEY, d + FilenameEnd(p) + 2);
    if p.contentType.None? {
      BreakOutside(b, i, TYPE_KEY, d + FilenameEnd(p) + 3);
      BreakOutside(b, i, TYPE_KEY, d + FilenameEnd(p) + 4);
    }
  }

  /** If the section holds the key before its body, only a line end of the headers can be overwritten. */
  lemma TypeInHead(b: string, c: string, d: nat, p: Part)
    requires Laid(b, d, p) && (p.contentType.Some? || !PlainNames(p))
    requires Nulled(c, b, {d + Length(p) - 2, d + 30, d + NameEnd(p), d + FilenameEnd(p)})
    ensures LineEnded(Take(c, d, d + Length(p) - 3, TYPE_KEY, '\n').0, c, d, d + BodyAt(p))
  {
    hide TYPE_KEY, NAME_START, FILENAME_START, TypeLine, PlainNames;
    KeyText();
    var at := HeadKey(b, d, p);
    assert c[d + HeadEnd(p) + 1] == '\n';
    hide Laid;
    KeyStays(b, c, {d + Length(p) - 2, d + 30, d + NameEnd(p), d + FilenameEnd(p)}, at, TYPE_KEY);
    var i := Find(c, d, d + Length(p) - 3, TYPE_KEY).value;
    hide Nulled, At, Find;
    match StrChr(c, i + |TYPE_KEY|, '\n')
    case None =>
    case Some(j) =>
      assert j <= d + HeadEnd(p) + 1;
  }

  lemma HeadKey(b: string, d: nat, p: Part) returns (at: nat)
    requires Laid(b, d, p) && (p.contentType.Some? || !PlainNames(p))
    ensures d + 38 <= at && at + 14 <= d + HeadEnd(p) && At(b, at, TYPE_KEY)
    ensures at + 14 <= d + NameEnd(p) || (d + NameEnd(p) < at && at + 14 <= d + FilenameEnd(p)) || d + FilenameEnd(p) < at
  {
    hide TYPE_KEY, NAME_START, FILENAME_START, TypeLine, At;
    KeyText();
    if p.contentType.Some? {
      TypeInLine(b, d, p);
      at := d + FilenameEnd(p) + 3;
    } else if Contains(p.name, TYPE_KEY) {
      var i: nat :| At(p.name, i, TYPE_KEY);
      KeyWithin(b, d + 38, p.name, i, TYPE_KEY);
      LastAt(p.name, i, TYPE_KEY);
      at := d + 38 + i;
    } else {
      var i: nat :| At(p.filename.value, i, TYPE_KEY);
      KeyWithin(b, d + FilenameAt(p), p.filename.value, i, TYPE_KEY);
      LastAt(p.filename.value, i, TYPE_KEY);
      at := d + FilenameAt(p) + i;
    }
  }

  /** Otherwise the search for the key is a search of the body. */
  lemma TypeInBody(b: string, c: string, d: nat, p: Part)
    requires Laid(b, d, p) && p.contentType.None? && PlainNames(p)
    requires Nulled(c, b, {d + Length(p) - 2, d + 30, d + NameEnd(p), d + FilenameEnd(p)})
    ensures Find(c, d, d + Length(p) - 3, TYPE_KEY) == Shift(BodyKey(p), d + BodyAt(p))
  {
    hide TYPE_KEY, NAME_START, FILENAME_START, TypeLine, Nulled, Laid, PlainNames, At, Find;
    KeyText();
    BodySame(b, c, d, p);
    var r, q := Find(c, d, d + Length(p) - 3, TYPE_KEY), BodyKey(p);
    if r.Some? {
      TypeFirst(b, c, d, p, r.value);
      KeyShifts(c, p.body, r.value, d + BodyAt(p), TYPE_KEY);
    }
    if q.Some? {
      KeyShifts(c, p.body, d + BodyAt(p) + q.value, d + BodyAt(p), TYPE_KEY);
    }
  }

  lemma BodySame(b: string, c: string, d: nat, p: Part)
    requires Laid(b, d, p)
    requires Nulled(c, b, {d + Length(p) - 2, d + 30, d + NameEnd(p), d + FilenameEnd(p)})
    ensures At(c, d + BodyAt(p), p.body) && d + Length(p) - 2 < |c| && c[d + Length(p) - 2] == NUL
  {
    hide NAME_START, FILENAME_START, TypeLine;
    KeyStays(b, c, {d + Length(p) - 2, d + 30, d + NameEnd(p), d + FilenameEnd(p)}, d + BodyAt(p), p.body);
  }

  lemma KeyShifts(c: string, s: string, i: nat, n: nat, key: string)
    requires At(c, n, s) && n <= i && i + |key| <= n + |s|
    ensures At(c, i, key) <==> At(s, i - n, key)
  {
    forall k | i <= k < i + |key|
      ensures c[k] == s[k - n]
    {
    }
    forall k | i - n <= k < i - n + |key|
      ensures s[k] == c[k + n]
    {
    }
  }

  lemma {:induction false} StrChrShifts(c: string, s: string, n: nat, k: nat, stop: char)
    requires At(c, n, s) && n + |s| < |c| && c[n + |s|] == NUL != stop && k <= |s|
    ensures StrChr(c, n + k, stop) == Shift(StrChr(s, k, stop), n)
    decreases |s| - k
  {
    if k < |s| {
      assert c[n + k] == s[k];
      StrChrShifts(c, s, n, k + 1, stop);
    }
  }

  /** What is overwritten for the Content-Type key: a line end of the headers, or the damaged byte of the body. */
  ghost predicate TypeEnded(c2: string, c: string, d: nat, p: Part) {
    match Damage(p)
    case None => LineEnded(c2, c, d, d + BodyAt(p))
    case Some(j) => d + BodyAt(p) + j < |c| && j < |p.body| && p.body[j] == '\n' && c2 == c[d + BodyAt(p) + j := NUL]
  }

  lemma TakeType(b: string, c: string, d: nat, p: Part)
    requires Laid(b, d, p)
    requires Nulled(c, b, {d + Length(p) - 2, d + 30, d + NameEnd(p), d + FilenameEnd(p)})
    ensures TypeEnded(Take(c, d, d + Length(p) - 3, TYPE_KEY, '\n').0, c, d, p)
  {
    if p.contentType.Some? || !PlainNames(p) {
      hide LineEnded, Laid;
      TypeInHead(b, c, d, p);
    } else {
      TakeInBody(b, c, d, p);
    }
  }

  lemma TakeInBody(b: string, c: string, d: nat, p: Part)
    requires Laid(b, d, p) && p.contentType.None? && PlainNames(p)
    requires Nulled(c, b, {d + Length(p) - 2, d + 30, d + NameEnd(p), d + FilenameEnd(p)})
    ensures TypeEnded(Take(c, d, d + Length(p) - 3, TYPE_KEY, '\n').0, c, d, p)
  {
    hide TYPE_KEY, NAME_START, FILENAME_START, TypeLine, Nulled, Laid, PlainNames, At, Find, StrChr, BodyKey;
    KeyText();
    BodySame(b, c, d, p);
    TypeInBody(b, c, d, p);
    if BodyKey(p).Some? {
      StrChrShifts(c, p.body, d + BodyAt(p), BodyKey(p).value + |TYPE_KEY|, '\n');
    }
  }

  /** The media type as the code finds it: with the carriage return of its line. */
  ghost predicate TypeAt(c: string, d: nat, p: Part, at: Option<nat>) {
    match p.contentType
    case None => at == Shift(BodyKey(p), d + BodyAt(p) + 14)
    case Some(t) => at == Some(d + FilenameEnd(p) + 17) && PointsTo(c, d + FilenameEnd(p) + 17, t + "\r")
  }

  lemma TypeTaken(b: string, c: string, d: nat, p: Part)
    requires Laid(b, d, p) && Printable(p) && PlainNames(p)
    requires Nulled(c, b, {d + Length(p) - 2, d + 30, d + NameEnd(p), d + FilenameEnd(p)})
    ensures var (c2, at) := Take(c, d, d + Length(p) - 3, TYPE_KEY, '\n'); TypeAt(c2, d, p, at)
  {
    KeyText();
    hide NAME_START, FILENAME_START, TYPE_KEY;
    if p.contentType.None? {
      TypeInBody(b, c, d, p);
    } else {
      LineTaken(b, c, d, p);
    }
    hide TypeLine, Laid, Nulled, Printable, PlainNames, Find, StrChr;
  }

  lemma LineTaken(b: string, c: string, d: nat, p: Part)
    requires Laid(b, d, p) && Printable(p) && PlainNames(p) && p.contentType.Some?
    requires Nulled(c, b, {d + Length(p) - 2, d + 30, d + NameEnd(p), d + FilenameEnd(p)})
    ensures var (c2, at) := Take(c, d, d + Length(p) - 3, TYPE_KEY, '\n'); TypeAt(c2, d, p, at)
  {
    hide *;
    KeyText();
    LineKey(b, c, d, p);
    LineText(b, c, d, p);
    TakeIs(c, d, d + Length(p) - 3, TYPE_KEY, '\n', d + FilenameEnd(p) + 3, d + HeadEnd(p) + 1);
    LineShown(c, d, p);
  }

  lemma LineShown(c: string, d: nat, p: Part)
    requires p.contentType.Some? && LineHolds(c, d, p)
    ensures TypeAt(c[d + HeadEnd(p) + 1 := NUL], d, p, Some(d + FilenameEnd(p) + 17))
  {
    hide TypeLine;
  }

  /** The first occurrence of the key is that of its line. */
  lemma LineKey(b: string, c: string, d: nat, p: Part)
    requires Laid(b, d, p) && PlainNames(p) && p.contentType.Some?
    requires Nulled(c, b, {d + Length(p) - 2, d + 30, d + NameEnd(p), d + FilenameEnd(p)})
    ensures var first, upto := d + FilenameEnd(p) + 3, d + Length(p) - 3;
            && first + 14 <= upto <= |c| && At(c, first, TYPE_KEY) && forall k: nat :: d <= k < first ==> !At(c, k, TYPE_KEY)
  {
    hide *;
    KeyText();
    NulledIn(b, c, d, p);
    Places(p);
    TypeInLine(b, d, p);
    var first := d + FilenameEnd(p) + 3;
    forall i: nat | d <= i < first
      ensures !At(c, i, TYPE_KEY)
    {
      if At(c, i, TYPE_KEY) {
        TypeFirst(b, c, d, p, i);
      }
    }
    KeyStays(b, c, {d + Length(p) - 2, d + 30, d + NameEnd(p), d + FilenameEnd(p)}, first, TYPE_KEY);
  }

  lemma NulledIn(b: string, c: string, d: nat, p: Part)
    requires Laid(b, d, p) && Nulled(c, b, {d + Length(p) - 2, d + 30, d + NameEnd(p), d + FilenameEnd(p)})
    ensures d + Length(p) <= |c| == |b|
  {
    hide TypeLine, NAME_START, FILENAME_START, At;
    LastAt(b, d + Length(p) - 2, CRLF);
  }

  /** The rest of the line behind the key, up to the line feed. */
  ghost predicate LineHolds(c: string, d: nat, p: Part)
    requires p.contentType.Some?
  {
    var t, at, e := p.contentType.value, d + FilenameEnd(p) + 17, d + HeadEnd(p);
    && at + |t| == e && e + 1 < |c| && c[e] == '\r' && c[e + 1] == '\n'
    && forall k {:trigger c[k]} :: at <= k < e ==> c[k] == t[k - at] && c[k] != '\n' && c[k] != NUL
  }

  lemma LineText(b: string, c: string, d: nat, p: Part)
    requires Laid(b, d, p) && Printable(p) && p.contentType.Some?
    requires Nulled(c, b, {d + Length(p) - 2, d + 30, d + NameEnd(p), d + FilenameEnd(p)})
    ensures LineHolds(c, d, p)
    ensures var first, e := d + FilenameEnd(p) + 3, d + HeadEnd(p) + 1;
            first + 14 <= e < |c| && c[e] == '\n' && forall k :: first + 14 <= k < e ==> c[k] != '\n' && c[k] != NUL
  {
    hide *;
    var t, at, cuts := p.contentType.value, d + FilenameEnd(p) + 17, {d + Length(p) - 2, d + 30, d + NameEnd(p), d + FilenameEnd(p)};
    LineEndText();
    TypeInLine(b, d, p);
    TypeValue(b, d, p);
    LineEnd(b, d, p);
    Places(p);
    PrintableLine(p);
    KeyStays(b, c, cuts, at, t);
    KeyStays(b, c, cuts, at + |t|, CRLF);
    LineEnds(c, d, p);
  }

  lemma LineEndText()
    ensures |CRLF| == 2
  {
  }

  lemma PrintableLine(p: Part)
    requires Printable(p) && p.contentType.Some?
    ensures OneLine(p.contentType.value)
  {
  }

  lemma LineEnds(c: string, d: nat, p: Part)
    requires p.contentType.Some? && OneLine(p.contentType.value) && HeadEnd(p) == FilenameEnd(p) + 17 + |p.contentType.value|
    requires At(c, d + FilenameEnd(p) + 17, p.contentType.value) && At(c, d + HeadEnd(p), CRLF)
    ensures LineHolds(c, d, p)
    ensures var first, e := d + FilenameEnd(p) + 3, d + HeadEnd(p) + 1;
            first + 14 <= e < |c| && c[e] == '\n' && forall k :: first + 14 <= k < e ==> c[k] != '\n' && c[k] != NUL
  {
    hide HeadEnd, FilenameEnd;
  }

  /** The media type, and the line end behind it. */
  lemma TypeValue(b: string, d: nat, p: Part)
    requires Laid(b, d, p) && p.contentType.Some?
    ensures At(b, d + FilenameEnd(p) + 17, p.contentType.value)
  {
    hide At;
    KeyText();
    AtConcat(b, d + FilenameEnd(p) + 1, CRLF + TYPE_KEY, p.contentType.value);
  }

  lemma LineEnd(b: string, d: nat, p: Part)
    requires Laid(b, d, p)
    ensures At(b, d + HeadEnd(p), CRLF)
  {
    hide At, TypeLine;
    assert CRLF + CRLF == CRLF2;
    AtConcat(b, d + HeadEnd(p), CRLF, CRLF);
  }

  lemma TypeBreaks(b: string, d: nat, p: Part)
    requires Laid(b, d, p)
    ensures b[d + FilenameEnd(p) + 1] == '\r' && b[d + FilenameEnd(p) + 2] == '\n'
    ensures p.contentType.None? ==>
              b[d + FilenameEnd(p) + 3] == '\r' && b[d + FilenameEnd(p) + 4] == '\n' && HeadEnd(p) == FilenameEnd(p) + 1
  {
    hide NAME_START, FILENAME_START;
    if p.contentType.Some? {
      AtConcat(b, d + FilenameEnd(p) + 1, CRLF + TYPE_KEY, p.contentType.value);
      AtConcat(b, d + FilenameEnd(p) + 1, CRLF, TYPE_KEY);
      hide TYPE_KEY;
    }
  }

  /** The empty line that ends the headers of the section is the first one. */
  lemma FindBlank(b: string, c: string, d: nat, max: nat, p: Part)
    requires Laid(b, d, p) && Printable(p) && Nulled(c, b, {d + Length(p) - 2}) && d + Length(p) <= max <= |b|
    ensures Find(c, d, max, CRLF2) == Some(d + HeadEnd(p))
  {
    NameStartText();
    FilenameStartText();
    TypeKeyText();
    hide NAME_START, FILENAME_START, TYPE_KEY;
    var h := d + HeadEnd(p);
    assert At(c, h, CRLF2);
    forall k: nat | d <= k < h
      ensures !At(c, k, CRLF2)
    {
      if At(c, k, CRLF2) {
        assert c[k] == '\r' && c[k + 2] == '\r';
        HeadBreaks(b, d, p, k);
      }
    }
  }

  /** In the headers a carriage return stands only before the Content-Type line, which is longer than two bytes. */
  lemma HeadBreaks(b: string, d: nat, p: Part, k: nat)
    requires Laid(b, d, p) && Printable(p) && d <= k < d + HeadEnd(p) && b[k] == '\r'
    ensures p.contentType.Some? && k == d + FilenameEnd(p) + 1 && b[k + 2] != '\r'
  {
    NameStartText();
    FilenameStartText();
    TypeKeyText();
    hide NAME_START, FILENAME_START;
    if p.contentType.Some? {
      AtConcat(b, d + FilenameEnd(p) + 1, CRLF + TYPE_KEY, p.contentType.value);
      AtConcat(b, d + FilenameEnd(p) + 1, CRLF, TYPE_KEY);
      hide TYPE_KEY;
    }
  }

  // ---------------------------------------------------------------- what one section yields

  /** The file name, or what is taken for one if there is none. */
  ghost predicate FilenameIs(c: string, d: nat, p: Part, at: Option<nat>) {
    match p.filename
    case Some(f) => at == Some(d + FilenameAt(p)) && PointsTo(c, d + FilenameAt(p), f)
    case None => at == Shift(TailKey(p), d + FilenameEnd(p) + 11)
  }

  /** The fields of `post` point at the name, the file name and the body of `p` in the section at `d`. */
  ghost predicate ItemAt(c: string, d: nat, p: Part, post: PostContent) {
    && post.name == Some(d + 38) && PointsTo(c, d + 38, p.name) && FilenameIs(c, d, p, post.filename)
    && post.contentDisposition == Some(d + 21) && PointsTo(c, d + 21, "form-data")
    && post.buff == Some(d + BodyAt(p)) && post.size == |p.body| && d + Length(p) <= |c|
    && (At(c, d + BodyAt(p), p.body) <==> Intact(p))
    && (PlainNames(p) && Searched(p).contentType == p.contentType ==> TypeAt(c, d, Searched(p), post.contentType))
  }

  /** `c` is `b` but for bytes from `lo` up to `hi` that are overwritten by NUL. */
  ghost predicate NulledWithin(c: string, b: string, lo: nat, hi: nat) {
    |c| == |b| && forall k: nat {:trigger c[k]} :: k < |b| ==> c[k] == b[k] || (lo <= k < hi && c[k] == NUL)
  }

  lemma NulledMore(b: string, c: string, at: set<nat>, j: nat)
    requires Nulled(c, b, at) && j < |b|
    ensures Nulled(c[j := NUL], b, at + {j})
  {
  }

  /** The texts of a section that the fields are made of. */
  ghost predicate Texts(b: string, d: nat, p: Part) {
    && At(b, d + 21, "form-data") && At(b, d + 38, p.name) && At(b, d + BodyAt(p), p.body)
    && (p.filename.Some? ==> At(b, d + FilenameAt(p), p.filename.value))
    && Quotable("form-data") && PrintableNames(p) && d + Length(p) <= |b|
  }

  lemma LaidTexts(b: string, d: nat, p: Part)
    requires Laid(b, d, p) && PrintableNames(p)
    ensures Texts(b, d, p)
  {
    FormDataText();
    hide NAME_START, FILENAME_START, TypeLine, At, Quotable, CRLF, CRLF2;
    KeyWithin(b, d, NAME_START, 21, "form-data");
    LastAt(b, d + Length(p) - 2, CRLF);
  }

  lemma FormDataText()
    ensures At(NAME_START, 21, "form-data") && Quotable("form-data") && |CRLF| == 2
  {
  }

  /** The strings and the body are whole after the fields of the section are cut out. */
  lemma SectionItem(b: string, c: string, c2: string, d: nat, p: Part)
    requires Texts(b, d, p)
    requires Nulled(c, b, {d + Length(p) - 2, d + 30, d + NameEnd(p), d + FilenameEnd(p)})
    requires TypeEnded(c2, c, d, p)
    ensures NulledWithin(c2, b, d, d + Length(p)) && d + Length(p) <= |c2|
    ensures PointsTo(c2, d + 38, p.name) && (p.filename.Some? ==> PointsTo(c2, d + FilenameAt(p), p.filename.value))
    ensures PointsTo(c2, d + 21, "form-data") && (At(c2, d + BodyAt(p), p.body) <==> Damage(p).None?)
  {
    hide TypeLine, At, Nulled, LineEnded, Quotable, PointsTo, NulledWithin, TypeEnded, Damage;
    TypeEndedLine(b, c, c2, d, p);
    StringStays(b, c, c2, d, p, 21, "form-data");
    StringStays(b, c, c2, d, p, 38, p.name);
    if p.filename.Some? {
      StringStays(b, c, c2, d, p, FilenameAt(p), p.filename.value);
    }
    BodyStays(b, c, c2, d, p);
    NulledLength(c2, b, d, d + Length(p));
  }

  lemma NulledLength(c: string, b: string, lo: nat, hi: nat)
    requires NulledWithin(c, b, lo, hi)
    ensures |c| == |b|
  {
  }

  lemma TypeEndedLine(b: string, c: string, c2: string, d: nat, p: Part)
    requires Texts(b, d, p) && TypeEnded(c2, c, d, p)
    requires Nulled(c, b, {d + Length(p) - 2, d + 30, d + NameEnd(p), d + FilenameEnd(p)})
    ensures LineEnded(c2, c, d, d + Length(p))
  {
    hide TypeLine, Damage;
    if Damage(p).Some? {
      var at := d + BodyAt(p) + Damage(p).value;
      assert b[at] == '\n' && c[at] == b[at];
    }
  }

  lemma StringStays(b: string, c: string, c2: string, d: nat, p: Part, at: nat, s: string)
    requires At(b, d + at, s) && Quotable(s) && d + Length(p) <= |b|
    requires (at == 21 && |s| == 9) || (at == 38 && s == p.name)
             || (p.filename.Some? && at == FilenameAt(p) && s == p.filename.value)
    requires Nulled(c, b, {d + Length(p) - 2, d + 30, d + NameEnd(p), d + FilenameEnd(p)})
    requires LineEnded(c2, c, d, d + Length(p))
    ensures PointsTo(c2, d + at, s)
  {
    hide TypeLine;
    assert c[d + at + |s|] == NUL && c2[d + at + |s|] == NUL;
    forall k: nat | d + at <= k < d + at + |s|
      ensures c2[k] == s[k - d - at] != NUL
    {
      assert b[k] == s[k - d - at] && c[k] == b[k];
    }
  }

  lemma BodyStays(b: string, c: string, c2: string, d: nat, p: Part)
    requires At(b, d + BodyAt(p), p.body) && d + Length(p) <= |b|
    requires Nulled(c, b, {d + Length(p) - 2, d + 30, d + NameEnd(p), d + FilenameEnd(p)})
    requires TypeEnded(c2, c, d, p) && LineEnded(c2, c, d, d + Length(p))
    ensures NulledWithin(c2, b, d, d + Length(p)) && (At(c2, d + BodyAt(p), p.body) <==> Damage(p).None?)
  {
    hide TypeLine, Damage;
    forall k: nat | k < |b|
      ensures c2[k] == b[k] || (d <= k < d + Length(p) && c2[k] == NUL)
    {
      assert c[k] == b[k] || c[k] == NUL;
    }
    if Damage(p).None? {
      forall k: nat | d + BodyAt(p) <= k < d + BodyAt(p) + |p.body|
        ensures c2[k] == b[k]
      {
        assert c[k] == b[k];
      }
    } else {
      assert c2[d + BodyAt(p) + Damage(p).value] == NUL;
    }
  }

  /** `b` after the first `n` of the four cuts. */
  function Cut(b: string, d: nat, p: Part, n: nat): (r: string)
    requires d + Length(p) <= |b|
    ensures |r| == |b|
  {
    if n == 0 then b[d + Length(p) - 2 := NUL]
    else if n == 1 then Cut(b, d, p, 0)[d + 30 := NUL]
    else if n == 2 then Cut(b, d, p, 1)[d + NameEnd(p) := NUL]
    else Cut(b, d, p, 2)[d + FilenameEnd(p) := NUL]
  }

  lemma CutNulled(b: string, d: nat, p: Part)
    requires d + Length(p) <= |b|
    ensures Nulled(Cut(b, d, p, 0), b, {d + Length(p) - 2})
    ensures Nulled(Cut(b, d, p, 1), b, {d + Length(p) - 2, d + 30})
    ensures Nulled(Cut(b, d, p, 2), b, {d + Length(p) - 2, d + 30, d + NameEnd(p)})
    ensures Nulled(Cut(b, d, p, 3), b, {d + Length(p) - 2, d + 30, d + NameEnd(p), d + FilenameEnd(p)})
  {
    hide TypeLine;
    var b1, b2, b3 := Cut(b, d, p, 0), Cut(b, d, p, 1), Cut(b, d, p, 2);
    var e, n, f := d + Length(p) - 2, d + NameEnd(p), d + FilenameEnd(p);
    assert Nulled(b1, b, {e});
    NulledMore(b, b1, {e}, d + 30);
    assert {e} + {d + 30} == {e, d + 30};
    NulledMore(b, b2, {e, d + 30}, n);
    assert {e, d + 30} + {n} == {e, d + 30, n};
    NulledMore(b, b3, {e, d + 30, n}, f);
    assert {e, d + 30, n} + {f} == {e, d + 30, n, f};
  }

  lemma CutSteps(b: string, d: nat, p: Part)
    requires d + Length(p) <= |b|
    ensures d + 38 <= d + Length(p) - 3
    ensures Cut(b, d, p, 1) == Cut(b, d, p, 0)[d + 30 := NUL]
    ensures Cut(b, d, p, 2) == Cut(b, d, p, 1)[d + NameEnd(p) := NUL]
    ensures Cut(b, d, p, 3) == Cut(b, d, p, 2)[d + FilenameEnd(p) := NUL]
  {
  }

  lemma LaidStart(b: string, d: nat, p: Part)
    requires Laid(b, d, p)
    ensures At(b, d, NAME_START) && |NAME_START| == 38
  {
  }

  lemma DispositionTaken(b: string, d: nat, p: Part)
    requires Laid(b, d, p) && d + Length(p) <= |b|
    ensures Take(Cut(b, d, p, 0), d, d + Length(p) - 3, DISPOSITION_KEY, ';') == (Cut(b, d, p, 1), Some(d + 21))
  {
    hide *;
    CutNulled(b, d, p);
    CutSteps(b, d, p);
    LaidStart(b, d, p);
    KeyStays(b, Cut(b, d, p, 0), {d + Length(p) - 2}, d, NAME_START);
    TakeDisposition(Cut(b, d, p, 0), d, d + Length(p) - 3);
  }

  lemma NameTaken(b: string, d: nat, p: Part)
    requires Laid(b, d, p) && PrintableNames(p) && d + Length(p) <= |b|
    ensures Take(Cut(b, d, p, 1), d, d + Length(p) - 3, NAME_KEY, '"') == (Cut(b, d, p, 2), Some(d + 38))
  {
    hide *;
    LaidShaped(b, d, p);
    CutNulled(b, d, p);
    CutSteps(b, d, p);
    TakeName(b, Cut(b, d, p, 1), d, p);
  }

  lemma FilenameTaken(b: string, d: nat, p: Part)
    requires Laid(b, d, p) && PrintableNames(p) && d + Length(p) <= |b| && p.filename.Some?
    ensures Take(Cut(b, d, p, 2), d, d + Length(p) - 3, FILENAME_KEY, '"') == (Cut(b, d, p, 3), Some(d + FilenameAt(p)))
  {
    hide *;
    LaidShaped(b, d, p);
    CutNulled(b, d, p);
    CutSteps(b, d, p);
    TakeFilename(b, Cut(b, d, p, 2), d, p);
  }

  // ---------------------------------------------------------------- a part without a file name

  /** The buffer without the quote that the search for a file name overwrites. */
  function Unquoted(b: string, d: nat, p: Part): (r: string)
    ensures |r| == |b|
  {
    match TailQuote(p)
    case None => b
    case Some(q) => if d + FilenameEnd(p) + 1 + q < |b| then b[d + FilenameEnd(p) + 1 + q := NUL] else b
  }

  lemma TailLaid(b: string, d: nat, p: Part)
    requires Laid(b, d, p)
    ensures At(b, d + FilenameEnd(p) + 1, Tail(p)) && |Tail(p)| == |TypeLine(p)| + 4 + |p.body|
  {
    hide NAME_START, FILENAME_START, TypeLine, At;
    var n := d + FilenameEnd(p) + 1;
    AtConcat(b, n, TypeLine(p) + CRLF2, p.body);
    AtConcat(b, n, TypeLine(p), CRLF2);
  }

  /** A text that is free of NUL does not lie across one. */
  lemma NulOutside(c: string, i: nat, key: string, x: nat)
    requires At(c, i, key) && NUL !in key && x < |c| && c[x] == NUL
    ensures x < i || i + |key| <= x
  {
    forall m | 0 <= m < |key|
      ensures key[m] != NUL
    {
    }
  }

  /** Before the end of the name there is no file name key: the only quote there follows a `t`. */
  lemma NoFilenameBefore(c: string, d: nat, n: nat, key: string, k: nat)
    requires |key| == 10 && key[9] == '"' && key[0] == 'f' && NUL !in key && d + 38 < n <= |c| && c[d + 28] == 't' && c[n - 1] == NUL
    requires forall x {:trigger c[x]} :: d <= x < n && x != d + 37 ==> c[x] != '"'
    requires At(c, k, key) && d <= k
    ensures k >= n
  {
    NulOutside(c, k, key, n - 1);
    assert c[k + 9] == key[9] && c[k] == key[0];
  }

  lemma TailShown(b: string, d: nat, p: Part)
    requires Laid(b, d, p) && PrintableNames(p) && d + Length(p) <= |b| && p.filename.None?
    ensures var c, n := Cut(b, d, p, 2), d + NameEnd(p) + 1;
            && d + 38 < n <= |c| && n + |Tail(p)| == d + Length(p) - 2 < |c| && At(c, n, Tail(p))
            && c[d + Length(p) - 2] == NUL && c[n - 1] == NUL && c[d + 28] == 't'
            && forall x {:trigger c[x]} :: d <= x < n && x != d + 37 ==> c[x] != '"'
  {
    hide *;
    var c, n, at := Cut(b, d, p, 2), d + NameEnd(p) + 1, {d + Length(p) - 2, d + 30, d + NameEnd(p)};
    LaidShaped(b, d, p);
    CutNulled(b, d, p);
    TailLaid(b, d, p);
    Places(p);
    KeyStays(b, c, at, n, Tail(p));
    PlainShape(b, c, d, p);
  }

  /** The quotes in front of the tail, once the name is delimited. */
  lemma PlainShape(b: string, c: string, d: nat, p: Part)
    requires Shaped(b, d, p) && p.filename.None? && Nulled(c, b, {d + Length(p) - 2, d + 30, d + NameEnd(p)})
    ensures d + Length(p) <= |c| && c[d + Length(p) - 2] == NUL && c[d + NameEnd(p)] == NUL && c[d + 28] == 't'
    ensures forall x {:trigger c[x]} :: d <= x < d + NameEnd(p) + 1 && x != d + 37 ==> c[x] != '"'
  {
    Places(p);
    hide Length, TypeLine, At;
  }

  /** A search of `c` that finds nothing before the text `s` at `n` is a search of `s`, short of its last byte. */
  lemma FindShifts(c: string, s: string, d: nat, n: nat, key: string)
    requires d <= n && At(c, n, s) && s != "" && key != ""
    requires forall k: nat :: d <= k && At(c, k, key) ==> k >= n
    ensures Find(c, d, n + |s| - 1, key) == Shift(Find(s, 0, |s| - 1, key), n)
  {
    var r, q := Find(c, d, n + |s| - 1, key), Find(s, 0, |s| - 1, key);
    hide Find, At;
    if r.Some? {
      KeyShifts(c, s, r.value, n, key);
    }
    if q.Some? {
      KeyShifts(c, s, n + q.value, n, key);
    }
  }

  /** Without a file name its key is searched in what follows the name. */
  lemma FilenameInTail(b: string, d: nat, p: Part)
    requires Laid(b, d, p) && PrintableNames(p) && d + Length(p) <= |b| && p.filename.None?
    ensures var c, n := Cut(b, d, p, 2), d + NameEnd(p) + 1;
            && Find(c, d, d + Length(p) - 3, FILENAME_KEY) == Shift(TailKey(p), n)
            && (TailKey(p).Some? ==> StrChr(c, n + TailKey(p).value + 10, '"') == Shift(TailQuote(p), n))
  {
    hide *;
    FilenameStartText();
    TailShown(b, d, p);
    TailFacts(p);
    var c, n := Cut(b, d, p, 2), d + NameEnd(p) + 1;
    forall k: nat | d <= k && At(c, k, FILENAME_KEY)
      ensures k >= n
    {
      NoFilenameBefore(c, d, n, FILENAME_KEY, k);
    }
    FindShifts(c, Tail(p), d, n, FILENAME_KEY);
    if TailKey(p).Some? {
      StrChrShifts(c, Tail(p), n, TailKey(p).value + 10, '"');
    }
  }

  lemma TailFacts(p: Part)
    requires p.filename.None?
    ensures |Tail(p)| >= 4 && TailKey(p) == Find(Tail(p), 0, |Tail(p)| - 1, FILENAME_KEY)
    ensures TailKey(p).Some? ==> TailKey(p).value + 10 <= |Tail(p)| && TailQuote(p) == StrChr(Tail(p), TailKey(p).value + 10, '"')
    ensures TailKey(p).None? ==> TailQuote(p).None?
    ensures NUL != '"'
  {
    hide TypeLine, Find;
  }

  lemma AtApart(b: string, i: nat, s: string, x: nat, c: char)
    requires At(b, i, s) && x < |b| && (x < i || i + |s| <= x)
    ensures At(b[x := c], i, s)
  {
  }

  lemma AtChanged(b: string, i: nat, s: string, x: nat, c: char)
    requires At(b, i, s) && i <= x < i + |s|
    ensures At(b[x := c], i, s[x - i := c])
  {
  }

  /** Where the pieces of a section end. */
  lemma Places(p: Part)
    ensures 38 <= NameEnd(p) == 38 + |p.name| && NameEnd(p) <= FilenameEnd(p) && HeadEnd(p) == FilenameEnd(p) + 1 + |TypeLine(p)|
    ensures BodyAt(p) == HeadEnd(p) + 4 && Length(p) == BodyAt(p) + |p.body| + 2
    ensures p.filename.None? ==> FilenameEnd(p) == NameEnd(p)
  {
  }

  lemma FilenamePlace(p: Part)
    ensures FilenameAt(p) == NameEnd(p) + 13 && (p.filename.Some? ==> FilenameEnd(p) == FilenameAt(p) + |p.filename.value|)
  {
  }

  lemma SearchedPlaces(p: Part)
    ensures var q := Searched(p);
            && NameEnd(q) == NameEnd(p) && FilenameAt(q) == FilenameAt(p) && FilenameEnd(q) == FilenameEnd(p)
            && HeadEnd(q) == HeadEnd(p) && BodyAt(q) == BodyAt(p) && Length(q) == Length(p)
  {
    hide Searched, TypeLine;
  }

  /** The pieces of a section without a file name. */
  ghost predicate PlainLaid(b: string, d: nat, p: Part) {
    && At(b, d, NAME_START) && At(b, d + 38, p.name) && At(b, d + NameEnd(p), "\"") && At(b, d + NameEnd(p) + 1, TypeLine(p))
    && At(b, d + HeadEnd(p), CRLF2) && At(b, d + BodyAt(p), p.body) && At(b, d + Length(p) - 2, CRLF)
  }

  lemma LaidPlain(b: string, d: nat, p: Part)
    requires p.filename.None?
    ensures Laid(b, d, p) <==> PlainLaid(b, d, p)
    ensures |NAME_START| == 38 && |CRLF| == 2 && |CRLF2| == 4
  {
    hide At, TypeLine;
  }

  lemma SearchedText(p: Part)
    requires TailQuote(p).Some?
    ensures var q, i := Searched(p), TailQuote(p).value;
            if i < |TypeLine(p)| then TypeLine(q) == TypeLine(p)[i := NUL] && q.body == p.body
            else |TypeLine(p)| + 4 <= i < |Tail(p)| && TypeLine(q) == TypeLine(p) && q.body == p.body[i - |TypeLine(p)| - 4 := NUL]
    ensures p.filename.None? && |Tail(p)| == |TypeLine(p)| + 4 + |p.body|
  {
    QuoteInTail(p);
    hide TailQuote;
  }

  /** What is left after the search for a file name is laid out like a part without that quote. */
  lemma UnquotedLaid(b: string, d: nat, p: Part)
    requires Laid(b, d, p) && d + Length(p) <= |b|
    ensures Laid(Unquoted(b, d, p), d, Searched(p)) && NulledWithin(Unquoted(b, d, p), b, d, d + Length(p))
  {
    match TailQuote(p)
    case None =>
    case Some(i) =>
      hide *;
      QuoteLaid(b, d, p);
  }

  lemma UnquotedIs(b: string, d: nat, p: Part)
    requires TailQuote(p).Some? && d + Length(p) <= |b|
    ensures var x := d + NameEnd(p) + 1 + TailQuote(p).value;
            x < d + Length(p) && Unquoted(b, d, p) == b[x := NUL] && NulledWithin(b[x := NUL], b, d, d + Length(p))
  {
    QuoteInTail(p);
    hide TailQuote, TypeLine;
  }

  lemma QuoteLaid(b: string, d: nat, p: Part)
    requires Laid(b, d, p) && d + Length(p) <= |b| && TailQuote(p).Some?
    ensures Laid(Unquoted(b, d, p), d, Searched(p)) && NulledWithin(Unquoted(b, d, p), b, d, d + Length(p))
  {
    hide At, TypeLine, Tail, TailKey, Searched, TailQuote, Laid, Length, HeadEnd, BodyAt, FilenameEnd, FilenameAt, NameEnd, Unquoted,
         NulledWithin, NAME_START, CRLF, CRLF2;
    SearchedText(p);
    SearchedPlaces(p);
    Places(p);
    LaidPlain(b, d, p);
    UnquotedIs(b, d, p);
    var i, q, x := TailQuote(p).value, Searched(p), d + NameEnd(p) + 1 + TailQuote(p).value;
    LaidPlain(b[x := NUL], d, q);
    AtApart(b, d, NAME_START, x, NUL);
    AtApart(b, d + 38, p.name, x, NUL);
    AtApart(b, d + NameEnd(p), "\"", x, NUL);
    AtApart(b, d + HeadEnd(p), CRLF2, x, NUL);
    AtApart(b, d + Length(p) - 2, CRLF, x, NUL);
    if i < |TypeLine(p)| {
      AtChanged(b, d + NameEnd(p) + 1, TypeLine(p), x, NUL);
      AtApart(b, d + BodyAt(p), p.body, x, NUL);
    } else {
      AtApart(b, d + NameEnd(p) + 1, TypeLine(p), x, NUL);
      AtChanged(b, d + BodyAt(p), p.body, x, NUL);
    }
  }

  lemma CutQuoted(b: string, d: nat, p: Part)
    requires d + Length(p) <= |b| && p.filename.None?
    ensures Cut(b, d, p, 3) == Cut(b, d, p, 2)
  {
    hide TypeLine;
    Places(p);
  }

  lemma CutPlain(b: string, d: nat, p: Part)
    requires d + Length(p) <= |b|
    ensures Cut(b, d, p, 0) == b[d + Length(p) - 2 := NUL]
    ensures d + NameEnd(p) < |b| && Cut(b, d, p, 2) == b[d + Length(p) - 2 := NUL][d + 30 := NUL][d + NameEnd(p) := NUL]
  {
    hide TypeLine;
    CutSteps(b, d, p);
  }

  lemma LastCutFirst(b: string, i: nat, j: nat, k: nat, x: nat)
    requires i < |b| && j < |b| && k < |b| && x < |b|
    ensures b[i := NUL][j := NUL][k := NUL][x := NUL] == b[x := NUL][i := NUL][j := NUL][k := NUL]
  {
  }

  lemma CutUnquoted(b: string, d: nat, p: Part)
    requires d + Length(p) <= |b| && TailQuote(p).Some?
    ensures var x, q := d + NameEnd(p) + 1 + TailQuote(p).value, Searched(p);
            d + Length(q) <= |b| && x < |b| && Cut(b, d, p, 2)[x := NUL] == Cut(Unquoted(b, d, p), d, q, 3)
  {
    QuoteInTail(p);
    hide TailQuote, TypeLine, Searched, Unquoted, Cut, Length;
    SearchedPlaces(p);
    UnquotedIs(b, d, p);
    var u := Unquoted(b, d, p);
    CutQuoted(u, d, Searched(p));
    CutPlain(b, d, p);
    CutPlain(u, d, Searched(p));
    LastCutFirst(b, d + Length(p) - 2, d + 30, d + NameEnd(p), d + NameEnd(p) + 1 + TailQuote(p).value);
  }

  /** What the search for a file name leaves of the section, and what it finds. */
  lemma FilenameSought(b: string, d: nat, p: Part)
    requires Laid(b, d, p) && PrintableNames(p) && d + Length(p) <= |b|
    ensures var q, (c, at) := Searched(p), Take(Cut(b, d, p, 2), d, d + Length(p) - 3, FILENAME_KEY, '"');
            && d + Length(q) <= |b| && c == Cut(Unquoted(b, d, p), d, q, 3)
            && at == if p.filename.Some? then Some(d + FilenameAt(p)) else Shift(TailKey(p), d + FilenameEnd(p) + 11)
  {
    if p.filename.Some? {
      hide *;
      FilenameTaken(b, d, p);
      NothingSought(b, d, p);
    } else {
      hide *;
      PlainSought(b, d, p);
    }
  }

  lemma NothingSought(b: string, d: nat, p: Part)
    requires TailQuote(p).None? || p.filename.Some?
    ensures Searched(p) == p && Unquoted(b, d, p) == b
  {
    hide TypeLine, Find, StrChr;
  }

  lemma PlainSought(b: string, d: nat, p: Part)
    requires Laid(b, d, p) && PrintableNames(p) && d + Length(p) <= |b| && p.filename.None?
    ensures var q, (c, at) := Searched(p), Take(Cut(b, d, p, 2), d, d + Length(p) - 3, FILENAME_KEY, '"');
            && d + Length(q) <= |b| && c == Cut(Unquoted(b, d, p), d, q, 3) && at == Shift(TailKey(p), d + FilenameEnd(p) + 11)
  {
    hide *;
    Places(p);
    FilenameInTail(b, d, p);
    FilenameStartText();
    TailFacts(p);
    CutQuoted(b, d, p);
    CutSteps(b, d, p);
    TakeFrom(Cut(b, d, p, 2), d, d + Length(p) - 3, FILENAME_KEY, '"');
    if TailQuote(p).Some? {
      CutUnquoted(b, d, p);
    } else {
      NothingSought(b, d, p);
    }
    ShiftTwice(TailKey(p), d + NameEnd(p) + 1, 10);
    ShiftOnce(TailKey(p), d + NameEnd(p) + 1);
    ShiftOnce(TailQuote(p), d + NameEnd(p) + 1);
  }

  lemma TakeFrom(c: string, from: nat, upto: nat, key: string, stop: char)
    requires from <= upto <= |c|
    ensures var r := Find(c, from, upto, key);
            if r.None? then Take(c, from, upto, key, stop) == (c, None)
            else
              var j := StrChr(c, r.value + |key|, stop);
              Take(c, from, upto, key, stop) == (if j.Some? then c[j.value := NUL] else c, Some(r.value + |key|))
  {
  }

  lemma ShiftOnce(r: Option<nat>, n: nat)
    ensures Shift(r, n) == if r.Some? then Some(r.value + n) else None
  {
  }

  lemma ShiftTwice(r: Option<nat>, n: nat, m: nat)
    ensures Shift(r, n + m) == if r.Some? then Some(r.value + n + m) else None
  {
  }

  lemma NulledTwice(c: string, b2: string, b: string, lo: nat, hi: nat)
    requires NulledWithin(c, b2, lo, hi) && NulledWithin(b2, b, lo, hi)
    ensures NulledWithin(c, b, lo, hi)
  {
  }

  lemma ContentIntact(c: string, b: string, d: nat, p: Part)
    requires NulledWithin(c, b, d, d + Length(p)) && At(b, d + BodyAt(p), Searched(p).body)
    requires At(c, d + BodyAt(p), Searched(p).body) <==> Damage(Searched(p)).None?
    ensures At(c, d + BodyAt(p), p.body) <==> Intact(p)
  {
    if Searched(p).body != p.body {
      QuoteInTail(p);
      var j := TailQuote(p).value - |TypeLine(p)| - 4;
      assert p.body[j] == '"' && Searched(p).body[j] == NUL;
      hide TailQuote, TypeLine, Damage, Searched;
      assert b[d + BodyAt(p) + j] == NUL;
      assert c[d + BodyAt(p) + j] == NUL != p.body[j];
    }
  }

  /** One encoded section yields its name, its file name if it has one, its size and a pointer to its content,
      which is intact exactly if no text of it is taken for a file name or a media type. */
  lemma SectionIs(b: string, d: nat, max: nat, p: Part)
    requires Laid(b, d, p) && Printable(p) && d + Length(p) <= max <= |b| <= SIZE_MAX
    ensures var (b2, post) := Section(b, d, d + Length(p), max);
            NulledWithin(b2, b, d, d + Length(p)) && ItemAt(b2, d, p, post)
  {
    hide Laid, PrintableNames, At, TypeLine, Take, Find, Nulled, TypeEnded, PointsTo, NulledWithin, Searched, Unquoted, Intact, TailKey,
         PlainNames, TypeAt, Cut;
    var q, u := Searched(p), Unquoted(b, d, p);
    SearchedPlaces(p);
    CutPlain(b, d, p);
    DispositionTaken(b, d, p);
    NameTaken(b, d, p);
    FilenameSought(b, d, p);
    CutNulled(b, d, p);
    FindBlank(b, Cut(b, d, p, 0), d, max, p);
    UnquotedLaid(b, d, p);
    SectionRest(u, b, d, p);
  }

  /** The search for the media type, in what is left then. */
  lemma SectionRest(u: string, b: string, d: nat, p: Part)
    requires Laid(u, d, Searched(p)) && NulledWithin(u, b, d, d + Length(p)) && Printable(p) && d + Length(p) <= |u| == |b|
    requires Length(Searched(p)) == Length(p)
    ensures var (c, at) := Take(Cut(u, d, Searched(p), 3), d, d + Length(p) - 3, TYPE_KEY, '\n');
            && NulledWithin(c, b, d, d + Length(p)) && |c| == |b|
            && PointsTo(c, d + 38, p.name) && (p.filename.Some? ==> PointsTo(c, d + FilenameAt(p), p.filename.value))
            && PointsTo(c, d + 21, "form-data") && (At(c, d + BodyAt(p), p.body) <==> Intact(p))
            && (PlainNames(p) && Searched(p).contentType == p.contentType ==> TypeAt(c, d, Searched(p), at))
  {
    hide Laid, At, TypeLine, Take, Find, Nulled, TypeEnded, PointsTo, NulledWithin, Searched, Unquoted, Intact, TailKey, TypeAt, Cut;
    var q := Searched(p);
    SearchedPlaces(p);
    LaidTexts(u, d, q);
    CutNulled(u, d, q);
    var c3 := Cut(u, d, q, 3);
    TakeType(u, c3, d, q);
    var c := Take(c3, d, d + Length(p) - 3, TYPE_KEY, '\n').0;
    SectionItem(u, c3, c, d, q);
    NulledTwice(c, u, b, d, d + Length(p));
    NulledLength(c, u, d, d + Length(p));
    ContentIntact(c, u, d, p);
    if PlainNames(p) && q.contentType == p.contentType {
      TypeTaken(u, c3, d, q);
    }
  }
}
