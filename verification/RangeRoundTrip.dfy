/** Printing byte ranges by the grammar of section 2.1 of RFC 7233 and parsing them back. */
module RangeRoundTrip {
  import opened CText
  import opened Ranges

  /** `first-last`, `first-` and `-length`, and what is none of these: a text that does not begin with a number, one
      in place of the last position, and a dash alone. */
  datatype ByteRange =
    | FromTo(first: nat, last: nat)
    | From(first: nat)
    | Suffix(length: nat)
    | Junk(text: string)
    | FromJunk(first: nat, text: string)
    | Dash

  /** The spec has a first position and, if any, a last one. */
  predicate Positioned(r: ByteRange) {
    r.FromTo? || r.From?
  }

  /** The range that a spec with a first position asks for, of a file of `size` bytes. */
  function RangeOf(r: ByteRange, size: nat): Range {
    match r
    case FromTo(a, b) => Range(a, b)
    case From(a) => Range(a, ToSize(size - 1))
    case _ => Range(0, 0)
  }

  /** The spec starts before the last byte. */
  predicate StartsInside(r: ByteRange, size: nat) {
    Positioned(r) && r.first < size - 1
  }

  /** `atoi` finds no number at the start of the text. */
  predicate NoNumber(t: string) {
    t != "" && !IsDigit(t[0]) && !IsSpace(t[0]) && t[0] != '-' && t[0] != '+'
  }

  function Digit(d: nat): char
    requires d < 10
  {
    ('0' as int + d) as char
  }

  function Dec(n: nat): string {
    if n < 10 then [Digit(n)] else Dec(n / 10) + [Digit(n % 10)]
  }

  function Print(r: ByteRange): string {
    match r
    case FromTo(a, b) => Dec(a) + "-" + Dec(b)
    case From(a) => Dec(a) + "-"
    case Suffix(n) => "-" + Dec(n)
    case Junk(text) => text
    case FromJunk(a, text) => Dec(a) + "-" + text
    case Dash => "-"
  }

  function Printed(rs: seq<ByteRange>): seq<string> {
    seq(|rs|, i requires 0 <= i < |rs| => Print(rs[i]))
  }

  /** The value of a Range header; the specs are separated by any commas and spaces. */
  function Header(rs: seq<ByteRange>, sep: string): string {
    "bytes=" + Join(Printed(rs), sep)
  }

  /** Every number fits an `int`, and every other text is none and holds no separator. */
  ghost predicate Fits(r: ByteRange) {
    match r
    case FromTo(a, b) => a <= INT_MAX && b <= INT_MAX
    case From(a) => a <= INT_MAX
    case Suffix(n) => n <= INT_MAX
    case Junk(text) => NoNumber(text) && TokenLike(text, SEPARATORS)
    case FromJunk(a, text) => a <= INT_MAX && NoNumber(text) && TokenLike(text, SEPARATORS + {'-'})
    case Dash => true
  }

  /** What the code makes of one spec. */
  function Meaning(r: ByteRange, maxSize: nat): Outcome {
    var last := ToSize(maxSize - 1);
    match r
    case FromTo(a, b) => if a >= last then Unsatisfiable else Accepted(Range(a, b))
    case From(a) => if a >= last then Unsatisfiable else Accepted(Range(a, last))
    case Suffix(n) => if n == 0 then Rejected else Accepted(Range(ToSize(last - n), last))
    case Junk(_) => if last == 0 then Unsatisfiable else Rejected
    case FromJunk(a, _) => if a >= last then Unsatisfiable else Rejected
    case Dash => Accepted(Range(0, 0))
  }

  function Meanings(rs: seq<ByteRange>, maxSize: nat): (seq<Range>, bool) {
    if rs == [] then ([], true)
    else
      match Meaning(rs[0], maxSize)
      case Accepted(r) => var rest := Meanings(rs[1..], maxSize); ([r] + rest.0, rest.1)
      case Rejected => ([], true)
      case Unsatisfiable => ([], false)
  }

  // ---------------------------------------------------------------- numbers

  lemma {:induction false} DecDigits(n: nat)
    ensures Dec(n) != "" && (Dec(n)[0] == '0' <==> n == 0)
    ensures forall k :: 0 <= k < |Dec(n)| ==> IsDigit(Dec(n)[k])
  {
    if n >= 10 {
      DecDigits(n / 10);
    }
  }

  lemma {:induction false} DigitsValueAppend(s: string, t: string, acc: nat)
    requires forall k :: 0 <= k < |s| ==> IsDigit(s[k])
    ensures DigitsValue(s + t, acc) == DigitsValue(t, DigitsValue(s, acc))
  {
    if s == "" {
      assert s + t == t;
    } else {
      assert (s + t)[1..] == s[1..] + t;
      DigitsValueAppend(s[1..], t, acc * 10 + (s[0] - '0') as nat);
    }
  }

  lemma {:induction false} DecValue(n: nat)
    ensures DigitsValue(Dec(n), 0) == n
  {
    if n >= 10 {
      DecDigits(n / 10);
      DecValue(n / 10);
      DigitsValueAppend(Dec(n / 10), [Digit(n % 10)], 0);
      assert DigitsValue([Digit(n % 10)], n / 10) == n / 10 * 10 + n % 10;
    }
  }

  lemma AtoiDec(n: nat)
    requires n <= INT_MAX
    ensures Atoi(Dec(n)) == n == ToSize(Atoi(Dec(n)))
  {
    DecDigits(n);
    DecValue(n);
    assert IsDigit(Dec(n)[0]);
  }

  /** The value that `strtol` gives, which saturates. */
  function Saturated(v: int): int {
    if v > 0x7FFF_FFFF_FFFF_FFFF then 0x7FFF_FFFF_FFFF_FFFF else if v < -0x8000_0000_0000_0000 then -0x8000_0000_0000_0000 else v
  }

  lemma {:induction false} DigitsStop(s: string, rest: string, acc: nat)
    requires (forall k :: 0 <= k < |s| ==> IsDigit(s[k])) && (rest != "" ==> !IsDigit(rest[0]))
    ensures DigitsValue(s + rest, acc) == DigitsValue(s, acc)
  {
    DigitsValueAppend(s, rest, acc);
    DigitsValueAppend(s, "", acc);
    assert s + "" == s;
  }

  lemma {:induction false} SpacesSkipped(ws: string, s: string)
    requires forall k :: 0 <= k < |ws| ==> IsSpace(ws[k])
    ensures Atoi(ws + s) == Atoi(s)
  {
    if ws == "" {
      assert ws + s == s;
    } else {
      assert (ws + s)[1..] == ws[1..] + s;
      SpacesSkipped(ws[1..], s);
    }
  }

  /** `atoi` of any number as it may be written: spaces, a sign, digits and whatever follows them. It is the number
      if that is an `int`, and otherwise the `int` that agrees with the saturated number in the low 32 bits. */
  lemma AtoiText(ws: string, sign: string, n: nat, rest: string)
    requires (forall k :: 0 <= k < |ws| ==> IsSpace(ws[k])) && (sign == "" || sign == "+" || sign == "-")
    requires rest != "" ==> !IsDigit(rest[0])
    ensures var v, r := if sign == "-" then 0 - n else n, Atoi(ws + (sign + (Dec(n) + rest)));
            && -INT_MAX - 1 <= r <= INT_MAX && (r - Saturated(v)) % 0x1_0000_0000 == 0
            && (-INT_MAX - 1 <= v <= INT_MAX ==> r == v)
  {
    hide Atoi, Dec, DigitsValue;
    var s := Dec(n) + rest;
    SpacesSkipped(ws, sign + s);
    DecDigits(n);
    DecValue(n);
    DigitsStop(Dec(n), rest, 0);
    assert s[0] == Dec(n)[0] && IsDigit(s[0]);
    SignedValue(sign, s);
    LowBits(Saturated(if sign == "-" then 0 - n else n));
  }

  lemma SignedValue(sign: string, s: string)
    requires (sign == "" || sign == "+" || sign == "-") && s != "" && IsDigit(s[0])
    ensures var n := DigitsValue(s, 0);
            Atoi(sign + s) == (Saturated(if sign == "-" then 0 - n else n) + INT_MAX + 1) % 0x1_0000_0000 - INT_MAX - 1
  {
    hide DigitsValue;
    if sign == "" {
      assert sign + s == s;
    } else {
      assert (sign + s)[1..] == s;
    }
  }

  lemma LowBits(v: int)
    ensures var r := (v + INT_MAX + 1) % 0x1_0000_0000 - INT_MAX - 1;
            -INT_MAX - 1 <= r <= INT_MAX && (r - v) % 0x1_0000_0000 == 0 && (-INT_MAX - 1 <= v <= INT_MAX ==> r == v)
  {
  }

  // ---------------------------------------------------------------- round trip

  lemma DecToken(n: nat, delims: set<char>)
    requires forall c :: c in delims ==> !IsDigit(c)
    ensures TokenLike(Dec(n), delims)
  {
    DecDigits(n);
  }

  lemma PrintToken(r: ByteRange)
    requires Fits(r)
    ensures TokenLike(Print(r), SEPARATORS)
  {
    match r
    case FromTo(a, b) => DecToken(a, SEPARATORS); DecToken(b, SEPARATORS);
    case From(a) => DecToken(a, SEPARATORS);
    case Suffix(n) => DecToken(n, SEPARATORS);
    case Junk(_) =>
    case FromJunk(a, _) => DecToken(a, SEPARATORS);
    case Dash =>
  }

  lemma PartsOf(r: ByteRange)
    requires Positioned(r) || (r.FromJunk? && Fits(r))
    ensures Tokens(Print(r), {'-'}) ==
            if r.FromTo? then [Dec(r.first), Dec(r.last)] else if r.FromJunk? then [Dec(r.first), r.text] else [Dec(r.first)]
  {
    DecToken(r.first, {'-'});
    match r
    case FromTo(a, b) =>
      DecToken(b, {'-'});
      TokensOfJoin([Dec(a), Dec(b)], "-", {'-'});
      assert Join([Dec(a), Dec(b)], "-") == Print(r);
    case From(a) =>
      TokensFirst(Dec(a), "-", {'-'});
      TokensNone("-", {'-'});
    case FromJunk(a, text) =>
      TokensOfJoin([Dec(a), text], "-", {'-'});
      assert Join([Dec(a), text], "-") == Print(r);
  }

  lemma AtoiNone(t: string)
    requires NoNumber(t)
    ensures Atoi(t) == 0 == ToSize(Atoi(t)) && t[0] != '0'
  {
  }

  lemma FirstTokenBegins(t: string, c: char)
    requires t != "" && t[0] != c
    ensures Tokens(t, {c}) != [] && Tokens(t, {c})[0] != "" && Tokens(t, {c})[0][0] == t[0]
  {
    PrefixLenIs(t, {c}, true, 0);
    assert t[0..] == t;
  }

  lemma PrintMeans(r: ByteRange, maxSize: nat)
    requires Fits(r)
    ensures Print(r) != "" && TokenRange(Print(r), maxSize) == Meaning(r, maxSize)
  {
    hide TokenRange, Meaning, Tokens, Atoi, Dec;
    PrintToken(r);
    match r
    case Suffix(n) => SuffixMeans(n, maxSize);
    case FromTo(_, _) => PositionMeans(r, maxSize);
    case From(_) => PositionMeans(r, maxSize);
    case Junk(text) => JunkMeans(text, maxSize);
    case FromJunk(_, _) => PositionMeans(r, maxSize);
    case Dash => DashMeans(maxSize);
  }

  lemma DashMeans(maxSize: nat)
    ensures TokenRange("-", maxSize) == Meaning(Dash, maxSize)
  {
  }

  lemma SuffixMeans(n: nat, maxSize: nat)
    requires n <= INT_MAX
    ensures TokenRange("-" + Dec(n), maxSize) == Meaning(Suffix(n), maxSize)
  {
    hide Tokens, Atoi, Dec;
    DecDigits(n);
    AtoiDec(n);
    assert ("-" + Dec(n))[1..] == Dec(n);
  }

  lemma JunkMeans(text: string, maxSize: nat)
    requires NoNumber(text)
    ensures TokenRange(text, maxSize) == Meaning(Junk(text), maxSize)
  {
    hide Tokens, Atoi;
    FirstTokenBegins(text, '-');
    AtoiNone(Tokens(text, {'-'})[0]);
  }

  /** A token that begins with a number. */
  lemma PositionMeans(r: ByteRange, maxSize: nat)
    requires Fits(r) && (Positioned(r) || r.FromJunk?)
    ensures Print(r) != "" && TokenRange(Print(r), maxSize) == Meaning(r, maxSize)
  {
    hide TokenRange, Meaning, FromParts, Tokens, Atoi, Dec;
    PartsOf(r);
    DecDigits(r.first);
    assert Print(r)[0] == Dec(r.first)[0] && IsDigit(Dec(r.first)[0]);
    TokenParts(Print(r), maxSize);
    PartsMean(r, maxSize);
  }

  lemma TokenParts(tok: string, maxSize: nat)
    requires tok != "" && IsDigit(tok[0])
    ensures Tokens(tok, {'-'}) != [] && forall i :: 0 <= i < |Tokens(tok, {'-'})| ==> Tokens(tok, {'-'})[i] != ""
    ensures TokenRange(tok, maxSize) == FromParts(Tokens(tok, {'-'}), ToSize(maxSize - 1))
  {
    hide FromParts, Tokens, Atoi;
    TokensNonempty(tok, {'-'});
  }

  lemma PartsMean(r: ByteRange, maxSize: nat)
    requires Fits(r) && (Positioned(r) || r.FromJunk?)
    ensures var parts := if r.FromTo? then [Dec(r.first), Dec(r.last)] else if r.FromJunk? then [Dec(r.first), r.text] else [Dec(r.first)];
            (forall i :: 0 <= i < |parts| ==> parts[i] != "") && FromParts(parts, ToSize(maxSize - 1)) == Meaning(r, maxSize)
  {
    hide Atoi, Dec;
    DecDigits(r.first);
    AtoiDec(r.first);
    if r.FromTo? {
      DecDigits(r.last);
      AtoiDec(r.last);
    } else if r.FromJunk? {
      AtoiNone(r.text);
    }
  }

  lemma {:induction false} TokensMean(rs: seq<ByteRange>, maxSize: nat)
    requires forall i :: 0 <= i < |rs| ==> Fits(rs[i])
    ensures forall i :: 0 <= i < |rs| ==> Printed(rs)[i] != ""
    ensures TokenRanges(Printed(rs), maxSize) == Meanings(rs, maxSize)
  {
    forall i | 0 <= i < |rs|
      ensures Printed(rs)[i] != ""
    {
      PrintToken(rs[i]);
    }
    if rs != [] {
      PrintMeans(rs[0], maxSize);
      assert Printed(rs)[1..] == Printed(rs[1..]);
      TokensMean(rs[1..], maxSize);
    }
  }

  /** Parsing a printed header gives the meaning of the specs up to the first one that is not
      accepted, and reports the header as invalid exactly if that one is unsatisfiable. */
  lemma ParseOfPrinted(rs: seq<ByteRange>, sep: string, maxSize: nat)
    requires rs != [] && forall i :: 0 <= i < |rs| ==> Fits(rs[i])
    requires sep != "" && forall k :: 0 <= k < |sep| ==> sep[k] in SEPARATORS
    ensures ParseRanges(Header(rs, sep), maxSize) == Meanings(rs, maxSize)
  {
    forall i | 0 <= i < |rs|
      ensures TokenLike(Printed(rs)[i], SEPARATORS)
    {
      PrintToken(rs[i]);
    }
    TokensOfJoin(Printed(rs), sep, SEPARATORS);
    TokensMean(rs, maxSize);
    var h := Header(rs, sep);
    assert h[6..] == Join(Printed(rs), sep) && h[0] == 'b';
  }

  /** The ranges that the specs ask for, in order. */
  function RangesOf(rs: seq<ByteRange>, size: nat): seq<Range> {
    seq(|rs|, i requires 0 <= i < |rs| => RangeOf(rs[i], size))
  }

  lemma {:induction false} MeaningsExact(rs: seq<ByteRange>, maxSize: nat)
    requires 2 <= maxSize <= SIZE_MAX && forall i :: 0 <= i < |rs| ==> StartsInside(rs[i], maxSize)
    ensures Meanings(rs, maxSize) == (RangesOf(rs, maxSize), true)
  {
    if rs == [] {
      assert RangesOf(rs, maxSize) == [];
    } else {
      assert StartsInside(rs[0], maxSize);
      MeaningsExact(rs[1..], maxSize);
      assert RangesOf(rs, maxSize) == [RangeOf(rs[0], maxSize)] + RangesOf(rs[1..], maxSize);
    }
  }

  /** If every spec starts before the last byte, the round trip is exact: one range per spec, in
      order, `a-` ending at the last byte, and the header valid. */
  lemma RangeRoundTrip(rs: seq<ByteRange>, sep: string, maxSize: nat)
    requires rs != [] && 2 <= maxSize <= SIZE_MAX
    requires forall i :: 0 <= i < |rs| ==> Fits(rs[i]) && StartsInside(rs[i], maxSize)
    requires sep != "" && forall k :: 0 <= k < |sep| ==> sep[k] in SEPARATORS
    ensures ParseRanges(Header(rs, sep), maxSize) == (RangesOf(rs, maxSize), true)
  {
    hide Header, ParseRanges;
    ParseOfPrinted(rs, sep, maxSize);
    MeaningsExact(rs, maxSize);
  }

  // ---------------------------------------------------------------- against the standard

  datatype Standard = Ignored | NotSatisfiable | Selects(range: Range)

  /** What section 2.1 of RFC 7233 says a spec selects from a representation of `size` bytes; what is no spec makes
      the header invalid, so that it is ignored. */
  function StandardMeaning(r: ByteRange, size: nat): Standard
    requires size > 0
  {
    match r
    case FromTo(a, b) =>
      if b < a then Ignored
      else if a >= size then NotSatisfiable
      else Selects(Range(a, if b >= size then size - 1 else b))
    case From(a) => if a >= size then NotSatisfiable else Selects(Range(a, size - 1))
    case Suffix(n) =>
      if n == 0 then NotSatisfiable else Selects(Range(if n >= size then 0 else size - n, size - 1))
    case _ => Ignored
  }

  predicate Agree(o: Outcome, s: Standard) {
    match s
    case Ignored => o.Rejected?
    case NotSatisfiable => o.Unsatisfiable?
    case Selects(r) => o == Accepted(r)
  }

  /** The code follows the standard exactly for specs with a first position that is not the last byte of the file,
      and with a last position that is in order and, if it matters, inside the file; and for what is no spec, unless
      it is a dash or the position where the code believes it to start is not inside the file. */
  lemma AgreesWithStandard(r: ByteRange, size: nat)
    requires 0 < size <= SIZE_MAX && Fits(r)
    ensures Agree(Meaning(r, size), StandardMeaning(r, size)) <==>
            match r
            case FromTo(a, b) => a != size - 1 && a <= b && (a < size ==> b < size)
            case From(a) => a != size - 1
            case Suffix(_) => false
            case Junk(_) => size > 1
            case FromJunk(a, _) => a < size - 1
            case Dash => false
  {
  }
}
