/** `http_request::get_ranges`: the Range header of section 2.1 of RFC 7233. */
module Ranges {
  import opened CText

  const SIZE_MAX: nat := 0xFFFF_FFFF_FFFF_FFFF
  const INT_MAX: int := 0x7FFF_FFFF

  datatype Range = Range(start: nat, end: nat)

  /** `size_t` arithmetic and conversion wrap around. */
  function ToSize(i: int): nat {
    i % (SIZE_MAX + 1)
  }

  // ---------------------------------------------------------------- atoi

  predicate IsDigit(c: char) {
    '0' <= c <= '9'
  }

  predicate IsSpace(c: char) {
    c == ' ' || '\t' <= c <= '\r'
  }

  /** The value of the leading digits, most significant first. */
  function DigitsValue(s: string, acc: nat): nat {
    if s == "" || !IsDigit(s[0]) then acc else DigitsValue(s[1..], acc * 10 + (s[0] - '0') as nat)
  }

  /** `atoi`, which converts to `long` with saturation and then keeps the low 32 bits. */
  function Atoi(s: string): int {
    if s == "" then 0
    else if IsSpace(s[0]) then Atoi(s[1..])
    else
      var v := if s[0] == '-' then 0 - DigitsValue(s[1..], 0)
               else if s[0] == '+' then DigitsValue(s[1..], 0) else DigitsValue(s, 0);
      var long := if v > 0x7FFF_FFFF_FFFF_FFFF then 0x7FFF_FFFF_FFFF_FFFF
                  else if v < -0x8000_0000_0000_0000 then -0x8000_0000_0000_0000 else v;
      (long + INT_MAX + 1) % 0x1_0000_0000 - INT_MAX - 1
  }

  // ---------------------------------------------------------------- one token

  datatype Outcome = Accepted(range: Range) | Rejected | Unsatisfiable

  function TokenRange(tok: string, maxSize: nat): Outcome
    requires tok != ""
  {
    var last := ToSize(maxSize - 1);
    if tok[0] != '-' then
      TokensNonempty(tok, {'-'});
      FromParts(Tokens(tok, {'-'}), last)
    else if |tok| > 1 then
      var offset := ToSize(Atoi(tok[1..]));
      if offset == 0 then Rejected else Accepted(Range(ToSize(last - offset), last))
    else Accepted(Range(0, 0))
  }

  /** The loop over the tokens stops at the first one that is not accepted; an unsatisfiable one
      makes the whole header invalid. */
  function TokenRanges(toks: seq<string>, maxSize: nat): (seq<Range>, bool)
    requires forall i :: 0 <= i < |toks| ==> toks[i] != ""
  {
    if toks == [] then ([], true)
    else
      match TokenRange(toks[0], maxSize)
      case Accepted(r) => var rest := TokenRanges(toks[1..], maxSize); ([r] + rest.0, rest.1)
      case Rejected => ([], true)
      case Unsatisfiable => ([], false)
  }

  const SEPARATORS: set<char> := {',', ' '}

  function ParseRanges(rangeStr: string, maxSize: nat): (seq<Range>, bool)
    requires rangeStr == "" || rangeStr == "none" || |rangeStr| >= 6
  {
    if rangeStr == "" || rangeStr == "none" then ([], true)
    else
      TokensNonempty(rangeStr[6..], SEPARATORS);
      TokenRanges(Tokens(rangeStr[6..], SEPARATORS), maxSize)
  }

  // ---------------------------------------------------------------- the method

  /** `s` and `t` agree from index `from` on. */
  ghost predicate SameFrom(s: string, t: string, from: nat) {
    |s| == |t| && forall k {:trigger t[k]} {:trigger s[k]} :: from <= k < |t| ==> s[k] == t[k]
  }

  /** The range with an explicit first position, from the tokens of the two `strtok_r` calls. */
  function FromParts(parts: seq<string>, last: nat): Outcome
    requires parts != [] && forall i :: 0 <= i < |parts| ==> parts[i] != ""
  {
    var start := ToSize(Atoi(parts[0]));
    if start >= last then Unsatisfiable
    else if parts[0][0] != '0' && start == 0 then Rejected
    else if |parts| == 1 then Accepted(Range(start, last))
    else
      var end := ToSize(Atoi(parts[1]));
      if parts[1][0] != '0' && end == 0 then Rejected else Accepted(Range(start, end))
  }

  method FromPartsInPlace(cpy: array<char>, tok: nat, last: nat, ghost t: string) returns (r: Outcome)
    requires PointsTo(cpy[..], tok, t) && t != "" && t[0] != '-'
    modifies cpy
    ensures Tokens(t, {'-'}) != [] && (forall i :: 0 <= i < |Tokens(t, {'-'})| ==> Tokens(t, {'-'})[i] != "")
    ensures r == FromParts(Tokens(t, {'-'}), last)
    ensures SameFrom(cpy[..], old(cpy[..]), tok + |t|)
  {
    TokensNonempty(t, {'-'});
    ghost var parts, rest := Tokens(t, {'-'}), "";
    hide Tokens, Atoi, ToSize;
    var rangeStart, rangeEnd, save;
    rangeStart, save, rest := Strtok(cpy, tok, {'-'}, t);
    rangeEnd, save, rest := Strtok(cpy, save, {'-'}, rest);
    assert PointsTo(cpy[..], rangeStart, parts[0]);
    CStrIs(cpy[..], rangeStart, parts[0]);
    assert cpy[..][rangeStart] == parts[0][0];
    if rangeEnd >= 0 {
      CStrIs(cpy[..], rangeEnd, parts[1]);
      assert cpy[..][rangeEnd] == parts[1][0];
    }
    hide PointsTo;
    var start := ToSize(Atoi(CStr(cpy[..], rangeStart)));
    if start >= last {
      r := Unsatisfiable;
    } else if cpy[rangeStart] != '0' && start == 0 {
      r := Rejected;
    } else if rangeEnd < 0 {
      r := Accepted(Range(start, last));
    } else {
      var end := ToSize(Atoi(CStr(cpy[..], rangeEnd)));
      r := if cpy[rangeEnd] != '0' && end == 0 then Rejected else Accepted(Range(start, end));
    }
  }

  /** The body of the loop, on the token at `tok`; `t` is that token. */
  method TokenRangeInPlace(cpy: array<char>, tok: nat, maxSize: nat, ghost t: string) returns (r: Outcome)
    requires PointsTo(cpy[..], tok, t) && t != ""
    modifies cpy
    ensures r == TokenRange(t, maxSize)
    ensures SameFrom(cpy[..], old(cpy[..]), tok + |t|)
  {
    var last := ToSize(maxSize - 1);
    CStrIs(cpy[..], tok, t);
    assert cpy[..][tok] == t[0];
    if cpy[tok] != '-' {
      r := FromPartsInPlace(cpy, tok, last, t);
    } else if |CStr(cpy[..], tok)| > 1 {
      assert PointsTo(cpy[..], tok + 1, t[1..]);
      CStrIs(cpy[..], tok + 1, t[1..]);
      assert cpy[..][tok + 1] == t[1];
      var endOffset := ToSize(Atoi(CStr(cpy[..], tok + 1)));
      var back: int := last as int - endOffset;
      r := if cpy[tok + 1] != NUL && endOffset == 0 then Rejected else Accepted(Range(ToSize(back), last));
    } else {
      r := Accepted(Range(0, 0));
    }
  }

  /** The loop of `get_ranges` over the copied text. */
  method RangesInPlace(cpy: array<char>, maxSize: nat, ghost text: string) returns (ranges: seq<Range>, valid: bool)
    requires PointsTo(cpy[..], 0, text)
    modifies cpy
    ensures forall i :: 0 <= i < |Tokens(text, SEPARATORS)| ==> Tokens(text, SEPARATORS)[i] != ""
    ensures (ranges, valid) == TokenRanges(Tokens(text, SEPARATORS), maxSize)
  {
    TokensNonempty(text, SEPARATORS);
    hide Tokens, TokenRange;
    ghost var todo := Tokens(text, SEPARATORS);
    ghost var all, rest := TokenRanges(todo, maxSize), "";
    var tok, save;
    tok, save, rest := Strtok(cpy, 0, SEPARATORS, text);
    ranges, valid := [], true;
    while tok >= 0
      invariant Pending(cpy[..], tok, save, rest, todo, SEPARATORS)
      invariant valid && all.0 == ranges + TokenRanges(todo, maxSize).0 && all.1 == TokenRanges(todo, maxSize).1
      decreases |todo|
    {
      var r := TokenRangeInPlace(cpy, tok, maxSize, todo[0]);
      assert PointsTo(cpy[..], save, rest);
      hide PointsTo;
      if r.Unsatisfiable? {
        valid := false;
        break;
      }
      if r.Rejected? {
        break;
      }
      ranges := ranges + [r.range];
      todo := todo[1..];
      tok, save, rest := Strtok(cpy, save, SEPARATORS, rest);
    }
    assert ranges + [] == ranges;
  }

  /** `get_ranges`: the header value is copied and tokenized in place.  For a value shorter than six characters
      other than "none" the source allocates a negative number of bytes, or none and reads them. */
  method GetRanges(rangeStr: string, maxSize: nat) returns (ranges: seq<Range>, valid: bool)
    requires rangeStr == "" || rangeStr == "none" || |rangeStr| >= 6
    requires NUL !in rangeStr
    ensures (ranges, valid) == ParseRanges(rangeStr, maxSize)
  {
    if rangeStr == "" || rangeStr == "none" {
      return [], true;
    }
    ghost var text := rangeStr[6..];
    var cpyLen := |rangeStr| - 6 + 1;
    var cpy := new char[cpyLen](i requires 0 <= i => if i + 6 < |rangeStr| then rangeStr[i + 6] else NUL);
    assert PointsTo(cpy[..], 0, text);
    ranges, valid := RangesInPlace(cpy, maxSize, text);
  }
}
