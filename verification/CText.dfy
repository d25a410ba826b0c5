/** C strings inside a byte buffer, and the library functions the parsers are built on. */
module CText {
  import opened Options

  const NUL: char := '\0'

  /** The C string at index `p` of buffer `s` is `t`. */
  ghost predicate PointsTo(s: string, p: nat, t: string) {
    && p + |t| < |s| && s[p + |t|] == NUL
    && forall k {:trigger s[k]} :: p <= k < p + |t| ==> s[k] == t[k - p] && s[k] != NUL
  }

  /** The C string that starts at `p`. */
  function CStr(s: string, p: nat): string
    requires p <= |s|
    decreases |s| - p
  {
    if p == |s| || s[p] == NUL then "" else [s[p]] + CStr(s, p + 1)
  }

  lemma {:induction false} CStrLength(s: string, i: nat)
    requires i <= |s|
    ensures |CStr(s, i)| <= |s| - i
    decreases |s| - i
  {
    if i < |s| && s[i] != NUL {
      CStrLength(s, i + 1);
    }
  }

  lemma {:induction false} CStrIs(s: string, p: nat, t: string)
    requires PointsTo(s, p, t)
    ensures CStr(s, p) == t
    decreases |t|
  {
    if t != "" {
      CStrIs(s, p + 1, t[1..]);
    }
  }

  const CRLF: string := "\r\n"
  const CRLF2: string := "\r\n\r\n"

  // ---------------------------------------------------------------- searching

  predicate StartsWith(s: string, p: string) {
    |p| <= |s| && s[..|p|] == p
  }

  /** `strstr`: the first occurrence. */
  function StrStr(s: string, p: string): (r: Option<nat>)
    ensures r.Some? ==> r.value + |p| <= |s| && s[r.value..r.value + |p|] == p
  {
    if StartsWith(s, p) then Some(0)
    else if s == "" then None
    else match StrStr(s[1..], p)
      case None => None
      case Some(i) => Some(i + 1)
  }

  /** `p` occurs in `b` at `i`. */
  predicate At(b: string, i: nat, p: string) {
    i + |p| <= |b| && forall k {:trigger b[k]} :: i <= k < i + |p| ==> b[k] == p[k - i]
  }

  /** `memmem` on the bytes from `from` up to `upto`: the first occurrence inside. */
  function Find(b: string, from: nat, upto: nat, p: string): (r: Option<nat>)
    requires from <= upto <= |b|
    ensures r.Some? ==> from <= r.value <= r.value + |p| <= upto && At(b, r.value, p)
    ensures forall i: nat :: from <= i && i + |p| <= upto && (r.Some? ==> i < r.value) ==> !At(b, i, p)
    decreases upto - from
  {
    if from + |p| > upto then None
    else if At(b, from, p) then Some(from)
    else if from == upto then None
    else Find(b, from + 1, upto, p)
  }

  /** `strchr`: the first `c` in the C string at `i`. */
  function StrChr(b: string, i: nat, c: char): (r: Option<nat>)
    requires i <= |b|
    ensures r.Some? ==> i <= r.value < |b| && b[r.value] == c && forall k :: i <= k < r.value ==> b[k] != c && b[k] != NUL
    decreases |b| - i
  {
    if i == |b| then None
    else if b[i] == c then Some(i)
    else if b[i] == NUL then None
    else StrChr(b, i + 1, c)
  }

  method MatchAt(a: array<char>, i: nat, p: string) returns (yes: bool)
    requires i + |p| <= a.Length
    ensures yes == At(a[..], i, p)
  {
    var j := 0;
    while j < |p| && a[i + j] == p[j]
      invariant 0 <= j <= |p|
      invariant forall k {:trigger a[k]} :: i <= k < i + j ==> a[k] == p[k - i]
    {
      j := j + 1;
    }
    yes := j == |p|;
    assert !yes ==> a[..][i + j] != p[j];
  }

  method Memmem(a: array<char>, from: nat, upto: nat, p: string) returns (r: Option<nat>)
    requires from <= upto <= a.Length
    ensures r == Find(a[..], from, upto, p)
  {
    var i := from;
    while i + |p| <= upto
      invariant from <= i <= upto + 1
      invariant forall k: nat :: from <= k < i ==> !At(a[..], k, p)
      decreases upto + 1 - i
    {
      var yes := MatchAt(a, i, p);
      if yes {
        return Some(i);
      }
      i := i + 1;
    }
    return None;
  }

  /** `strchr`, where there is a NUL at `z`. */
  method Strchr(a: array<char>, from: nat, c: char, ghost z: nat) returns (r: Option<nat>)
    requires from <= z < a.Length && a[z] == NUL
    ensures r == StrChr(a[..], from, c)
  {
    var i := from;
    while a[i] != c && a[i] != NUL
      invariant from <= i <= z
      invariant StrChr(a[..], from, c) == StrChr(a[..], i, c)
      decreases z - i
    {
      i := i + 1;
    }
    r := if a[i] == c then Some(i) else None;
  }

  lemma AtStartsWith(b: string, i: nat, s: string, p: string)
    requires PointsTo(b, i, s) && NUL !in p
    ensures At(b, i, p) <==> StartsWith(s, p)
  {
    if At(b, i, p) {
      assert forall k {:trigger b[k]} :: i <= k < i + |p| ==> b[k] == p[k - i] != NUL;
      assert forall k :: 0 <= k < |p| ==> s[k] == b[i + k] == p[k];
    } else if StartsWith(s, p) {
      forall k | i <= k < i + |p|
        ensures b[k] == p[k - i]
      {
        assert b[k] == s[k - i] == s[..|p|][k - i];
      }
    }
  }

  lemma StrStrStep(cs: string, n: nat, p: string)
    requires n < |cs| && StrStr(cs, p) == Shift(StrStr(cs[n..], p), n) && !StartsWith(cs[n..], p)
    ensures StrStr(cs, p) == Shift(StrStr(cs[n + 1..], p), n + 1)
  {
    hide StrStr, StartsWith;
    StrStrTail(cs[n..], p);
    assert cs[n..][1..] == cs[n + 1..];
  }

  lemma StrStrTail(s: string, p: string)
    requires s != "" && !StartsWith(s, p)
    ensures StrStr(s, p) == Shift(StrStr(s[1..], p), 1)
  {
  }

  lemma PointsOn(b: string, i: nat, s: string, n: nat)
    requires PointsTo(b, i, s) && n <= |s|
    ensures PointsTo(b, i + n, s[n..]) && (b[i + n] == NUL <==> n == |s|)
  {
  }

  lemma PointsInside(b: string, i: nat, s: string)
    requires PointsTo(b, i, s)
    ensures i + |s| < |b| && b[i + |s|] == NUL
  {
  }

  /** `strstr` on the C string `cs` at `from`. */
  method Strstr(a: array<char>, from: nat, p: string, ghost cs: string) returns (r: Option<nat>)
    requires PointsTo(a[..], from, cs) && NUL !in p && p != ""
    ensures r == Shift(StrStr(cs, p), from)
  {
    hide PointsTo, At, StartsWith, StrStr;
    PointsInside(a[..], from, cs);
    var i := from;
    PointsOn(a[..], from, cs, 0);
    assert cs[0..] == cs;
    while a[i] != NUL
      invariant from <= i <= from + |cs| < a.Length
      invariant PointsTo(a[..], i, cs[i - from..]) && (a[i] == NUL <==> i - from == |cs|)
      invariant StrStr(cs, p) == Shift(StrStr(cs[i - from..], p), i - from)
      decreases from + |cs| - i
    {
      AtStartsWith(a[..], i, cs[i - from..], p);
      var yes := false;
      if i + |p| <= a.Length {
        yes := MatchAt(a, i, p);
      }
      AtFits(a[..], i, p);
      if yes {
        StrStrFirst(cs[i - from..], p);
        return Some(i);
      }
      StrStrStep(cs, i - from, p);
      PointsOn(a[..], from, cs, i + 1 - from);
      i := i + 1;
    }
    StrStrNone(p);
    return None;
  }

  lemma StrStrFirst(s: string, p: string)
    requires StartsWith(s, p)
    ensures StrStr(s, p) == Some(0)
  {
  }

  lemma AtFits(b: string, i: nat, p: string)
    ensures At(b, i, p) ==> i + |p| <= |b|
  {
  }

  lemma StrStrNone(p: string)
    requires p != ""
    ensures StrStr("", p) == None
  {
  }

  // ---------------------------------------------------------------- tokens

  /** The length of the longest prefix whose characters all are (or all are not) delimiters. */
  function PrefixLen(s: string, delims: set<char>, inside: bool): (n: nat)
    ensures n <= |s|
    ensures forall k :: 0 <= k < n ==> (s[k] in delims) == inside
    ensures n < |s| ==> (s[n] in delims) != inside
  {
    if s == [] || (s[0] in delims) != inside then 0 else 1 + PrefixLen(s[1..], delims, inside)
  }

  lemma PrefixLenIs(s: string, delims: set<char>, inside: bool, n: nat)
    requires n <= |s| && (n < |s| ==> (s[n] in delims) != inside)
    requires forall k :: 0 <= k < n ==> (s[k] in delims) == inside
    ensures PrefixLen(s, delims, inside) == n
  {
  }

  /** The tokens that repeated `strtok_r` calls return: the maximal runs free of delimiters. */
  function Tokens(s: string, delims: set<char>): seq<string>
    decreases |s|
  {
    var from := PrefixLen(s, delims, true);
    if from == |s| then []
    else
      var n := PrefixLen(s[from..], delims, false);
      [s[from..from + n]] + Tokens(s[from + n..], delims)
  }

  lemma TokensNonempty(s: string, delims: set<char>)
    ensures forall i :: 0 <= i < |Tokens(s, delims)| ==> Tokens(s, delims)[i] != ""
    ensures s != "" && s[0] !in delims ==> Tokens(s, delims) != []
    decreases |s|
  {
    var from := PrefixLen(s, delims, true);
    if from < |s| {
      var n := PrefixLen(s[from..], delims, false);
      TokensNonempty(s[from + n..], delims);
    }
  }

  lemma TokensNone(s: string, delims: set<char>)
    requires forall k :: 0 <= k < |s| ==> s[k] in delims
    ensures Tokens(s, delims) == []
  {
    PrefixLenIs(s, delims, true, |s|);
  }

  lemma TokensNext(s: string, delims: set<char>, from: nat, n: nat)
    requires from + n <= |s| && n > 0
    requires forall k :: 0 <= k < from ==> s[k] in delims
    requires forall k :: from <= k < from + n ==> s[k] !in delims
    requires from + n < |s| ==> s[from + n] in delims
    ensures Tokens(s, delims) == [s[from..from + n]] + Tokens(s[from + n..], delims)
  {
    hide PrefixLen, Tokens;
    PrefixLenIs(s, delims, true, from);
    assert forall k :: 0 <= k < n ==> s[from..][k] == s[from + k];
    PrefixLenIs(s[from..], delims, false, n);
    TokensUnfold(s, delims, from, n);
  }

  lemma TokensUnfold(s: string, delims: set<char>, from: nat, n: nat)
    requires PrefixLen(s, delims, true) == from < |s| && PrefixLen(s[from..], delims, false) == n && from + n <= |s|
    ensures Tokens(s, delims) == [s[from..from + n]] + Tokens(s[from + n..], delims)
  {
    hide PrefixLen;
  }

  lemma TokensSkip(s: string, delims: set<char>)
    requires s != [] && s[0] in delims
    ensures Tokens(s, delims) == Tokens(s[1..], delims)
  {
    hide Tokens;
    var from := PrefixLen(s, delims, true);
    if from == |s| {
      TokensNone(s, delims);
      TokensNone(s[1..], delims);
    } else {
      var n := PrefixLen(s[from..], delims, false);
      assert forall k :: from <= k < from + n ==> s[k] == s[from..][k - from];
      TokensNext(s, delims, from, n);
      TokensNext(s[1..], delims, from - 1, n);
      assert s[1..][from - 1..from - 1 + n] == s[from..from + n] && s[1..][from - 1 + n..] == s[from + n..];
    }
  }

  lemma TokensAt(s: string, i: nat, z: nat, delims: set<char>, tok: nat, end: nat)
    requires i <= tok < end <= z <= |s|
    requires forall k :: i <= k < tok ==> s[k] in delims
    requires forall k :: tok <= k < end ==> s[k] !in delims
    requires end < z ==> s[end] in delims
    ensures Tokens(s[i..z], delims) == [s[tok..end]] + Tokens(s[end..z], delims)
    decreases tok - i
  {
    hide Tokens;
    if i < tok {
      assert s[i..z][1..] == s[i + 1..z];
      TokensSkip(s[i..z], delims);
      TokensAt(s, i + 1, z, delims, tok, end);
    } else {
      TokensNext(s[i..z], delims, 0, end - tok);
      assert s[i..z][..end - tok] == s[tok..end] && s[i..z][end - tok..] == s[end..z];
    }
  }

  /** `strspn` and `strcspn`: the end of the run of delimiters, or of other characters, at `i`. */
  method Scan(a: array<char>, i: nat, delims: set<char>, inside: bool, ghost z: nat) returns (j: nat)
    requires i <= z < a.Length && a[z] == NUL && NUL !in delims && forall k :: i <= k < z ==> a[k] != NUL
    ensures i <= j <= z
    ensures forall k :: i <= k < j ==> (a[k] in delims) == inside
    ensures j < z ==> (a[j] in delims) != inside
  {
    j := i;
    while a[j] != NUL && (a[j] in delims) == inside
      invariant i <= j <= z
      invariant forall k :: i <= k < j ==> (a[k] in delims) == inside
      decreases z - j
    {
      j := j + 1;
    }
  }

  /** One call of `strtok_r` on the C string `cs` at `start`: the first token is delimited in place
      by one NUL, and the saved pointer is at a C string with the remaining tokens.  `tok < 0` is the
      null pointer. */
  method Strtok(a: array<char>, start: nat, delims: set<char>, ghost cs: string)
    returns (tok: int, save: nat, ghost rest: string)
    requires PointsTo(a[..], start, cs) && NUL !in delims
    modifies a
    ensures save + |rest| == start + |cs| < a.Length && PointsTo(a[..], save, rest)
    ensures var ts := Tokens(cs, delims);
            if ts == [] then tok < 0 && a[..] == old(a[..]) && rest == ""
            else
              && start <= tok < tok + |ts[0]| <= save <= start + |cs| && PointsTo(a[..], tok, ts[0])
              && a[..] == old(a[..])[tok + |ts[0]| := NUL]
              && Tokens(rest, delims) == ts[1..]
  {
    hide Tokens;
    ghost var was, z := a[..], start + |cs|;
    assert was[start..z] == cs;
    tok := Scan(a, start, delims, true, z);
    if a[tok] == NUL {
      TokensNone(cs, delims);
      assert PointsTo(was, z, "");
      return -1, tok, "";
    }
    var end := Scan(a, tok, delims, false, z);
    TokensAt(was, start, z, delims, tok, end);
    Cut(was, tok, end, z, delims);
    hide PointsTo;
    rest := was[end..z];
    if a[end] == NUL {
      save := end;
      assert was[end := NUL] == was;
    } else {
      a[end] := NUL;
      save := end + 1;
      rest := rest[1..];
    }
  }

  /** What the variables of a `strtok_r` loop mean: the token at `tok` and the C string at `save` hold what is left. */
  ghost predicate Pending(s: string, tok: int, save: nat, rest: string, todo: seq<string>, delims: set<char>) {
    && (tok < 0 <==> todo == [])
    && (forall i :: 0 <= i < |todo| ==> todo[i] != "")
    && (todo != [] ==>
         && PointsTo(s, tok, todo[0]) && tok + |todo[0]| <= save
         && PointsTo(s, save, rest) && Tokens(rest, delims) == todo[1..])
  }

  /** Writing a NUL at the end of the token leaves two C strings: the token and what follows it. */
  lemma Cut(was: string, tok: nat, end: nat, z: nat, delims: set<char>)
    requires tok < end <= z < |was| && was[z] == NUL && forall k :: tok <= k < z ==> was[k] != NUL
    requires end < z ==> was[end] in delims
    ensures var now := was[end := NUL];
            && PointsTo(now, tok, was[tok..end])
            && if end == z then was[end..z] == "" && PointsTo(now, z, "")
               else PointsTo(now, end + 1, was[end..z][1..])
                    && Tokens(was[end..z][1..], delims) == Tokens(was[end..z], delims)
  {
    if end < z {
      TokensSkip(was[end..z], delims);
    }
  }

  /** The separator put between the items when they are joined. */
  function Join(items: seq<string>, sep: string): string {
    if items == [] then "" else if |items| == 1 then items[0] else items[0] + sep + Join(items[1..], sep)
  }

  ghost predicate TokenLike(t: string, delims: set<char>) {
    t != "" && forall k :: 0 <= k < |t| ==> t[k] !in delims
  }

  lemma {:induction false} TokensSkipAll(sep: string, s: string, delims: set<char>)
    requires forall k :: 0 <= k < |sep| ==> sep[k] in delims
    ensures Tokens(sep + s, delims) == Tokens(s, delims)
  {
    if sep == "" {
      assert sep + s == s;
    } else {
      assert (sep + s)[1..] == sep[1..] + s;
      TokensSkip(sep + s, delims);
      TokensSkipAll(sep[1..], s, delims);
    }
  }

  lemma TokensFirst(t: string, s: string, delims: set<char>)
    requires TokenLike(t, delims) && (s == "" || s[0] in delims)
    ensures Tokens(t + s, delims) == [t] + Tokens(s, delims)
  {
    PrefixLenIs(t + s, delims, true, 0);
    assert (t + s)[0..] == t + s;
    PrefixLenIs(t + s, delims, false, |t|);
    assert (t + s)[..|t|] == t && (t + s)[|t|..] == s;
  }

  /** Tokenizing inverts joining, whatever the separator made of delimiters. */
  lemma {:induction false} TokensOfJoin(items: seq<string>, sep: string, delims: set<char>)
    requires forall i :: 0 <= i < |items| ==> TokenLike(items[i], delims)
    requires sep != "" && forall k :: 0 <= k < |sep| ==> sep[k] in delims
    ensures Tokens(Join(items, sep), delims) == items
  {
    hide Tokens;
    if |items| == 0 {
      TokensNone("", delims);
    } else if |items| == 1 {
      TokensFirst(items[0], "", delims);
      TokensNone("", delims);
      assert items[0] + "" == items[0];
    } else {
      var rest := Join(items[1..], sep);
      TokensOfJoin(items[1..], sep, delims);
      TokensFirst(items[0], sep + rest, delims);
      TokensSkipAll(sep, rest, delims);
      assert items[0] + sep + rest == items[0] + (sep + rest);
    }
  }
}
