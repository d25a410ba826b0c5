/** `utility::b64_encode`: section 4 of RFC 4648. */
module Base64 {
  const UPPER: string := "ABCDEFGHIJKLMNOPQRSTUVWXYZ"
  const LOWER: string := "abcdefghijklmnopqrstuvwxyz"
  const DIGITS: string := "0123456789"
  const ALPHABET: string := UPPER + LOWER + DIGITS + "+/"

  const PAD: char := '='

  function Letter(x: bv8): char {
    if x < 64 then ALPHABET[x as int] else PAD
  }

  // the four groups of six bits in three bytes
  function Bits0(a: bv8): bv8 { (a & 0xFC) >> 2 }
  function Bits1(a: bv8, b: bv8): bv8 { ((a & 0x03) << 4) | ((b & 0xF0) >> 4) }
  function Bits2(b: bv8, c: bv8): bv8 { ((b & 0x0F) << 2) | ((c & 0xC0) >> 6) }
  function Bits3(c: bv8): bv8 { c & 0x3F }

  /** `b64quartet`. */
  function Quartet(a: bv8, b: bv8, c: bv8): (r: string)
    ensures |r| == 4
  {
    [Letter(Bits0(a)), Letter(Bits1(a, b)), Letter(Bits2(b, c)), Letter(Bits3(c))]
  }

  function ByteAt(s: seq<bv8>, i: nat): bv8 {
    if i < |s| then s[i] else 0
  }

  /** The quartets of the bytes from `i` on, before padding. */
  function Quartets(s: seq<bv8>, i: nat): (r: string)
    ensures |r| == if i < |s| then (|s| - i + 2) / 3 * 4 else 0
    decreases |s| - i
  {
    if i >= |s| then "" else Quartet(s[i], ByteAt(s, i + 1), ByteAt(s, i + 2)) + Quartets(s, i + 3)
  }

  function Padding(n: nat): (p: nat)
    ensures p < 3 && (n > 0 || p == 0)
  {
    (3 - n % 3) % 3
  }

  /** The encoding: the last characters are overwritten by padding. */
  function Encode(s: seq<bv8>): (r: string)
    ensures |r| == (|s| + 2) / 3 * 4
  {
    var q := Quartets(s, 0);
    q[..|q| - Padding(|s|)] + seq(Padding(|s|), _ => PAD)
  }

  /** The second loop of `b64_encode`: the last characters are overwritten in place. */
  method Overwrite(text: string, padding: nat) returns (b64: string)
    requires padding <= |text|
    ensures b64 == text[..|text| - padding] + seq(padding, _ => PAD)
  {
    b64 := text;
    var n := |b64|;
    var i := n - padding;
    while i < n
      invariant n - padding <= i <= n == |b64|
      invariant forall k :: 0 <= k < n ==> b64[k] == if n - padding <= k < i then PAD else text[k]
    {
      b64 := b64[i := PAD];
      i := i + 1;
    }
  }

  lemma NextQuartet(s: seq<bv8>, i: nat)
    requires i < |s|
    ensures Quartets(s, i) == Quartet(s[i], ByteAt(s, i + 1), ByteAt(s, i + 2)) + Quartets(s, i + 3)
  {
    hide Quartet;
  }

  lemma NoQuartets(s: seq<bv8>, i: nat)
    requires |s| <= i
    ensures Quartets(s, i) == ""
  {
  }

  lemma Regroup(a: string, b: string, c: string)
    ensures a + b + c == a + (b + c) && a + "" == a
  {
  }

  /** `b64_encode` on a string of bytes. */
  method B64Encode(str: seq<bv8>) returns (b64: string)
    ensures b64 == Encode(str)
  {
    hide Quartet, Quartets;
    var len := |str|;
    b64 := "";
    var i := 0;
    while i < len
      invariant 0 <= i && b64 + Quartets(str, i) == Quartets(str, 0)
    {
      NextQuartet(str, i);
      var a := str[i];
      var b := if i + 1 < len then str[i + 1] else 0;
      var c := if i + 2 < len then str[i + 2] else 0;
      Regroup(b64, Quartet(a, b, c), Quartets(str, i + 3));
      b64 := b64 + Quartet(a, b, c);
      i := i + 3;
    }
    NoQuartets(str, i);
    Regroup(b64, "", "");
    b64 := Overwrite(b64, (3 - len % 3) % 3);
  }

  // ---------------------------------------------------------------- decoding

  /** The index of a character in the alphabet, by the ranges of table 1 of the standard. */
  function Index(ch: char): (i: nat)
    ensures i < 64
  {
    if 'A' <= ch <= 'Z' then ch as int - 'A' as int
    else if 'a' <= ch <= 'z' then ch as int - 'a' as int + 26
    else if '0' <= ch <= '9' then ch as int - '0' as int + 52
    else if ch == '+' then 62
    else if ch == '/' then 63
    else 0
  }

  function Value(ch: char): bv8 {
    Index(ch) as bv8
  }

  function FirstByte(x: bv8, y: bv8): bv8 { (x << 2) | (y >> 4) }
  function SecondByte(y: bv8, z: bv8): bv8 { ((y & 0x0F) << 4) | (z >> 2) }
  function ThirdByte(z: bv8, w: bv8): bv8 { ((z & 0x03) << 6) | w }

  /** The standard decoder: three bytes for each quartet, fewer for a padded one. */
  function Decode(t: string): seq<bv8> {
    if |t| < 4 then []
    else
      var x, y, z, w := Value(t[0]), Value(t[1]), Value(t[2]), Value(t[3]);
      if t[2] == PAD then [FirstByte(x, y)]
      else if t[3] == PAD then [FirstByte(x, y), SecondByte(y, z)]
      else [FirstByte(x, y), SecondByte(y, z), ThirdByte(z, w)] + Decode(t[4..])
  }

  lemma LetterValue(x: bv8)
    requires x < 64
    ensures Value(Letter(x)) == x && Letter(x) != PAD
  {
    AlphabetIndex(x as int);
  }

  lemma UpperAt(i: nat)
    requires i < 26
    ensures UPPER[i] as int == 'A' as int + i
  {
  }

  lemma LowerAt(i: nat)
    requires i < 26
    ensures LOWER[i] as int == 'a' as int + i
  {
  }

  lemma OtherAt(i: nat)
    requires i < 12
    ensures Index((DIGITS + "+/")[i]) == 52 + i && (DIGITS + "+/")[i] != PAD
  {
    if i < 10 {
      assert DIGITS[i] as int == '0' as int + i;
    }
  }

  lemma AlphabetIndex(i: nat)
    requires i < 64
    ensures Index(ALPHABET[i]) == i && ALPHABET[i] != PAD
  {
    if i < 26 {
      assert ALPHABET[i] == UPPER[i];
      UpperAt(i);
    } else if i < 52 {
      assert ALPHABET[i] == LOWER[i - 26];
      LowerAt(i - 26);
    } else {
      assert ALPHABET[i] == (DIGITS + "+/")[i - 52];
      OtherAt(i - 52);
    }
  }

  /** The bit groups are below 64 and give the bytes back. */
  lemma Unpacks(a: bv8, b: bv8, c: bv8)
    ensures Bits0(a) < 64 && Bits1(a, b) < 64 && Bits2(b, c) < 64 && Bits3(c) < 64
    ensures FirstByte(Bits0(a), Bits1(a, b)) == a
    ensures SecondByte(Bits1(a, b), Bits2(b, c)) == b
    ensures ThirdByte(Bits2(b, c), Bits3(c)) == c
  {
  }

  /** The padded encoding of the bytes from `i` on. */
  function Tail(s: seq<bv8>, i: nat): (r: string)
    requires i % 3 == 0 && i <= |s|
  {
    var q := Quartets(s, i);
    q[..|q| - Padding(|s|)] + seq(Padding(|s|), _ => PAD)
  }

  lemma QuartetLetters(a: bv8, b: bv8, c: bv8)
    ensures var q := Quartet(a, b, c);
            && (forall k :: 0 <= k < 4 ==> q[k] != PAD)
            && FirstByte(Value(q[0]), Value(q[1])) == a
            && SecondByte(Value(q[1]), Value(q[2])) == b
            && ThirdByte(Value(q[2]), Value(q[3])) == c
  {
    Unpacks(a, b, c);
    LetterValue(Bits0(a));
    LetterValue(Bits1(a, b));
    LetterValue(Bits2(b, c));
    LetterValue(Bits3(c));
  }

  lemma DecodeGroup(q: string, rest: string)
    requires |q| == 4 && q[2] != PAD && q[3] != PAD
    ensures Decode(q + rest) ==
            [FirstByte(Value(q[0]), Value(q[1])), SecondByte(Value(q[1]), Value(q[2])), ThirdByte(Value(q[2]), Value(q[3]))]
            + Decode(rest)
  {
    assert (q + rest)[4..] == rest;
  }

  lemma TailOfLast(s: seq<bv8>, i: nat)
    requires i % 3 == 0 && i < |s| < i + 3
    ensures var q := Quartet(s[i], ByteAt(s, i + 1), ByteAt(s, i + 2));
            Tail(s, i) == if |s| == i + 1 then [q[0], q[1], PAD, PAD] else [q[0], q[1], q[2], PAD]
  {
    var q := Quartet(s[i], ByteAt(s, i + 1), ByteAt(s, i + 2));
    var p := if |s| == i + 1 then 2 else 1;
    assert Padding(|s|) == p;
    hide Quartet, Padding;
    assert Quartets(s, i) == q by {
      assert q + "" == q;
    }
    hide Quartets;
    PaddedQuartet(q, p);
  }

  lemma PaddedQuartet(q: string, p: nat)
    requires |q| == 4 && 1 <= p <= 2
    ensures q[..4 - p] + seq(p, _ => PAD) == if p == 2 then [q[0], q[1], PAD, PAD] else [q[0], q[1], q[2], PAD]
  {
  }

  lemma LastGroup(s: seq<bv8>, i: nat)
    requires i % 3 == 0 && i < |s| < i + 3
    ensures Decode(Tail(s, i)) == s[i..]
    ensures var t := Tail(s, i); forall k :: 0 <= k < |t| - Padding(|s|) ==> t[k] != PAD
  {
    var q := Quartet(s[i], ByteAt(s, i + 1), ByteAt(s, i + 2));
    QuartetLetters(s[i], ByteAt(s, i + 1), ByteAt(s, i + 2));
    TailOfLast(s, i);
    hide Quartet, Value, FirstByte, SecondByte, ThirdByte, Quartets, Tail;
    assert s[i..] == if |s| == i + 1 then [s[i]] else [s[i], s[i + 1]];
  }

  lemma TailUnfolds(s: seq<bv8>, i: nat)
    requires i % 3 == 0 && i + 3 <= |s|
    ensures Tail(s, i) == Quartet(s[i], s[i + 1], s[i + 2]) + Tail(s, i + 3)
  {
    hide Quartet;
  }

  lemma TailEmpty(s: seq<bv8>)
    requires |s| % 3 == 0
    ensures Tail(s, |s|) == "" && Decode(Tail(s, |s|)) == []
  {
    assert Padding(|s|) == 0;
  }

  lemma {:induction false} DecodeTail(s: seq<bv8>, i: nat)
    requires i % 3 == 0 && i <= |s|
    ensures Decode(Tail(s, i)) == s[i..]
    ensures var t := Tail(s, i); forall k :: 0 <= k < |t| - Padding(|s|) ==> t[k] != PAD
    decreases |s| - i
  {
    hide Quartet, Value, FirstByte, SecondByte, ThirdByte, Decode, Tail;
    if i + 3 <= |s| {
      var q := Quartet(s[i], s[i + 1], s[i + 2]);
      QuartetLetters(s[i], s[i + 1], s[i + 2]);
      DecodeTail(s, i + 3);
      TailUnfolds(s, i);
      DecodeGroup(q, Tail(s, i + 3));
      assert s[i..] == [s[i], s[i + 1], s[i + 2]] + s[i + 3..];
    } else if i < |s| {
      LastGroup(s, i);
    } else {
      TailEmpty(s);
    }
  }

  /** Decoding recovers the input; padding is exactly the last `(3 - n % 3) % 3` characters. */
  lemma RoundTrip(s: seq<bv8>)
    ensures Decode(Encode(s)) == s
    ensures forall k :: 0 <= k < |Encode(s)| ==> (Encode(s)[k] == PAD <==> k >= |Encode(s)| - Padding(|s|))
  {
    DecodeTail(s, 0);
    assert Encode(s) == Tail(s, 0) && s[0..] == s;
  }

  /** Different inputs have different encodings. */
  lemma Injective(s: seq<bv8>, t: seq<bv8>)
    requires Encode(s) == Encode(t)
    ensures s == t
  {
    RoundTrip(s);
    RoundTrip(t);
  }
}
