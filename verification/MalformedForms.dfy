/** Forms that do not follow the grammar: what extraction makes of a body that is cut off or has no empty line. */
module MalformedForms {
  import opened Options
  import opened CText
  import opened Ranges
  import opened MultipartSpec

  /** `x` begins somewhere in `b` from `lo` on and ends at `hi` or before. */
  ghost predicate Occurs(b: string, lo: nat, hi: nat, x: string) {
    exists i: nat :: lo <= i && i + |x| <= hi && At(b, i, x)
  }

  /** `i` is where `x` begins first. */
  ghost predicate First(b: string, lo: nat, hi: nat, x: string, i: nat) {
    lo <= i && i + |x| <= hi && At(b, i, x) && forall j: nat :: lo <= j < i ==> !At(b, j, x)
  }

  lemma FindFirst(b: string, lo: nat, hi: nat, x: string)
    requires lo <= hi <= |b|
    ensures Find(b, lo, hi, x).Some? <==> Occurs(b, lo, hi, x)
    ensures forall i: nat :: First(b, lo, hi, x, i) ==> Find(b, lo, hi, x) == Some(i)
    ensures Find(b, lo, hi, x).Some? ==> First(b, lo, hi, x, Find(b, lo, hi, x).value)
  {
    var r := Find(b, lo, hi, x);
    hide Find, At;
    forall i: nat | First(b, lo, hi, x, i)
      ensures r == Some(i)
    {
      assert At(b, i, x) && (r.Some? ==> At(b, r.value, x));
    }
  }

  /** A section ends at the next boundary line; if there is none, at the closing one; and if that is missing too, at
      the end of the body. */
  lemma SectionEndsAt(b: string, data: nat, max: nat, boundary: string, last: string)
    requires data <= max <= |b|
    ensures var next := SectionEnd(b, data, max, boundary, last);
            if Occurs(b, data, max, boundary) then First(b, data, max, boundary, next)
            else if Occurs(b, data, max, last) then First(b, data, max, last, next)
            else next == max
  {
    hide Find, First, Occurs;
    FindFirst(b, data, max, boundary);
    FindFirst(b, data, max, last);
  }

  /** A section without an empty line has no content. */
  lemma NoEmptyLine(b: string, data: nat, next: nat, max: nat)
    requires data + 3 <= next <= max <= |b| && !Occurs(b, data, max, CRLF2)
    ensures var post := Section(b, data, next, max).1; post.buff == None && post.size == 0
  {
    var b1 := b[next - 2 := NUL];
    forall i: nat | data <= i && i + |CRLF2| <= max
      ensures !At(b1, i, CRLF2)
    {
      if i <= next - 2 < i + |CRLF2| {
        assert b1[next - 2] != CRLF2[next - 2 - i];
      } else {
        assert At(b1, i, CRLF2) ==> At(b, i, CRLF2) by {
          assert forall k :: i <= k < i + |CRLF2| ==> b1[k] == b[k];
        }
      }
    }
    FindFirst(b1, data, max, CRLF2);
    hide Find, Take, At;
  }

  /** A body that ends with a boundary line holds nothing behind it. */
  lemma BoundaryAtEnd(b: string, item: nat, max: nat, boundary: string, last: string)
    requires item <= max <= |b| && boundary != "" && |boundary| <= max && First(b, item, max, boundary, max - |boundary|)
    ensures Extract(b, item, max, boundary, last) == Some((b, []))
  {
    FindFirst(b, item, max, boundary);
    hide Find, First;
  }

  /** A form that is cut off in its last part, so that no boundary line follows: that part reaches to the end of the
      body, and its content, if its headers end, is all that follows them but the last two bytes. */
  lemma CutOffForm(b: string, item: nat, max: nat, boundary: string, last: string, i: nat, blank: nat)
    requires item <= max <= |b| <= SIZE_MAX && boundary != "" && NUL !in boundary
    requires First(b, item, max, boundary, i) && i + |boundary| + 3 <= max
    requires var data := i + |boundary|;
             && !Occurs(b, data, max, boundary) && !Occurs(b, data, max, last) && First(b, data, max, CRLF2, blank) && blank + 6 <= max
    ensures var data := i + |boundary|;
            && Extract(b, item, max, boundary, last).Some?
            && var items := Extract(b, item, max, boundary, last).value.1;
               |items| == 1 && items[0].buff == Some(blank + 4) && items[0].size == max - 2 - (blank + 4)
  {
    var data := i + |boundary|;
    FindFirst(b, item, max, boundary);
    SectionEndsAt(b, data, max, boundary, last);
    var (b2, post) := Section(b, data, max, max);
    SectionContent(b, data, max, blank);
    NoMore(b, b2, data, max, boundary);
    hide Find, First, Occurs, Section, SectionEnd;
    assert Extract(b2, data, max, boundary, last) == Some((b2, []));
    assert [post] + [] == [post];
  }

  lemma SectionContent(b: string, data: nat, max: nat, blank: nat)
    requires data + 3 <= max <= |b| <= SIZE_MAX && First(b, data, max, CRLF2, blank) && blank + 6 <= max
    ensures var post := Section(b, data, max, max).1; post.buff == Some(blank + 4) && post.size == max - 2 - (blank + 4)
  {
    var b1 := b[max - 2 := NUL];
    assert At(b1, blank, CRLF2);
    forall j: nat | data <= j < blank
      ensures !At(b1, j, CRLF2)
    {
      assert forall k :: j <= k < j + 4 ==> b1[k] == b[k];
      assert !At(b, j, CRLF2);
    }
    assert First(b1, data, max, CRLF2, blank);
    FindFirst(b1, data, max, CRLF2);
    hide Find, First, Take, At;
  }

  /** Putting NULs into the section makes no boundary line. */
  lemma NoMore(b: string, b2: string, data: nat, max: nat, boundary: string)
    requires data + 3 <= max <= |b| && boundary != "" && !Occurs(b, data, max, boundary) && b2 == Section(b, data, max, max).0
    requires NUL !in boundary
    ensures Find(b2, data, max, boundary).None?
  {
    OnlyNuls(b, data, max);
    forall i: nat | data <= i && i + |boundary| <= max
      ensures !At(b2, i, boundary)
    {
      NulsMakeNone(b, b2, i, boundary);
    }
    hide Section, At;
  }

  /** `c` is `b` with some bytes overwritten by NULs. */
  ghost predicate Nulled(c: string, b: string) {
    |c| == |b| && forall k {:trigger c[k]} :: 0 <= k < |b| ==> c[k] == b[k] || c[k] == NUL
  }

  lemma NulsMakeNone(b: string, c: string, i: nat, x: string)
    requires Nulled(c, b) && NUL !in x
    ensures At(c, i, x) ==> At(b, i, x)
  {
    if At(c, i, x) {
      forall k | i <= k < i + |x|
        ensures b[k] == x[k - i]
      {
        assert c[k] == x[k - i] && x[k - i] in x;
      }
    }
  }

  lemma TakeNulls(b: string, from: nat, upto: nat, key: string, stop: char)
    requires from <= upto <= |b|
    ensures Nulled(Take(b, from, upto, key, stop).0, b)
  {
    hide Find, StrChr;
  }

  lemma NulledTwice(a: string, b: string, c: string)
    requires Nulled(b, a) && Nulled(c, b)
    ensures Nulled(c, a)
  {
  }

  lemma OnlyNuls(b: string, data: nat, max: nat)
    requires data + 3 <= max <= |b|
    ensures Nulled(Section(b, data, max, max).0, b)
  {
    hide Take, Find;
    var b1 := b[max - 2 := NUL];
    assert Nulled(b1, b);
    hide Nulled;
    var b2 := Take(b1, data, max - 3, DISPOSITION_KEY, ';').0;
    TakeNulls(b1, data, max - 3, DISPOSITION_KEY, ';');
    NulledTwice(b, b1, b2);
    var b3 := Take(b2, data, max - 3, NAME_KEY, '"').0;
    TakeNulls(b2, data, max - 3, NAME_KEY, '"');
    NulledTwice(b, b2, b3);
    var b4 := Take(b3, data, max - 3, FILENAME_KEY, '"').0;
    TakeNulls(b3, data, max - 3, FILENAME_KEY, '"');
    NulledTwice(b, b3, b4);
    var b5 := Take(b4, data, max - 3, TYPE_KEY, '\n').0;
    TakeNulls(b4, data, max - 3, TYPE_KEY, '\n');
    NulledTwice(b, b4, b5);
  }
}
