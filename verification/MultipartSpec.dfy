/** `extract_post_data_items` as a function of the buffer it scans and writes into. */
module MultipartSpec {
  import opened Options
  import opened CText
  import opened Ranges

  /** The pointers of a `post_content` are indices into the request's buffer. */
  datatype PostContent = PostContent(
    name: Option<nat>, filename: Option<nat>, contentType: Option<nat>, contentDisposition: Option<nat>,
    size: nat, buff: Option<nat>)

  const NOTHING := PostContent(None, None, None, None, 0, None)

  const DISPOSITION_KEY: string := "Content-Disposition: "
  const NAME_KEY: string := "name=\""
  const FILENAME_KEY: string := "filename=\""
  const TYPE_KEY: string := "Content-Type: "

  /** One key of a section: the value starts behind the key and is ended by a NUL in place of `stop`. */
  function Take(b: string, from: nat, upto: nat, key: string, stop: char): (r: (string, Option<nat>))
    requires from <= upto <= |b|
    ensures |r.0| == |b| && forall k :: 0 <= k < from ==> r.0[k] == b[k]
  {
    match Find(b, from, upto, key)
    case None => (b, None)
    case Some(i) =>
      match StrChr(b, i + |key|, stop)
      case None => (b, Some(i + |key|))
      case Some(j) => (b[j := NUL], Some(i + |key|))
  }

  /** The end of the section at `data`: the next boundary, else the last one, else `max`. */
  function SectionEnd(b: string, data: nat, max: nat, boundary: string, last: string): (next: nat)
    requires data <= max <= |b|
    ensures data <= next <= max
  {
    match Find(b, data, max, boundary)
    case Some(i) => i
    case None =>
      match Find(b, data, max, last)
      case Some(i) => i
      case None => max
  }

  /** The fields of one section, which ends at `next`. */
  function Section(b: string, data: nat, next: nat, max: nat): (r: (string, PostContent))
    requires data + 3 <= next <= max <= |b|
    ensures |r.0| == |b|
  {
    var b1 := b[next - 2 := NUL];
    var upto := next - 3;
    var blank := Find(b1, data, max, CRLF2);
    var (b2, disposition) := Take(b1, data, upto, DISPOSITION_KEY, ';');
    var (b3, name) := Take(b2, data, upto, NAME_KEY, '"');
    var (b4, filename) := Take(b3, data, upto, FILENAME_KEY, '"');
    var (b5, contentType) := Take(b4, data, upto, TYPE_KEY, '\n');
    (b5, PostContent(name, filename, contentType, disposition,
                     if blank.Some? then ToSize(next - (blank.value + 4) - 2) else 0,
                     if blank.Some? then Some(blank.value + 4) else None))
  }

  /** The loop from `item` on.  No result stands for a section shorter than three bytes, for which
      the code computes a length below zero. */
  function Extract(b: string, item: nat, max: nat, boundary: string, last: string): Option<(string, seq<PostContent>)>
    requires item <= max <= |b| && |boundary| > 0
    decreases max - item
  {
    match Find(b, item, max, boundary)
    case None => Some((b, []))
    case Some(i) =>
      var data := i + |boundary|;
      if data == max then Some((b, []))
      else
        var next := SectionEnd(b, data, max, boundary, last);
        if next < data + 3 then None
        else
          var (b2, post) := Section(b, data, next, max);
          match Extract(b2, data, max, boundary, last)
          case None => None
          case Some((b3, posts)) => Some((b3, [post] + posts))
  }
}
