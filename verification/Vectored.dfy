/** Vectored transfers: `iovec` arrays, their rebuilding after a partial completion, and whole runs. */
module Vectored {
  /** A byte address: a heap block and an offset into it.  Block 0 is the null pointer. */
  datatype Addr = Addr(block: nat, off: nat)

  datatype IoVec = IoVec(base: Addr, len: nat)

  const ZERO := IoVec(Addr(0, 0), 0)

  function Span(v: IoVec): seq<Addr> {
    seq(v.len, i requires 0 <= i => Addr(v.base.block, v.base.off + i))
  }

  /** The byte addresses an iovec array denotes, in transfer order. */
  function Addrs(vs: seq<IoVec>): (r: seq<Addr>)
    ensures |r| == Size(vs)
  {
    if vs == [] then [] else Span(vs[0]) + Addrs(vs[1..])
  }

  function Size(vs: seq<IoVec>): nat {
    if vs == [] then 0 else vs[0].len + Size(vs[1..])
  }

  function Zeros(n: nat): seq<IoVec> {
    seq(n, _ => ZERO)
  }

  /** The iovecs that remain once `total` bytes of `orig` are done. */
  function Rest(orig: seq<IoVec>, total: nat): (r: seq<IoVec>)
    ensures |r| <= |orig|
  {
    if orig == [] then []
    else if orig[0].len > total then
      [IoVec(Addr(orig[0].base.block, orig[0].base.off + total), orig[0].len - total)] + orig[1..]
    else if orig[0].len == total then orig[1..]
    else Rest(orig[1..], total - orig[0].len)
  }

  /** What `vector_ops_progress` leaves in the working array. */
  function Rebuilt(orig: seq<IoVec>, total: nat): (r: seq<IoVec>)
    ensures |r| == |orig|
  {
    Rest(orig, total) + Zeros(|orig| - |Rest(orig, total)|)
  }

  /** Both copying loops of `vector_ops_progress`: from slot `first` on, the original from `i + first` on. */
  method CopyTail(orig: array<IoVec>, iovs: array<IoVec>, i: nat, first: nat)
    requires orig != iovs && orig.Length == iovs.Length && i + first <= orig.Length
    requires forall k :: first <= k < iovs.Length ==> iovs[k] == ZERO
    modifies iovs
    ensures iovs[..] == old(iovs[..first]) + orig[i + first..] + Zeros(i)
  {
    var n := orig.Length;
    var j := first;
    while j + i < n
      invariant first <= j <= n - i
      invariant forall k :: 0 <= k < n ==> iovs[k] == if first <= k < j then orig[i + k] else old(iovs[k])
    {
      iovs[j] := orig[i + j];
      j := j + 1;
    }
  }

  /** `vector_ops_progress`: `iovs` is zeroed and refilled from the untouched original. */
  method VectorOpsProgress(orig: array<IoVec>, iovs: array<IoVec>, totalProgress: nat)
    requires orig != iovs && orig.Length == iovs.Length
    modifies iovs
    ensures iovs[..] == Rebuilt(orig[..], totalProgress)
  {
    var n := orig.Length;
    for k := 0 to n
      invariant forall j :: 0 <= j < k ==> iovs[j] == ZERO
    {
      iovs[k] := ZERO;
    }
    ghost var rest := Rest(orig[..], totalProgress);
    var readSoFar, i := 0, 0;
    while i < n
      invariant 0 <= i <= n && readSoFar <= totalProgress
      invariant forall j :: 0 <= j < n ==> iovs[j] == ZERO
      invariant rest == Rest(orig[i..], totalProgress - readSoFar)
      decreases n - i
    {
      assert orig[i..][0] == orig[i] && orig[i..][1..] == orig[i + 1..];
      if readSoFar + orig[i].len > totalProgress {
        var offsetInBlock := totalProgress - readSoFar;
        iovs[0] := IoVec(Addr(orig[i].base.block, orig[i].base.off + offsetInBlock), orig[i].len - offsetInBlock);
        CopyTail(orig, iovs, i, 1);
        return;
      } else if readSoFar + orig[i].len == totalProgress {
        i := i + 1;
        CopyTail(orig, iovs, i, 0);
        return;
      }
      readSoFar := readSoFar + orig[i].len;
      i := i + 1;
    }
  }

  /** The summing loop of `writev_callback` and `readv_callback`. */
  method FullSize(vecs: array<IoVec>) returns (sum: nat)
    ensures sum == |Addrs(vecs[..])|
  {
    sum := 0;
    assert vecs[..vecs.Length] == vecs[..];
    for i := 0 to vecs.Length
      invariant sum == Size(vecs[..i])
    {
      sum := sum + vecs[i].len;
      assert vecs[..i + 1] == vecs[..i] + [vecs[i]];
      SizeAppend(vecs[..i], vecs[i..i + 1]);
    }
  }

  lemma SizeAppend(a: seq<IoVec>, b: seq<IoVec>)
    ensures Size(a + b) == Size(a) + Size(b)
  {
    if a == [] {
      assert a + b == b;
    } else {
      assert (a + b)[1..] == a[1..] + b;
    }
  }

  lemma AddrsAppend(a: seq<IoVec>, b: seq<IoVec>)
    ensures Addrs(a + b) == Addrs(a) + Addrs(b)
  {
    if a == [] {
      assert a + b == b;
    } else {
      assert (a + b)[1..] == a[1..] + b;
      AddrsAppend(a[1..], b);
    }
  }

  lemma {:induction n} AddrsZeros(n: nat)
    ensures Addrs(Zeros(n)) == []
  {
    if n > 0 {
      assert Zeros(n)[1..] == Zeros(n - 1);
    }
  }

  /** The rebuilt array denotes the original with its first `total` bytes dropped, zero-length
      iovecs included. */
  lemma {:induction false} RebuiltDenotes(orig: seq<IoVec>, total: nat)
    requires total <= Size(orig)
    ensures Addrs(Rebuilt(orig, total)) == Addrs(orig)[total..]
  {
    RestDenotes(orig, total);
    AddrsAppend(Rest(orig, total), Zeros(|orig| - |Rest(orig, total)|));
    AddrsZeros(|orig| - |Rest(orig, total)|);
  }

  lemma {:induction false} RestDenotes(orig: seq<IoVec>, total: nat)
    requires total <= Size(orig)
    ensures Addrs(Rest(orig, total)) == Addrs(orig)[total..]
  {
    if orig != [] {
      var first := orig[0];
      if first.len > total {
        var v := IoVec(Addr(first.base.block, first.base.off + total), first.len - total);
        assert ([v] + orig[1..])[1..] == orig[1..];
        assert Span(v) == Span(first)[total..];
      } else if first.len < total {
        RestDenotes(orig[1..], total - first.len);
      }
    }
  }

  // ---------------------------------------------------------------- runs

  datatype Status = Active | Done | Failed

  /** A vectored operation: the original array, the working array last submitted, `task.progress`. */
  datatype Transfer = Transfer(orig: seq<IoVec>, work: seq<IoVec>, progress: nat, status: Status)

  /** How the kernel completes a submission: interrupted, with another error, or after `k` bytes. */
  datatype Completion = Interrupted | Error | Moved(k: nat)

  function Start(orig: seq<IoVec>, progress: nat): Transfer {
    Transfer(orig, orig, progress, Active)
  }

  /** What `writev_callback` and `readv_callback` do to the transfer. */
  function Complete(t: Transfer, c: Completion): Transfer {
    match c
    case Interrupted => t
    case Error => t.(status := Failed)
    case Moved(k) =>
      if t.progress + k >= Size(t.orig) then t.(status := Done)
      else t.(work := Rebuilt(t.orig, t.progress + k), progress := t.progress + k)
  }

  /** The kernel moves no more than what was submitted. */
  predicate Allowed(t: Transfer, c: Completion) {
    t.status.Active? && (c.Moved? ==> c.k <= Size(t.work))
  }

  function Run(t: Transfer, cs: seq<Completion>): Transfer {
    if cs == [] then t else Complete(Run(t, cs[..|cs| - 1]), cs[|cs| - 1])
  }

  predicate Schedule(t: Transfer, cs: seq<Completion>) {
    cs == [] || (Schedule(t, cs[..|cs| - 1]) && Allowed(Run(t, cs[..|cs| - 1]), cs[|cs| - 1]))
  }

  /** The addresses the kernel has read (or filled) over the whole run, in order. */
  function Transferred(t: Transfer, cs: seq<Completion>): seq<Addr>
    requires Schedule(t, cs)
  {
    if cs == [] then []
    else
      var before, c := cs[..|cs| - 1], cs[|cs| - 1];
      Transferred(t, before) + if c.Moved? then Addrs(Run(t, before).work)[..c.k] else []
  }

  /** The task of a scatter read: the original array, the one that is submitted, and the progress. */
  class ReadvTask {
    const orig: array<IoVec>
    const iovs: array<IoVec>
    var progress: nat
    var status: Status

    ghost predicate Valid() {
      orig != iovs && orig.Length == iovs.Length
    }

    ghost function Value(): Transfer
      reads this, orig, iovs
    {
      Transfer(orig[..], iovs[..], progress, status)
    }

    /** `get_task_vector_op`: the iovecs are copied. */
    constructor (iovecs: array<IoVec>)
      ensures Valid() && fresh(iovs) && orig == iovecs && Value() == Start(iovecs[..], 0)
    {
      orig, progress, status := iovecs, 0, Active;
      iovs := new IoVec[iovecs.Length](i requires 0 <= i < iovecs.Length reads iovecs => iovecs[i]);
    }

    /** `readv_callback`. */
    method ReadvCallback(c: Completion)
      requires Valid() && Allowed(Value(), c)
      modifies this, iovs
      ensures Valid() && Value() == Complete(old(Value()), c)
    {
      match c
      case Interrupted =>
      case Error => status := Failed;
      case Moved(k) =>
        var totalProgress := progress + k;
        var fullSize := FullSize(orig);
        if totalProgress >= fullSize {
          status := Done;
        } else {
          VectorOpsProgress(orig, iovs, totalProgress);
          progress := totalProgress;
        }
    }
  }

  /** What is true of an unfinished transfer that began with `progress` zero and has moved `moved`. */
  ghost predicate OnTrack(orig: seq<IoVec>, t: Transfer, moved: seq<Addr>) {
    && t.orig == orig
    && (t.status.Active? ==>
         && t.progress <= Size(orig) && Addrs(t.work) == Addrs(orig)[t.progress..]
         && moved + Addrs(t.work) == Addrs(orig))
    && (t.status.Done? ==> moved == Addrs(orig))
  }

  lemma OnTrackStep(orig: seq<IoVec>, t: Transfer, moved: seq<Addr>, c: Completion)
    requires OnTrack(orig, t, moved) && Allowed(t, c)
    ensures OnTrack(orig, Complete(t, c), moved + if c.Moved? then Addrs(t.work)[..c.k] else [])
  {
    hide Addrs, Rebuilt;
    if c.Moved? {
      var all := Addrs(orig);
      assert moved == all[..t.progress];
      assert moved + Addrs(t.work)[..c.k] == all[..t.progress + c.k];
      if t.progress + c.k < Size(orig) {
        RebuiltDenotes(orig, t.progress + c.k);
      }
    } else {
      assert moved + [] == moved;
    }
  }

  /** For every schedule of partial completions and interruptions: what was transferred so far,
      followed by what is submitted now, is the original; the submitted array is the original
      dropped by `progress`; and a finished run has transferred the original exactly once. */
  lemma {:induction false} WholeRun(orig: seq<IoVec>, cs: seq<Completion>)
    requires Schedule(Start(orig, 0), cs)
    ensures OnTrack(orig, Run(Start(orig, 0), cs), Transferred(Start(orig, 0), cs))
  {
    if cs != [] {
      var before := cs[..|cs| - 1];
      WholeRun(orig, before);
      OnTrackStep(orig, Run(Start(orig, 0), before), Transferred(Start(orig, 0), before), cs[|cs| - 1]);
    }
  }

  function Positive(cs: seq<Completion>): nat {
    if cs == [] then 0
    else Positive(cs[..|cs| - 1]) + if cs[|cs| - 1].Moved? && cs[|cs| - 1].k > 0 then 1 else 0
  }

  /** Every positive completion shortens what remains, so an unfinished run has had fewer of them
      than there are bytes. */
  lemma {:induction false} Terminates(orig: seq<IoVec>, cs: seq<Completion>)
    requires Schedule(Start(orig, 0), cs) && Run(Start(orig, 0), cs).status.Active?
    ensures var t := Run(Start(orig, 0), cs);
            Size(t.work) == Size(orig) - t.progress && Positive(cs) <= t.progress
            && (cs != [] && cs[|cs| - 1].Moved? ==> t.progress < Size(orig))
  {
    WholeRun(orig, cs);
    if cs != [] {
      Terminates(orig, cs[..|cs| - 1]);
    }
  }

  /** A transfer that starts with a left-over `progress` delivers everything on every schedule if and only if that
      left-over is zero or there is nothing to deliver. */
  lemma DeliversIffFromZero(orig: seq<IoVec>, p: nat)
    ensures (forall cs :: Schedule(Start(orig, p), cs) && Run(Start(orig, p), cs).status.Done? ==>
                            Transferred(Start(orig, p), cs) == Addrs(orig))
            <==> p == 0 || Size(orig) == 0
  {
    hide Addrs, Size;
    if p == 0 {
      forall cs | Schedule(Start(orig, p), cs) && Run(Start(orig, p), cs).status.Done?
        ensures Transferred(Start(orig, p), cs) == Addrs(orig)
      {
        WholeRun(orig, cs);
      }
    } else if Size(orig) == 0 {
      forall cs | Schedule(Start(orig, p), cs)
        ensures Transferred(Start(orig, p), cs) == Addrs(orig)
      {
        NothingToMove(orig, p, cs);
      }
    } else if p <= Size(orig) {
      LosesLeftOver(orig, p);
    } else {
      LosesAll(orig, p);
    }
  }

  lemma {:induction false} NothingToMove(orig: seq<IoVec>, p: nat, cs: seq<Completion>)
    requires Size(orig) == 0 && Schedule(Start(orig, p), cs)
    ensures Transferred(Start(orig, p), cs) == Addrs(orig) == []
    ensures var t := Run(Start(orig, p), cs); t.status.Active? ==> t == Start(orig, p)
  {
    if cs != [] {
      NothingToMove(orig, p, cs[..|cs| - 1]);
    }
  }

  /** With more progress left behind than there are bytes, a completion that takes nothing ends the transfer. */
  lemma LosesAll(orig: seq<IoVec>, p: nat)
    requires p > Size(orig) > 0
    ensures var t, cs := Start(orig, p), [Moved(0)];
            Schedule(t, cs) && Run(t, cs).status.Done? && Transferred(t, cs) == [] != Addrs(orig)
  {
    var t, c := Start(orig, p), Moved(0);
    assert [c][..0] == [];
    assert Schedule(t, []) && Allowed(t, c) && Schedule(t, [c]);
    assert Transferred(t, [c]) == [] + Addrs(orig)[..0];
  }

  /** One completion that takes what the code believes to be left ends the transfer `p` bytes too early. */
  lemma LosesLeftOver(orig: seq<IoVec>, p: nat)
    requires 0 < p <= Size(orig)
    ensures var t, cs := Start(orig, p), [Moved(Size(orig) - p)];
            Schedule(t, cs) && Run(t, cs).status.Done? && |Transferred(t, cs)| == Size(orig) - p
  {
    var t, c := Start(orig, p), Moved(Size(orig) - p);
    assert [c][..0] == [];
    assert Schedule(t, []) && Allowed(t, c) && Schedule(t, [c]);
    assert Transferred(t, [c]) == [] + Addrs(orig)[..Size(orig) - p];
  }

  // ---------------------------------------------------------------- scatter reads

  /** Memory after the bytes `data` are stored at `at`, in order. */
  function Store(mem: map<Addr, char>, at: seq<Addr>, data: string): map<Addr, char>
    requires |at| == |data|
  {
    if at == [] then mem
    else Store(mem, at[..|at| - 1], data[..|at| - 1])[at[|at| - 1] := data[|at| - 1]]
  }

  lemma {:induction false} StoreAppend(mem: map<Addr, char>, a: seq<Addr>, d: string, b: seq<Addr>, e: string)
    requires |a| == |d| && |b| == |e|
    ensures Store(Store(mem, a, d), b, e) == Store(mem, a + b, d + e)
  {
    if b == [] {
      assert a + b == a && d + e == d;
    } else {
      var n := |b| - 1;
      StoreAppend(mem, a, d, b[..n], e[..n]);
      assert (a + b)[..|a| + n] == a + b[..n] && (d + e)[..|a| + n] == d + e[..n];
    }
  }

  /** The bytes each completion delivers; only `Moved` carries any. */
  predicate Carries(cs: seq<Completion>, chunks: seq<string>) {
    |cs| == |chunks| && forall i :: 0 <= i < |cs| ==> |chunks[i]| == if cs[i].Moved? then cs[i].k else 0
  }

  function Concat(chunks: seq<string>): string {
    if chunks == [] then "" else Concat(chunks[..|chunks| - 1]) + chunks[|chunks| - 1]
  }

  /** Memory while the kernel scatters each chunk through the array submitted at the time. */
  function Filled(mem: map<Addr, char>, t: Transfer, cs: seq<Completion>, chunks: seq<string>): map<Addr, char>
    requires Schedule(t, cs) && Carries(cs, chunks)
  {
    if cs == [] then mem
    else
      var n := |cs| - 1;
      var m := Filled(mem, t, cs[..n], chunks[..n]);
      if cs[n].Moved? then Store(m, Addrs(Run(t, cs[..n]).work)[..cs[n].k], chunks[n]) else m
  }

  lemma {:induction false} FilledIsStore(mem: map<Addr, char>, t: Transfer, cs: seq<Completion>, chunks: seq<string>)
    requires Schedule(t, cs) && Carries(cs, chunks)
    ensures |Transferred(t, cs)| == |Concat(chunks)|
    ensures Filled(mem, t, cs, chunks) == Store(mem, Transferred(t, cs), Concat(chunks))
  {
    if cs != [] {
      var n := |cs| - 1;
      FilledIsStore(mem, t, cs[..n], chunks[..n]);
      if cs[n].Moved? {
        StoreAppend(mem, Transferred(t, cs[..n]), Concat(chunks[..n]), Addrs(Run(t, cs[..n]).work)[..cs[n].k], chunks[n]);
      } else {
        assert Transferred(t, cs) == Transferred(t, cs[..n]) && Concat(chunks) == Concat(chunks[..n]);
      }
    }
  }

  ghost predicate DistinctAddrs(at: seq<Addr>) {
    forall i, j :: 0 <= i < j < |at| ==> at[i] != at[j]
  }

  /** Reading `at` back from memory gives `data`. */
  ghost predicate ReadsBack(mem: map<Addr, char>, at: seq<Addr>, data: string)
    requires |at| == |data|
  {
    forall i :: 0 <= i < |at| ==> at[i] in mem && mem[at[i]] == data[i]
  }

  lemma {:induction false} StoreReadsBack(mem: map<Addr, char>, at: seq<Addr>, data: string)
    requires |at| == |data| && DistinctAddrs(at)
    ensures ReadsBack(Store(mem, at, data), at, data)
  {
    if at != [] {
      var n := |at| - 1;
      StoreReadsBack(mem, at[..n], data[..n]);
      assert forall i :: 0 <= i < n ==> at[..n][i] == at[i];
    }
  }

  /** A finished `readv` leaves the stream it consumed in the original buffers, for every schedule. */
  lemma ReadvFills(mem: map<Addr, char>, orig: seq<IoVec>, cs: seq<Completion>, chunks: seq<string>)
    requires Schedule(Start(orig, 0), cs) && Carries(cs, chunks)
    requires Run(Start(orig, 0), cs).status.Done? && DistinctAddrs(Addrs(orig))
    ensures |Concat(chunks)| == |Addrs(orig)|
    ensures ReadsBack(Filled(mem, Start(orig, 0), cs, chunks), Addrs(orig), Concat(chunks))
  {
    WholeRun(orig, cs);
    FilledIsStore(mem, Start(orig, 0), cs, chunks);
    StoreReadsBack(mem, Addrs(orig), Concat(chunks));
  }

  /** Whatever stream is stored at `at` can be read back from there. */
  ghost predicate HoldsEveryStream(at: seq<Addr>) {
    forall mem, data | |data| == |at| :: ReadsBack(Store(mem, at, data), at, data)
  }

  /** Buffers that overlap cannot hold every stream: the distinctness above is exactly what is needed. */
  lemma OverlapLosesBytes(at: seq<Addr>)
    ensures HoldsEveryStream(at) <==> DistinctAddrs(at)
  {
    if DistinctAddrs(at) {
      forall mem, data | |data| == |at|
        ensures ReadsBack(Store(mem, at, data), at, data)
      {
        StoreReadsBack(mem, at, data);
      }
    } else {
      var i, j :| 0 <= i < j < |at| && at[i] == at[j];
      var data := seq(|at|, k => if k == i then 'a' else 'b');
      assert data[i] != data[j];
      var mem: map<Addr, char> := map[];
      assert !ReadsBack(Store(mem, at, data), at, data);
    }
  }
}
