/** The task table and the file-sending state machine of `network_server` as a value: each function
    states what one member function does to it, and `Step` what one event does.  The event manager is
    the environment: it completes any submitted operation, at any time, with any possible result. */
module ServerSpec {
  import opened Options
  import opened CacheSpec
  import opened Vectored
  import opened Ranges

  /** The operation types the model distinguishes. */
  datatype OpType = InotifyRead | HttpWrite | HttpWritev | HttpSendFile | RawWritev | WebsocketWritev | RawClose

  /** What `task.buff` points to: nothing, a data block, or an array of iovecs (with its address). */
  datatype Buff = NoBuff | Bytes(block: nat) | Vecs(block: nat, vecs: seq<IoVec>)

  /** `struct task`; a null `iovs` is the empty sequence and a null `additional_ptr` is 0. */
  datatype Task = Task(
    opType: OpType, buff: Buff, buffLength: nat, progress: nat, iovs: seq<IoVec>, numIovecs: nat,
    writeRanges: seq<Range>, writeRangesIdx: nat, filepath: string, additional: nat, forClient: nat)

  const BLANK := Task(InotifyRead, NoBuff, SIZE_MAX, 0, [], SIZE_MAX, [], 0, "", 0, SIZE_MAX)

  /** Who has to free a heap block. */
  datatype Owner = Cached(name: string) | HeaderOf(id: nat) | FileOf(id: nat) | Reply

  datatype Block = Block(owner: Owner, bytes: string)

  /** A submitted operation that is not completed yet. */
  datatype Op =
    | Writev(client: nat, iovs: seq<IoVec>)
    | Read(block: nat, off: nat, len: nat)
    | Write(client: nat, block: nat)

  /** What the kernel reads from an address: a byte, or whatever is left of a block that was freed. */
  datatype Cell = Byte(c: char) | Dangling

  /** The history of one task: the file it sends, if it came from the cache and is sent whole; what
      its first submission denoted; what the kernel has taken; and how it ended. */
  datatype Log = Log(file: Option<string>, want: seq<Cell>, sent: seq<Cell>, status: Status)

  const NO_LOG := Log(None, [], [], Active)

  datatype State = State(
    tasks: seq<Task>, freedIdxs: set<nat>, cache: Cache, mem: map<nat, Block>, next: nat,
    ops: map<nat, Op>, log: seq<Log>)

  function Init(size: nat): State {
    State([], {}, Cache([], size, []), map[], 1, map[], [])
  }

  function Load(mem: map<nat, Block>, a: Addr): Cell {
    if a.block in mem && a.off < |mem[a.block].bytes| then Byte(mem[a.block].bytes[a.off]) else Dangling
  }

  function Gather(mem: map<nat, Block>, at: seq<Addr>): (r: seq<Cell>)
    ensures |r| == |at| && forall i :: 0 <= i < |r| ==> r[i] == Load(mem, at[i])
  {
    seq(|at|, i requires 0 <= i < |at| => Load(mem, at[i]))
  }

  // ---------------------------------------------------------------- task table

  /** A free id if there is one, else a new one at the end. */
  function GetTask(s: State): (r: (State, nat))
    requires Table(s)
    ensures r.1 < |r.0.tasks| && Table(r.0) && r.0.tasks[r.1] == BLANK
  {
    if s.freedIdxs == {} then (s.(tasks := s.tasks + [BLANK], log := s.log + [NO_LOG]), |s.tasks|)
    else
      var id := Smallest(s.freedIdxs);
      (s.(tasks := s.tasks[id := BLANK], freedIdxs := s.freedIdxs - {id}, log := s.log[id := NO_LOG]), id)
  }

  predicate Least(ids: set<nat>, m: nat) {
    m in ids && forall i :: i in ids ==> m <= i
  }

  function Smallest(ids: set<nat>): (m: nat)
    requires ids != {}
    ensures Least(ids, m)
  {
    SmallestExists(ids);
    var m :| m in ids && Least(ids, m);
    m
  }

  lemma {:induction false} SmallestExists(ids: set<nat>)
    requires ids != {}
    ensures exists m :: Least(ids, m)
  {
    var m :| m in ids;
    if ids == {m} {
      assert Least(ids, m);
    } else {
      SmallestExists(ids - {m});
      var k :| Least(ids - {m}, k);
      assert forall i :: i in ids ==> i == m || i in ids - {m};
      assert Least(ids, if k < m then k else m);
    }
  }

  function SetTask(s: State, id: nat, t: Task): State
    requires id < |s.tasks|
  {
    s.(tasks := s.tasks[id := t])
  }

  predicate Table(s: State) {
    |s.log| == |s.tasks| && forall i :: i in s.freedIdxs ==> i < |s.tasks|
  }

  function GetTaskBuffOp(s: State, opType: OpType, block: nat, len: nat): (r: (State, nat))
    requires Table(s)
    ensures r.1 < |r.0.tasks| && Table(r.0)
  {
    var (s1, id) := GetTask(s);
    var t := BLANK.(opType := opType);
    (SetTask(s1, id, if block != 0 then t.(buff := Bytes(block), buffLength := len) else t), id)
  }

  function GetTaskVectorOp(s: State, opType: OpType, at: nat, vecs: seq<IoVec>): (r: (State, nat))
    requires Table(s)
    ensures r.1 < |r.0.tasks| && Table(r.0)
  {
    var (s1, id) := GetTask(s);
    (SetTask(s1, id, BLANK.(opType := opType, buff := Vecs(at, vecs), numIovecs := |vecs|, iovs := vecs)), id)
  }

  // ---------------------------------------------------------------- memory and cache

  function Malloc(s: State, owner: Owner, bytes: string): (State, nat) {
    (s.(mem := s.mem[s.next := Block(owner, bytes)], next := s.next + 1), s.next)
  }

  function Free(s: State, block: nat): State {
    s.(mem := s.mem - {block})
  }

  /** The cache after one of its operations; what it freed is gone from memory. */
  function WithCache(s: State, c: Cache): State {
    s.(cache := c, mem := map b | b in s.mem && b !in c.freed :: s.mem[b])
  }

  // ---------------------------------------------------------------- sending a file

  predicate UsingRanges(t: Task) {
    t.writeRanges != [] && t.writeRangesIdx < |t.writeRanges|
  }

  function BlockOf(b: Buff): nat {
    match b
    case NoBuff => 0
    case Bytes(block) => block
    case Vecs(block, _) => block
  }

  /** The original iovecs of a vectored task, and the block of the response header among them. */
  function Orig(t: Task): seq<IoVec> {
    if t.buff.Vecs? then t.buff.vecs else []
  }

  function HeaderBlock(t: Task): nat {
    if Orig(t) == [] then 0 else Orig(t)[0].base.block
  }

  /** The body of a response: the whole file at `base`, or the next range, whose length is taken as
      `end - start`. */
  function Body(t: Task, base: nat): IoVec {
    if UsingRanges(t) then
      var r := t.writeRanges[t.writeRangesIdx];
      IoVec(Addr(base, r.start), ToSize(r.end - r.start))
    else IoVec(Addr(base, 0), t.buffLength)
  }

  /** The header and the two iovecs of a response in the record of its task; `header` is its text. */
  function PutFile(s: State, id: nat, header: string): (r: (State, seq<IoVec>))
    requires id < |s.tasks|
    ensures |r.0.tasks| == |s.tasks| && r.0.log == s.log
  {
    var t := s.tasks[id];
    var (s1, h) := Malloc(s, HeaderOf(id), header);
    var vecs := [IoVec(Addr(h, 0), |header|), Body(t, BlockOf(t.buff))];
    (SetTask(s1.(next := s1.next + 1), id,
             t.(writeRangesIdx := t.writeRangesIdx + 1, buff := Vecs(s1.next, vecs), iovs := vecs, numIovecs := 2)), vecs)
  }

  /** `http_send_file_writev_submit_helper`. */
  function SubmitFile(s: State, id: nat, client: nat, header: string): State
    requires Table(s) && id < |s.tasks|
  {
    var t := s.tasks[id];
    var (s2, vecs) := PutFile(s, id, header);
    s2.(ops := s2.ops[id := Writev(client, vecs)],
        log := s2.log[id := Log(if t.additional == 0 && !UsingRanges(t) then Some(t.filepath) else None,
                                Gather(s2.mem, Addrs(vecs)), [], Active)])
  }

  /** `helper_range_unsatisfiable_error_send`: a response written by a task of its own. */
  function SendUnsatisfiable(s: State, client: nat, header: string): State
    requires Table(s)
  {
    var (s1, b) := Malloc(s, Reply, header);
    var (s2, id) := GetTaskBuffOp(s1, HttpWrite, b, |header|);
    s2.(ops := s2.ops[id := Write(client, b)])
  }

  /** The part of `http_send_cached_file` after a hit: `it` is the locked item. */
  function SendLocked(s: State, client: nat, path: string, rangeStr: string, header: string, it: Item): State
    requires Table(s) && (rangeStr == "" || rangeStr == "none" || |rangeStr| >= 6)
  {
    var (s1, id) := GetTaskBuffOp(s, HttpSendFile, it.buff, it.buffLength);
    var (ranges, valid) := ParseRanges(rangeStr, it.buffLength);
    var s2 := SetTask(s1, id, s1.tasks[id].(filepath := path, writeRanges := ranges));
    if !valid then SendUnsatisfiable(WithCache(s2, Unlock(s2.cache, path)), client, header)
    else SubmitFile(s2, id, client, header)
  }

  /** The part of `http_send_file` after a miss, for a file that can be opened: its size is known,
      its bytes are read later. */
  function SendUncached(s: State, client: nat, path: string, rangeStr: string, header: string, size: nat): State
    requires Table(s) && (rangeStr == "" || rangeStr == "none" || |rangeStr| >= 6)
  {
    var (s1, id) := GetTask(s);
    var (ranges, valid) := ParseRanges(rangeStr, size);
    var t := BLANK.(forClient := client, buffLength := size, filepath := path, opType := HttpSendFile, writeRanges := ranges);
    var s2 := SetTask(s1, id, t);
    if !valid then SendUnsatisfiable(s2, client, header)
    else
      var (s3, b) := Malloc(s2, FileOf(id), seq(size, _ => '\0'));
      var s4 := SetTask(s3, id, t.(buff := Bytes(b)));
      s4.(ops := s4.ops[id := Read(b, 0, size)])
  }

  /** `http_send_file`: from the cache if the file is there, else from disk.  `size` is absent if the
      file cannot be opened. */
  function SendFile(s: State, client: nat, path: string, rangeStr: string, header: string, size: Option<nat>): State
    requires Table(s) && (rangeStr == "" || rangeStr == "none" || |rangeStr| >= 6)
  {
    var (c, hit) := GetAndLock(s.cache, path);
    var s1 := WithCache(s, c);
    match hit
    case Some(it) => SendLocked(s1, client, path, rangeStr, header, it)
    case None => if size.Some? then SendUncached(s1, client, path, rangeStr, header, size.value) else s1
  }

  /** `http_send_file_writev_submit`: the file is read, its buffer is remembered for the cache. */
  function SubmitRead(s: State, id: nat, header: string): State
    requires Table(s) && id < |s.tasks|
  {
    var t := s.tasks[id];
    var s1 := SetTask(s, id, t.(additional := BlockOf(t.buff), forClient := SIZE_MAX));
    var s2 := SubmitFile(s1, id, t.forClient, header);
    var (s3, closeId) := GetTask(s2);
    SetTask(s3, closeId, BLANK.(opType := RawClose))
  }

  /** The completion of a read; no data is the end of the file. */
  datatype ReadResult = ReadInterrupted(resubmitted: bool) | ReadError | Got(data: string)

  function Overwrite(bytes: string, off: nat, data: string): string
    requires off + |data| <= |bytes|
  {
    bytes[..off] + data + bytes[off + |data|..]
  }

  function Remove<K, V>(m: map<K, V>, k: K): map<K, V> {
    m - {k}
  }

  /** `http_send_file_read_failed`, then the close. */
  function ReadFailed(s: State, id: nat): State
    requires id < |s.tasks|
  {
    var s1 := Free(s, BlockOf(s.tasks[id].buff));
    s1.(ops := Remove(s1.ops, id))
  }

  /** Memory once the kernel has put `data` into the buffer of task `id`. */
  function Arrived(s: State, id: nat, data: string): State
    requires id < |s.tasks|
  {
    var t := s.tasks[id];
    var b := BlockOf(t.buff);
    if b in s.mem && t.progress + |data| <= |s.mem[b].bytes|
    then s.(mem := s.mem[b := s.mem[b].(bytes := Overwrite(s.mem[b].bytes, t.progress, data))]) else s
  }

  /** `read_callback` for a file that is being read to be sent. */
  function FileRead(s: State, id: nat, r: ReadResult, header: string): State
    requires Table(s) && id < |s.tasks|
  {
    var t := s.tasks[id];
    match r
    case ReadInterrupted(resubmitted) => if resubmitted then s else ReadFailed(s, id)
    case ReadError => ReadFailed(s, id)
    case Got(data) =>
      var s1 := Arrived(s, id, data);
      if data == "" then if t.progress == t.buffLength then SubmitRead(s1, id, header) else ReadFailed(s1, id)
      else if t.progress + |data| < t.buffLength then
        var total := t.progress + |data|;
        SetTask(s1, id, t.(progress := total)).(ops := s1.ops[id := Read(BlockOf(t.buff), total, t.buffLength - total)])
      else SubmitRead(s1, id, header)
  }

  /** The start of `http_send_file_writev_finish`: the header and both iovec arrays are freed. */
  function TearDown(s: State, id: nat): State
    requires id < |s.tasks|
  {
    var t := s.tasks[id];
    var s1 := SetTask(Free(s, HeaderBlock(t)), id, t.(buff := NoBuff, iovs := []));
    s1.(ops := Remove(s1.ops, id))
  }

  /** `http_send_file_writev_finish`; `wd` is the watch a new cache entry would get. */
  function FinishSend(s: State, id: nat, wd: int): State
    requires id < |s.tasks|
  {
    var t := s.tasks[id];
    var s1 := TearDown(s, id);
    var s2 := WithCache(s1, Unlock(s1.cache, t.filepath));
    if t.additional == 0 then s2 else Deposit(s2, t.filepath, t.additional, t.buffLength, wd)
  }

  /** The buffer of a file that was read goes to the cache, or is freed if the cache refuses it. */
  function Deposit(s: State, path: string, block: nat, len: nat, wd: int): State {
    var (c, ok) := AddOrUpdate(s.cache, path, block, len, wd);
    if !ok then Free(s, block)
    else
      var s1 := WithCache(s, c);
      if block in s1.mem then s1.(mem := s1.mem[block := s1.mem[block].(owner := Cached(path))]) else s1
  }

  /** A new header and the next range in the record of its task: the base of the range is computed from the
      iovec array `task.buff` now points to. */
  function PutRange(s: State, id: nat, header: string): (r: (State, seq<IoVec>))
    requires id < |s.tasks|
  {
    var t := s.tasks[id];
    var (s1, h) := Malloc(Free(s, HeaderBlock(t)), HeaderOf(id), header);
    var vecs := [IoVec(Addr(h, 0), |header|), Body(t, BlockOf(t.buff))];
    (SetTask(s1, id, t.(writeRangesIdx := t.writeRangesIdx + 1, buff := Vecs(BlockOf(t.buff), vecs), iovs := vecs)), vecs)
  }

  function NextRange(s: State, id: nat, client: nat, header: string): State
    requires id < |s.tasks|
  {
    var (s1, vecs) := PutRange(s, id, header);
    s1.(ops := s1.ops[id := Writev(client, vecs)])
  }

  /** `http_send_file_writev_continue`: the next range if there is one, else the end. */
  function ContinueSend(s: State, id: nat, header: string, wd: int): State
    requires id < |s.tasks| && id in s.ops && s.ops[id].Writev?
  {
    if UsingRanges(s.tasks[id]) then NextRange(s, id, s.ops[id].client, header) else FinishSend(s, id, wd)
  }

  /** `writev_callback`. */
  function WritevDone(s: State, id: nat, c: Completion, header: string, wd: int): State
    requires Table(s) && id < |s.tasks| && id in s.ops && s.ops[id].Writev?
    requires c.Moved? ==> c.k <= Size(s.ops[id].iovs)
  {
    var t := s.tasks[id];
    match c
    case Interrupted => s
    case Error =>
      var s1 := s.(log := s.log[id := s.log[id].(status := Failed)]);
      if t.opType.HttpSendFile? then FinishSend(s1, id, wd) else s1.(ops := Remove(s1.ops, id))
    case Moved(k) =>
      var sent := s.log[id].sent + Gather(s.mem, Addrs(s.ops[id].iovs)[..k]);
      var total := t.progress + k;
      if total >= Size(Orig(t)) then
        var s1 := s.(log := s.log[id := s.log[id].(sent := sent, status := Done)]);
        if t.opType.HttpSendFile? then ContinueSend(s1, id, header, wd)
        else SetTask(s1, id, t.(iovs := [])).(ops := Remove(s1.ops, id))
      else
        var s1 := s.(log := s.log[id := s.log[id].(sent := sent)]);
        var iovs := Rebuilt(Orig(t), total);
        SetTask(s1, id, t.(iovs := iovs, progress := total)).(ops := s1.ops[id := Writev(s1.ops[id].client, iovs)])
  }

  /** `http_writev` of an application's own iovecs. */
  function AppWritev(s: State, client: nat, vecs: seq<IoVec>): State
    requires Table(s)
  {
    var (s1, id) := GetTaskVectorOp(s.(next := s.next + 1), HttpWritev, s.next, vecs);
    s1.(ops := s1.ops[id := Writev(client, vecs)])
  }

  // ---------------------------------------------------------------- events

  datatype Event =
    | Send(client: nat, path: string, rangeStr: string, header: string, size: Option<nat>)
    | SendVecs(client: nat, vecs: seq<IoVec>)
    | ReadDone(id: nat, result: ReadResult, header: string)
    | Written(id: nat, outcome: Completion, header: string, wd: int)
    | Inotify(wd: int)

  /** What the environment may do: complete an operation that is in flight, by no more than was submitted. */
  predicate MayHappen(s: State, e: Event) {
    && Table(s)
    && match e
       case Send(_, _, rangeStr, _, _) => rangeStr == "" || rangeStr == "none" || |rangeStr| >= 6
       case SendVecs(_, _) => true
       case ReadDone(id, r, _) =>
         && id < |s.tasks| && id in s.ops && s.ops[id].Read?
         && (r.Got? ==> |r.data| <= s.ops[id].len)
       case Written(id, c, _, _) =>
         && id < |s.tasks| && id in s.ops && s.ops[id].Writev?
         && (c.Moved? ==> c.k <= Size(s.ops[id].iovs))
       case Inotify(_) => true
  }

  function Step(s: State, e: Event): State
    requires MayHappen(s, e)
  {
    match e
    case Send(client, path, rangeStr, header, size) => SendFile(s, client, path, rangeStr, header, size)
    case SendVecs(client, vecs) => AppWritev(s, client, vecs)
    case ReadDone(id, r, header) => FileRead(s, id, r, header)
    case Written(id, c, header, wd) => WritevDone(s, id, c, header, wd)
    case Inotify(wd) => WithCache(s, ProcessEvent(s.cache, wd))
  }

  predicate Feasible(s: State, es: seq<Event>)
    decreases |es|, 0
  {
    es == [] || (Feasible(s, es[..|es| - 1]) && MayHappen(RunAll(s, es[..|es| - 1]), es[|es| - 1]))
  }

  function RunAll(s: State, es: seq<Event>): State
    requires Feasible(s, es)
    decreases |es|, 1
  {
    if es == [] then s else Step(RunAll(s, es[..|es| - 1]), es[|es| - 1])
  }
}
