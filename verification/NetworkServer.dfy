/** The sending side of `network_server` as written: a task table, a file cache, and iovec arrays on
    the heap.  Each method is proved to do to the value of the server what ServerSpec.dfy says. */
module NetworkServer {
  import opened Options
  import opened CacheSpec
  import opened Vectored
  import opened Ranges
  import opened ServerSpec
  import I = ServerInvariant
  import P = ServerTheorems
  import L = LruCache
  import T = CText

  /** What `task.buff` points to. */
  datatype BuffPtr = NullPtr | DataPtr(block: nat) | VecsPtr(block: nat, vecs: array<IoVec>)

  /** `struct task`. */
  datatype TaskRec = TaskRec(
    opType: OpType, buff: BuffPtr, buffLength: nat, progress: nat, iovs: array?<IoVec>, numIovecs: nat,
    writeRanges: seq<Range>, writeRangesIdx: nat, filepath: string, additional: nat, forClient: nat)

  const BLANK_REC := TaskRec(InotifyRead, NullPtr, SIZE_MAX, 0, null, SIZE_MAX, [], 0, "", 0, SIZE_MAX)

  /** The arrays a task record points to. */
  function Arrays(t: TaskRec): set<array<IoVec>> {
    (if t.iovs == null then {} else {t.iovs}) + (if t.buff.VecsPtr? then {t.buff.vecs} else {})
  }

  function BuffOf(b: BuffPtr): Buff
    reads if b.VecsPtr? then {b.vecs} else {}
  {
    match b
    case NullPtr => NoBuff
    case DataPtr(block) => Bytes(block)
    case VecsPtr(block, vecs) => Vecs(block, vecs[..])
  }

  /** A record without what it points to. */
  function Flat(t: TaskRec): Task {
    Task(t.opType, NoBuff, t.buffLength, t.progress, [], t.numIovecs, t.writeRanges, t.writeRangesIdx, t.filepath, t.additional,
         t.forClient)
  }

  function TaskOf(t: TaskRec): Task
    reads if t.iovs == null then {} else {t.iovs}
    reads if t.buff.VecsPtr? then {t.buff.vecs} else {}
  {
    Flat(t).(buff := BuffOf(t.buff), iovs := if t.iovs == null then [] else t.iovs[..])
  }

  /** What a record with iovec arrays stands for. */
  lemma VectorRecord(t: TaskRec)
    requires t.buff.VecsPtr? && t.iovs != null
    ensures Arrays(t) == {t.iovs, t.buff.vecs}
    ensures TaskOf(t) == Flat(t).(buff := Vecs(t.buff.block, t.buff.vecs[..]), iovs := t.iovs[..])
  {
  }

  /** What a record without iovec arrays stands for. */
  lemma PlainRecord(t: TaskRec)
    requires t.iovs == null && !t.buff.VecsPtr?
    ensures TaskOf(t) == Flat(t).(buff := if t.buff.DataPtr? then Bytes(t.buff.block) else NoBuff)
  {
  }

  lemma FlatRecord(t: TaskRec)
    ensures TaskOf(t) == Flat(t).(buff := TaskOf(t).buff, iovs := TaskOf(t).iovs) && BlockOf(TaskOf(t).buff) == BlockPtr(t.buff)
  {
  }

  /** `is_using_ranges`. */
  predicate InRanges(t: TaskRec) {
    t.writeRanges != [] && t.writeRangesIdx < |t.writeRanges|
  }

  function BlockPtr(b: BuffPtr): nat {
    match b
    case NullPtr => 0
    case DataPtr(block) => block
    case VecsPtr(block, _) => block
  }

  /** The second iovec of a response: the next range, or all of the file. */
  function NextBody(t: TaskRec): IoVec {
    if InRanges(t) then
      var range := t.writeRanges[t.writeRangesIdx];
      IoVec(Addr(BlockPtr(t.buff), range.start), ToSize(range.end - range.start))
    else IoVec(Addr(BlockPtr(t.buff), 0), t.buffLength)
  }

  lemma BodyOfRecord(t: TaskRec)
    ensures NextBody(t) == Body(TaskOf(t), BlockOf(TaskOf(t).buff))
    ensures InRanges(t) <==> UsingRanges(TaskOf(t))
  {
  }

  /** The record of a vectored operation: the original array, and a copy of the same length. */
  predicate VectorsOf(t: TaskRec) {
    t.buff.VecsPtr? && t.iovs != null && t.iovs != t.buff.vecs && t.iovs.Length == t.buff.vecs.Length
  }

  /** What an operation in flight needs of its task. */
  predicate Fits(op: Op, t: TaskRec) {
    match op
    case Writev(_, _) => VectorsOf(t)
    case Read(block, off, _) => t.buff == DataPtr(block) && t.iovs == null && off == t.progress
    case Write(_, _) => true
  }

  /** `memcpy` of an iovec array. */
  method CopyVecs(src: array<IoVec>, dst: array<IoVec>)
    requires src.Length == dst.Length && src != dst
    modifies dst
    ensures dst[..] == src[..]
  {
    forall i | 0 <= i < src.Length {
      dst[i] := src[i];
    }
  }

  /** A new array of two iovecs and a copy of it. */
  method TwoVecs(first: IoVec, second: IoVec) returns (vecs: array<IoVec>, iovs: array<IoVec>)
    ensures fresh(vecs) && fresh(iovs) && vecs != iovs && vecs[..] == iovs[..] == [first, second]
  {
    vecs := new IoVec[2];
    vecs[0], vecs[1] := first, second;
    iovs := new IoVec[2];
    CopyVecs(vecs, iovs);
  }

  lemma RemovePut<K, V>(m: map<K, V>, k: K, v: V)
    ensures Remove(m, k)[k := v] == m[k := v] && Remove(Remove(m, k), k) == Remove(m, k)
    ensures k in m ==> Remove(m, k)[k := m[k]] == m
  {
  }

  lemma WithCacheTwice(s: State, c: Cache)
    ensures WithCache(s.(cache := c), c) == WithCache(s, c) && WithCache(s, c).cache == c
  {
  }

  /** `s` when the operation of task `id` is no longer in flight. */
  function Idle(s: State, id: nat): State {
    s.(ops := Remove(s.ops, id))
  }

  // What follows the completion of an operation does not depend on that operation.

  lemma ReadForgets(s: State, id: nat, data: string, header: string)
    requires Table(s) && id < |s.tasks|
    ensures ServerSpec.FileRead(Idle(s, id), id, Got(data), header) == ServerSpec.FileRead(s, id, Got(data), header)
  {
    hide ServerSpec.SubmitRead, Overwrite, Arrived;
    var s1, t := Arrived(s, id, data), s.tasks[id];
    ArrivedIdle(s, id, data);
    SubmitForgets(s1, id, header);
    var total := t.progress + |data|;
    RemovePut(s1.ops, id, Read(BlockOf(t.buff), total, if total < t.buffLength then t.buffLength - total else 0));
  }

  lemma ArrivedIdle(s: State, id: nat, data: string)
    requires id < |s.tasks|
    ensures Arrived(Idle(s, id), id, data) == Idle(Arrived(s, id, data), id)
    ensures var d := Arrived(s, id, data); d.tasks == s.tasks && d.ops == s.ops && d.freedIdxs == s.freedIdxs && d.log == s.log
  {
  }

  lemma SubmitForgets(s: State, id: nat, header: string)
    requires Table(s) && id < |s.tasks|
    ensures ServerSpec.SubmitRead(Idle(s, id), id, header) == ServerSpec.SubmitRead(s, id, header)
  {
    hide ServerSpec.SubmitFile, ServerSpec.GetTask;
    var t := s.tasks[id];
    I.SubmitReplaces(ServerSpec.SetTask(s, id, t.(additional := BlockOf(t.buff), forClient := SIZE_MAX)), id, t.forClient, header);
  }

  lemma FinishForgets(s: State, id: nat, wd: int)
    requires id < |s.tasks|
    ensures ServerSpec.FinishSend(Idle(s, id), id, wd) == ServerSpec.FinishSend(s, id, wd)
  {
    hide Unlock, Deposit, WithCache;
    RemovePut(s.ops, id, Write(0, 0));
  }

  lemma NextForgets(s: State, id: nat, client: nat, header: string)
    requires id < |s.tasks|
    ensures NextRange(Idle(s, id), id, client, header) == NextRange(s, id, client, header)
  {
    hide Body;
    var op := NextRange(s, id, client, header).ops[id];
    RemovePut(s.ops, id, op);
  }

  class NetworkServer {
    var taskData: seq<TaskRec>
    var taskFreedIdxs: set<nat>
    const cache: L.LruFileCache
    /** The next heap block. */
    var next: nat
    /** The operations the event manager was given and has not completed. */
    var submitted: map<nat, Op>
    /** The live heap blocks: `MALLOC` adds one, `FREE` takes one away, the kernel reads into one. */
    ghost var heap: map<nat, Block>
    /** What each task has written so far. */
    ghost var history: seq<Log>
    /** What the records in the table stand for, and the task each iovec array belongs to. */
    ghost var tasks: seq<Task>
    ghost var owner: map<array<IoVec>, nat>

    /** The value of the server. */
    ghost function Value(): State
      reads this, cache
    {
      State(tasks, taskFreedIdxs, cache.state, heap, next, submitted, history)
    }

    ghost predicate TaskShows(id: nat)
      requires id < |taskData| && id < |tasks|
      reads this, owner.Keys
    {
      var t := taskData[id];
      && (t.iovs != null ==> t.iovs in owner && owner[t.iovs] == id)
      && (t.buff.VecsPtr? ==> t.buff.vecs in owner && owner[t.buff.vecs] == id && t.buff.vecs != t.iovs)
      && TaskOf(t) == tasks[id]
      && (id in submitted ==> Fits(submitted[id], t))
    }

    /** The value is that of the table, but for the record of task `x`. */
    ghost predicate TableShowsBut(x: int)
      reads this, owner.Keys
    {
      && |taskData| == |tasks| == |history|
      && (forall id :: id in taskFreedIdxs ==> id < |tasks|)
      && (forall id :: id in submitted ==> id < |taskData| && id !in taskFreedIdxs)
      && forall id {:trigger taskData[id]} {:trigger TaskShows(id)} :: 0 <= id < |taskData| && id != x ==> TaskShows(id)
    }

    ghost predicate TableShows()
      reads this, owner.Keys
    {
      TableShowsBut(-1)
    }

    ghost predicate Valid()
      reads this, owner.Keys, cache, cache.repr
    {
      TableShows() && cache.Valid()
    }

    /** What is known of any task. */
    lemma Known(id: nat)
      requires TableShows() && id < |taskData|
      ensures TableShowsBut(id) && id < |tasks| == |history| == |taskData| && Table(Value())
      ensures TaskOf(taskData[id]) == tasks[id] && (id in submitted ==> Fits(submitted[id], taskData[id]))
      ensures Value().tasks == tasks && Value().log == history && Value().ops == submitted
      ensures var t := taskData[id];
              && (t.iovs != null ==> t.iovs in owner && owner[t.iovs] == id)
              && (t.buff.VecsPtr? ==> t.buff.vecs in owner && owner[t.buff.vecs] == id && t.buff.vecs != t.iovs)
    {
      assert TaskShows(id);
    }

    /** What is known of a task whose operation is in flight. */
    lemma InFlight(id: nat)
      requires TableShows() && id in Value().ops
      ensures id in submitted && id < |taskData| == |tasks| == |history| && id !in taskFreedIdxs && Table(Value())
      ensures TaskOf(taskData[id]) == tasks[id] && Fits(submitted[id], taskData[id])
      ensures Value().tasks == tasks && Value().log == history && Value().ops == submitted
    {
      assert TaskShows(id);
    }

    constructor (size: nat)
      ensures Valid() && Value() == Init(size) && fresh(owner.Keys) && fresh(cache) && fresh(cache.repr)
    {
      var c := new L.LruFileCache(size);
      taskData, taskFreedIdxs, next, cache, submitted := [], {}, 1, c, map[];
      tasks, heap, history, owner := [], map[], [], map[];
    }

    // ---------------------------------------------------------------- the task table

    /** `get_task`: a freed id if there is one, else a new one. */
    method GetTask() returns (id: nat)
      requires TableShows()
      modifies this`taskData, this`taskFreedIdxs, this`tasks, this`history
      ensures TableShows() && Table(old(Value())) && (Value(), id) == ServerSpec.GetTask(old(Value())) && id !in taskFreedIdxs
      ensures id < |taskData| && taskData[id] == BLANK_REC && id !in submitted
    {
      PlainRecord(BLANK_REC);
      hide TaskOf;
      if taskFreedIdxs != {} {
        id := Smallest(taskFreedIdxs);
        taskFreedIdxs := taskFreedIdxs - {id};
        taskData := taskData[id := BLANK_REC];
        tasks, history := tasks[id := TaskOf(BLANK_REC)], history[id := NO_LOG];
      } else {
        taskData := taskData + [BLANK_REC];
        id := |taskData| - 1;
        tasks, history := tasks + [TaskOf(BLANK_REC)], history + [NO_LOG];
      }
    }

    /** Task `id` gets the record `t`, which has no iovecs. */
    method SetTask(id: nat, t: TaskRec)
      requires TableShows() && id < |taskData| && t.iovs == null && !t.buff.VecsPtr? && (id in submitted ==> Fits(submitted[id], t))
      modifies this`taskData, this`tasks
      ensures TableShows() && taskData == old(taskData)[id := t] && id < |old(tasks)|
      ensures Value() == ServerSpec.SetTask(old(Value()), id, old(TaskOf(t)))
    {
      hide TaskOf;
      taskData := taskData[id := t];
      tasks := tasks[id := TaskOf(t)];
    }

    /** `get_task_buff_op`. */
    method GetTaskBuffOp(opType: OpType, block: nat, len: nat) returns (id: nat)
      requires TableShows()
      modifies this`taskData, this`taskFreedIdxs, this`tasks, this`history
      ensures TableShows() && id < |taskData| && taskData[id].iovs == null && !taskData[id].buff.VecsPtr?
      ensures Table(old(Value())) && (Value(), id) == ServerSpec.GetTaskBuffOp(old(Value()), opType, block, len)
      ensures id !in submitted && id !in taskFreedIdxs && TaskOf(taskData[id]) == Value().tasks[id]
    {
      id := GetTask();
      var t := taskData[id].(opType := opType);
      if block != 0 {
        t := t.(buff := DataPtr(block), buffLength := len);
      }
      SetTask(id, t);
    }

    /** Task `id`, which has no operation in flight, gets a record with iovec arrays of its own. */
    method PutVectors(id: nat, t: TaskRec)
      requires TableShowsBut(id) && id < |taskData| && id !in submitted && VectorsOf(t)
      requires forall a :: a in Arrays(t) && a in owner ==> owner[a] == id
      modifies this`taskData, this`tasks, this`owner
      ensures TableShows() && taskData == old(taskData)[id := t] && id < |old(tasks)|
      ensures Value() == ServerSpec.SetTask(old(Value()), id, old(TaskOf(t)))
      ensures owner.Keys == old(owner.Keys) + Arrays(t)
    {
      hide TaskOf;
      taskData := taskData[id := t];
      tasks := tasks[id := TaskOf(t)];
      owner := owner[t.iovs := id][t.buff.vecs := id];
    }

    /** `get_task_vector_op`: the iovecs are copied, the original stays with the task. */
    method GetTaskVectorOp(opType: OpType, at: nat, iovecs: array<IoVec>) returns (id: nat)
      requires TableShows() && iovecs !in owner
      modifies this`taskData, this`taskFreedIdxs, this`tasks, this`history, this`owner
      ensures TableShows() && id < |taskData| && id !in submitted && id !in taskFreedIdxs && VectorsOf(taskData[id])
      ensures taskData[id].iovs[..] == iovecs[..]
      ensures Table(old(Value())) && (Value(), id) == ServerSpec.GetTaskVectorOp(old(Value()), opType, at, iovecs[..])
      ensures old(owner.Keys) <= owner.Keys && iovecs in owner && fresh(owner.Keys - old(owner.Keys) - {iovecs})
    {
      hide TableShowsBut, TableShows, TaskShows, Value, TaskOf;
      id := GetTask();
      var iovs := new IoVec[iovecs.Length];
      CopyVecs(iovecs, iovs);
      Known(id);
      var t := BLANK_REC.(opType := opType, buff := VecsPtr(at, iovecs), numIovecs := iovecs.Length, iovs := iovs);
      VectorRecord(t);
      PutVectors(id, t);
    }

    // ---------------------------------------------------------------- memory and the event manager

    /** `MALLOC` of a block with the given bytes. */
    method Malloc(ghost who: Owner, ghost bytes: string) returns (block: nat)
      requires TableShows()
      modifies this`next, this`heap
      ensures TableShows() && (Value(), block) == ServerSpec.Malloc(old(Value()), who, bytes)
    {
      block := next;
      next := next + 1;
      heap := heap[block := Block(who, bytes)];
    }

    /** The address of an array of iovecs. */
    method ArrayAddress() returns (block: nat)
      requires TableShows()
      modifies this`next
      ensures TableShows() && Value() == old(Value()).(next := old(Value()).next + 1) && block == old(Value()).next
    {
      block := next;
      next := next + 1;
    }

    /** `FREE`. */
    ghost method Free(block: nat)
      requires TableShows()
      modifies this`heap
      ensures TableShows() && Value() == ServerSpec.Free(old(Value()), block)
    {
      heap := heap - {block};
    }

    /** The blocks the cache has passed to `FREE` are gone. */
    ghost method CacheFrees()
      requires TableShows()
      modifies this`heap
      ensures TableShows() && Value() == WithCache(old(Value()), old(Value()).cache)
    {
      heap := map b | b in heap && b !in cache.state.freed :: heap[b];
    }

    /** `cache.unlock_item`. */
    method UnlockFile(path: string)
      requires Valid()
      modifies this`heap, cache, cache.repr
      ensures Valid() && Value() == WithCache(old(Value()), Unlock(old(Value()).cache, path)) && fresh(cache.repr - old(cache.repr))
    {
      hide TaskShows, L.LruFileCache.Valid, Unlock;
      cache.UnlockItem(path);
      CacheFrees();
    }

    /** `submit_writev`, `submit_read` and `submit_write`. */
    method Submit(id: nat, op: Op)
      requires TableShows() && id < |taskData| && id !in taskFreedIdxs && Fits(op, taskData[id])
      modifies this`submitted
      ensures TableShows() && Value() == old(Value()).(ops := old(Value()).ops[id := op])
    {
      submitted := submitted[id := op];
    }

    /** The operation of task `id` is completed, and has to be submitted again to go on. */
    method Completed(id: nat)
      requires TableShows()
      modifies this`submitted
      ensures TableShows() && Value() == Idle(old(Value()), id) && id !in submitted
    {
      submitted := submitted - {id};
    }

    /** What task `id` is to write from `vecs` is noted; `file` is the file if it is sent whole from the cache. */
    ghost method StartLog(id: nat, file: Option<string>, vecs: array<IoVec>)
      requires TableShows() && id < |taskData|
      modifies this`history
      ensures TableShows() && id < |old(Value()).log|
      ensures Value() == old(Value()).(log := old(Value()).log[id := Log(file, Gather(old(Value()).mem, Addrs(vecs[..])), [], Active)])
    {
      history := history[id := Log(file, Gather(heap, Addrs(vecs[..])), [], Active)];
    }

    /** The kernel has taken the first `k` bytes of the write of task `id`. */
    ghost method Transmit(id: nat, k: nat, status: Status)
      requires TableShows() && id in submitted && submitted[id].Writev? && k <= Size(submitted[id].iovs)
      modifies this`history
      ensures TableShows() && id < |old(Value()).log|
      ensures var s := old(Value()); var l := s.log[id];
              Value() == s.(log := s.log[id := l.(sent := l.sent + Gather(s.mem, Addrs(s.ops[id].iovs)[..k]), status := status)])
    {
      var l := history[id];
      history := history[id := l.(sent := l.sent + Gather(heap, Addrs(submitted[id].iovs)[..k]), status := status)];
    }

    /** The kernel has put `data` where the read of task `id` wanted it. */
    ghost method Arrive(id: nat, data: string)
      requires TableShows() && id in submitted && submitted[id].Read?
      modifies this`heap
      ensures TableShows() && id < |tasks| && Value() == Arrived(old(Value()), id, data)
    {
      assert TaskShows(id);
      var b, off := submitted[id].block, submitted[id].off;
      if b in heap && off + |data| <= |heap[b].bytes| {
        heap := heap[b := heap[b].(bytes := Overwrite(heap[b].bytes, off, data))];
      }
    }

    // ---------------------------------------------------------------- submitting a file

    /** The header of a response, and the two iovecs of header and body with a copy. */
    method PutFile(id: nat, header: string)
      requires TableShows() && id < |taskData| && id !in submitted
      modifies this`taskData, this`next, this`heap, this`tasks, this`owner
      ensures TableShows() && id < |old(tasks)| && id < |taskData| && VectorsOf(taskData[id])
      ensures (Value(), taskData[id].iovs[..]) == ServerSpec.PutFile(old(Value()), id, header)
      ensures old(owner.Keys) <= owner.Keys && fresh(owner.Keys - old(owner.Keys))
    {
      hide TaskShows, TableShows, TableShowsBut, Body, Value, TaskOf, BuffOf, NextBody;
      Known(id);
      var t := taskData[id];
      FlatRecord(t);
      BodyOfRecord(t);
      var body := NextBody(t);
      var h := Malloc(HeaderOf(id), header);
      var vecs, iovs := TwoVecs(IoVec(Addr(h, 0), |header|), body);
      var at := ArrayAddress();
      Known(id);
      t := t.(writeRangesIdx := t.writeRangesIdx + 1, buff := VecsPtr(at, vecs), iovs := iovs, numIovecs := 2);
      VectorRecord(t);
      PutVectors(id, t);
    }

    /** `http_send_file_writev_submit_helper`. */
    method SubmitFile(id: nat, client: nat, header: string)
      requires TableShows() && id < |taskData| && id !in taskFreedIdxs && id !in submitted
      modifies this`taskData, this`next, this`heap, this`submitted, this`history, this`tasks, this`owner
      ensures TableShows() && Table(old(Value())) && id < |old(tasks)|
      ensures Value() == ServerSpec.SubmitFile(old(Value()), id, client, header)
      ensures old(owner.Keys) <= owner.Keys && fresh(owner.Keys - old(owner.Keys))
    {
      hide TaskShows, TableShows, TableShowsBut, ServerSpec.PutFile, Gather, Addrs, Value, TaskOf;
      Known(id);
      var t := taskData[id];
      FlatRecord(t);
      BodyOfRecord(t);
      PutFile(id, header);
      StartLog(id, if t.additional == 0 && !InRanges(t) then Some(t.filepath) else None, taskData[id].iovs);
      Submit(id, Writev(client, taskData[id].iovs[..]));
    }

    /** `helper_range_unsatisfiable_error_send`. */
    method SendUnsatisfiable(client: nat, header: string)
      requires TableShows()
      modifies this`taskData, this`taskFreedIdxs, this`next, this`heap, this`submitted, this`history, this`tasks
      ensures TableShows() && Table(old(Value())) && Value() == ServerSpec.SendUnsatisfiable(old(Value()), client, header)
    {
      var b := Malloc(Reply, header);
      var id := GetTaskBuffOp(HttpWrite, b, |header|);
      Submit(id, Write(client, b));
    }

    // ---------------------------------------------------------------- sending a file

    /** The rest of `http_send_cached_file` when the cache had the file: `it` is the locked item, and
        `buff` and `buffLength` are its buffer. */
    method SendLocked(client: nat, path: string, rangeStr: string, header: string, buff: nat, buffLength: nat, ghost it: Item)
      requires Valid() && buff == it.buff && buffLength == it.buffLength
      requires (rangeStr == "" || rangeStr == "none" || |rangeStr| >= 6) && T.NUL !in rangeStr
      modifies this, cache, cache.repr
      ensures Valid() && Table(old(Value()))
      ensures Value() == ServerSpec.SendLocked(old(Value()), client, path, rangeStr, header, it)
      ensures old(owner.Keys) <= owner.Keys && fresh(owner.Keys - old(owner.Keys)) && fresh(cache.repr - old(cache.repr))
    {
      hide TaskShows, TableShows, L.LruFileCache.Valid, ParseRanges, ServerSpec.SubmitFile, ServerSpec.SendUnsatisfiable, WithCache,
           Unlock, TaskOf, Value;
      var id := GetTaskBuffOp(HttpSendFile, buff, buffLength);
      var t := taskData[id];
      PlainRecord(t);
      var ranges, valid := GetRanges(rangeStr, buffLength);
      PlainRecord(t.(filepath := path, writeRanges := ranges));
      SetTask(id, t.(filepath := path, writeRanges := ranges));
      if !valid {
        UnlockFile(path);
        SendUnsatisfiable(client, header);
      } else {
        SubmitFile(id, client, header);
      }
    }

    /** The part of `http_send_file` behind the opening of the file, whose size is known. */
    method SendUncached(client: nat, path: string, rangeStr: string, header: string, size: nat)
      requires TableShows()
      requires (rangeStr == "" || rangeStr == "none" || |rangeStr| >= 6) && T.NUL !in rangeStr
      modifies this`taskData, this`taskFreedIdxs, this`next, this`heap, this`submitted, this`history, this`tasks
      ensures TableShows() && Table(old(Value()))
      ensures Value() == ServerSpec.SendUncached(old(Value()), client, path, rangeStr, header, size)
    {
      hide TaskShows, ParseRanges, ServerSpec.SendUnsatisfiable;
      var id := GetTask();
      var ranges, valid := GetRanges(rangeStr, size);
      var t := BLANK_REC.(forClient := client, buffLength := size, filepath := path, opType := HttpSendFile, writeRanges := ranges);
      SetTask(id, t);
      if !valid {
        SendUnsatisfiable(client, header);
      } else {
        var b := Malloc(FileOf(id), seq(size, _ => T.NUL));
        SetTask(id, t.(buff := DataPtr(b)));
        Submit(id, Read(b, 0, size));
      }
    }

    /** `http_send_file`; `size` is absent if the file cannot be opened. */
    method SendFile(client: nat, path: string, rangeStr: string, header: string, size: Option<nat>)
      requires Valid() && (rangeStr == "" || rangeStr == "none" || |rangeStr| >= 6) && T.NUL !in rangeStr
      modifies this, cache, cache.repr
      ensures Valid() && Table(old(Value())) && Value() == ServerSpec.SendFile(old(Value()), client, path, rangeStr, header, size)
      ensures old(owner.Keys) <= owner.Keys && fresh(owner.Keys - old(owner.Keys)) && fresh(cache.repr - old(cache.repr))
    {
      hide TaskShows, L.LruFileCache.Valid, ServerSpec.SendLocked, ServerSpec.SendUncached, GetAndLock;
      var node := cache.GetAndLockItem(path);
      CacheFrees();
      if node != null {
        SendLocked(client, path, rangeStr, header, node.buff, node.buffLength, node.Data());
      } else if size.Some? {
        SendUncached(client, path, rangeStr, header, size.value);
      }
    }

    // ---------------------------------------------------------------- reading a file to send it

    /** `http_send_file_writev_submit`: the file is read, its buffer is remembered for the cache. */
    method SubmitRead(id: nat, header: string)
      requires TableShows() && id < |taskData| && id !in taskFreedIdxs && id !in submitted
      requires taskData[id].buff.DataPtr? && taskData[id].iovs == null
      modifies this`taskData, this`taskFreedIdxs, this`next, this`heap, this`submitted, this`history, this`tasks, this`owner
      ensures TableShows() && Table(old(Value())) && id < |old(tasks)|
      ensures Value() == ServerSpec.SubmitRead(old(Value()), id, header)
      ensures old(owner.Keys) <= owner.Keys && fresh(owner.Keys - old(owner.Keys))
    {
      var t := taskData[id];
      assert TaskShows(id);
      hide TaskShows;
      SetTask(id, t.(additional := BlockPtr(t.buff), forClient := SIZE_MAX));
      SubmitFile(id, t.forClient, header);
      var closeId := GetTask();
      SetTask(closeId, BLANK_REC.(opType := RawClose));
    }

    /** `http_send_file_read_failed`: the buffer is freed, and nothing more is submitted. */
    method ReadFailed(id: nat)
      requires TableShows() && id < |taskData| && id !in submitted
      modifies this`heap
      ensures TableShows() && id < |tasks| && Value() == ServerSpec.ReadFailed(old(Value()), id)
    {
      assert TaskShows(id);
      Free(BlockPtr(taskData[id].buff));
      assert Remove(submitted, id) == submitted;
    }

    /** `read_callback` for a file that is being read to be sent. */
    method FileRead(id: nat, r: ReadResult, header: string)
      requires Valid() && MayHappen(Value(), ReadDone(id, r, header))
      modifies this
      ensures Valid() && Value() == ServerSpec.FileRead(old(Value()), id, r, header)
      ensures old(owner.Keys) <= owner.Keys && fresh(owner.Keys - old(owner.Keys))
    {
      hide TaskShows, TableShows, L.LruFileCache.Valid, Arrived, ServerSpec.SubmitRead, Value, TaskOf;
      InFlight(id);
      RemovePut(submitted, id, submitted[id]);
      match r
      case ReadInterrupted(resubmitted) =>
        var op := submitted[id];
        Completed(id);
        if resubmitted {
          Submit(id, op);
        } else {
          ReadFailed(id);
        }
      case ReadError =>
        Completed(id);
        ReadFailed(id);
      case Got(data) => ReadSome(id, data, header);
    }

    method ReadSome(id: nat, data: string, header: string)
      requires Valid() && MayHappen(Value(), ReadDone(id, Got(data), header))
      modifies this
      ensures Valid() && Value() == ServerSpec.FileRead(old(Value()), id, Got(data), header)
      ensures old(owner.Keys) <= owner.Keys && fresh(owner.Keys - old(owner.Keys))
    {
      hide TaskShows, TableShows, L.LruFileCache.Valid, ServerSpec.SubmitRead, Overwrite, Value, TaskOf, Arrived;
      InFlight(id);
      var t := taskData[id];
      FlatRecord(t);
      ReadForgets(Value(), id, data, header);
      ArrivedIdle(Value(), id, data);
      Arrive(id, data);
      Completed(id);
      var totalProgress := t.progress + |data|;
      if data != "" && totalProgress < t.buffLength {
        ReadRest(id, totalProgress);
      } else if data == "" && t.progress != t.buffLength {
        ReadFailed(id);
      } else {
        SubmitRead(id, header);
      }
    }

    /** The read of what is missing of the file. */
    method ReadRest(id: nat, total: nat)
      requires TableShows() && id < |taskData| && id !in taskFreedIdxs && id !in submitted && total <= taskData[id].buffLength
      requires taskData[id].buff.DataPtr? && taskData[id].iovs == null
      modifies this`taskData, this`tasks, this`submitted
      ensures TableShows() && id < |old(tasks)|
      ensures var s := old(Value()); var t := s.tasks[id];
              total <= t.buffLength
              && Value() == ServerSpec.SetTask(s, id, t.(progress := total))
                            .(ops := s.ops[id := Read(BlockOf(t.buff), total, t.buffLength - total)])
    {
      assert TaskShows(id);
      hide TaskShows;
      var t := taskData[id].(progress := total);
      SetTask(id, t);
      Submit(id, Read(BlockPtr(t.buff), total, t.buffLength - total));
    }

    // ---------------------------------------------------------------- vectored writes

    /** The start of `http_send_file_writev_finish`: the header, whose address is in the original array, and
        both arrays are freed. */
    method TearDown(id: nat)
      requires TableShows() && id < |taskData| && id !in submitted
      requires taskData[id].buff.VecsPtr? && taskData[id].buff.vecs.Length == 2
      modifies this`taskData, this`tasks, this`heap
      ensures TableShows() && id < |old(tasks)| && Value() == ServerSpec.TearDown(old(Value()), id)
    {
      assert TaskShows(id);
      hide TaskShows;
      assert Remove(submitted, id) == submitted;
      Free(taskData[id].buff.vecs[0].base.block);
      SetTask(id, taskData[id].(buff := NullPtr, iovs := null));
    }

    /** `http_send_file_writev_finish`; `wd` is what `inotify_add_watch` would return. */
    method FinishSend(id: nat, wd: int)
      requires Valid() && id < |taskData| && id !in submitted
      requires taskData[id].buff.VecsPtr? && taskData[id].buff.vecs.Length == 2
      modifies this`taskData, this`tasks, this`heap, cache, cache.repr
      ensures Valid() && id < |old(tasks)| && Value() == ServerSpec.FinishSend(old(Value()), id, wd)
      ensures fresh(cache.repr - old(cache.repr))
    {
      hide TaskShows, TableShows, L.LruFileCache.Valid, ServerSpec.TearDown, WithCache, Unlock, Deposit, Value, TaskOf;
      Known(id);
      var t := taskData[id];
      FlatRecord(t);
      TearDown(id);
      UnlockFile(t.filepath);
      if t.additional != 0 {
        DepositBuffer(t.filepath, t.additional, t.buffLength, wd);
      }
    }

    /** `cache.add_or_update_item`. */
    method OfferBuffer(path: string, block: nat, len: nat, wd: int) returns (ok: bool)
      requires Valid()
      modifies cache, cache.repr
      ensures Valid() && fresh(cache.repr - old(cache.repr))
      ensures (Value(), ok) == var (c, yes) := AddOrUpdate(old(Value()).cache, path, block, len, wd); (old(Value()).(cache := c), yes)
      ensures !ok ==> Value() == old(Value())
    {
      assert var r := AddOrUpdate(cache.state, path, block, len, wd); r.1 || r.0 == cache.state;
      hide TaskShows, L.LruFileCache.Valid, AddOrUpdate;
      ok := cache.AddOrUpdateItem(path, block, len, wd);
    }

    /** The cache has to free the block from now on. */
    ghost method Adopt(path: string, block: nat)
      requires TableShows()
      modifies this`heap
      ensures TableShows()
      ensures var s := old(Value());
              Value() == if block in s.mem then s.(mem := s.mem[block := s.mem[block].(owner := Cached(path))]) else s
    {
      if block in heap {
        heap := heap[block := heap[block].(owner := Cached(path))];
      }
    }

    /** The buffer of a file that was read goes to the cache, or is freed if the cache refuses it. */
    method DepositBuffer(path: string, block: nat, len: nat, wd: int)
      requires Valid()
      modifies this`heap, cache, cache.repr
      ensures Valid() && Value() == Deposit(old(Value()), path, block, len, wd) && fresh(cache.repr - old(cache.repr))
    {
      hide TaskShows, TableShows, L.LruFileCache.Valid, AddOrUpdate, WithCache, Value;
      WithCacheTwice(Value(), AddOrUpdate(Value().cache, path, block, len, wd).0);
      var ok := OfferBuffer(path, block, len, wd);
      if ok {
        CacheFrees();
        Adopt(path, block);
      } else {
        Free(block);
      }
    }

    /** The original array of task `id` is refilled in place, and copied. */
    method Refill(id: nat, first: IoVec, second: IoVec) returns (iovs: array<IoVec>)
      requires TableShows() && id < |taskData| && taskData[id].buff.VecsPtr? && taskData[id].buff.vecs.Length == 2
      modifies taskData[id].buff.vecs
      ensures TableShowsBut(id) && fresh(iovs) && taskData[id].buff.vecs[..] == iovs[..] == [first, second]
    {
      assert TaskShows(id);
      hide TaskOf;
      var vecs := taskData[id].buff.vecs;
      vecs[0], vecs[1] := first, second;
      iovs := new IoVec[2];
      CopyVecs(vecs, iovs);
      forall j | 0 <= j < |taskData| && j != id
        ensures TaskShows(j)
      {
        assert old(TaskShows(j));
      }
    }

    /** The header of the last range is freed, one for the next is allocated. */
    method NextHeader(id: nat, ghost header: string) returns (h: nat)
      requires TableShows() && id < |taskData| && taskData[id].buff.VecsPtr? && taskData[id].buff.vecs.Length == 2
      modifies this`next, this`heap
      ensures TableShows() && id < |tasks|
      ensures (Value(), h) == ServerSpec.Malloc(ServerSpec.Free(old(Value()), HeaderBlock(old(Value()).tasks[id])), HeaderOf(id), header)
    {
      assert TaskShows(id);
      Free(taskData[id].buff.vecs[0].base.block);
      h := Malloc(HeaderOf(id), header);
    }

    /** A new header, and the iovecs of the next range: the base of its body is computed from the array the
        task points to. */
    method PutRange(id: nat, header: string)
      requires TableShows() && id < |taskData| && id !in submitted
      requires taskData[id].buff.VecsPtr? && taskData[id].buff.vecs.Length == 2
      modifies this`taskData, this`next, this`heap, this`tasks, this`owner, taskData[id].buff.vecs
      ensures TableShows() && id < |old(tasks)| && id < |taskData| && VectorsOf(taskData[id])
      ensures (Value(), taskData[id].iovs[..]) == ServerSpec.PutRange(old(Value()), id, header)
      ensures old(owner.Keys) <= owner.Keys && fresh(owner.Keys - old(owner.Keys))
    {
      hide TaskShows, TableShows, TableShowsBut, Body, Value, TaskOf, BuffOf, NextBody;
      Known(id);
      var t := taskData[id];
      FlatRecord(t);
      BodyOfRecord(t);
      var body := NextBody(t);
      var h := NextHeader(id, header);
      var iovs := Refill(id, IoVec(Addr(h, 0), |header|), body);
      t := t.(writeRangesIdx := t.writeRangesIdx + 1, iovs := iovs);
      VectorRecord(t);
      PutVectors(id, t);
    }

    /** The next range is submitted. */
    method SubmitNextRange(id: nat, client: nat, header: string)
      requires TableShows() && id < |taskData| && id !in taskFreedIdxs && id !in submitted
      requires taskData[id].buff.VecsPtr? && taskData[id].buff.vecs.Length == 2
      modifies this`taskData, this`next, this`heap, this`tasks, this`owner, this`submitted, taskData[id].buff.vecs
      ensures TableShows() && id < |old(tasks)| && Value() == NextRange(old(Value()), id, client, header)
      ensures old(owner.Keys) <= owner.Keys && fresh(owner.Keys - old(owner.Keys))
    {
      hide TaskShows, TableShows, TableShowsBut, Value, TaskOf, ServerSpec.PutRange;
      PutRange(id, header);
      Submit(id, Writev(client, taskData[id].iovs[..]));
    }

    /** `http_send_file_writev_continue`. */
    method ContinueSend(id: nat, client: nat, header: string, wd: int)
      requires Valid() && id < |taskData| && id !in taskFreedIdxs && id !in submitted
      requires taskData[id].buff.VecsPtr? && taskData[id].buff.vecs.Length == 2
      modifies this, taskData[id].buff.vecs, cache, cache.repr
      ensures Valid() && id < |old(tasks)|
      ensures var s := old(Value());
              Value() == if ServerSpec.UsingRanges(s.tasks[id]) then NextRange(s, id, client, header) else ServerSpec.FinishSend(s, id, wd)
      ensures old(owner.Keys) <= owner.Keys && fresh(owner.Keys - old(owner.Keys)) && fresh(cache.repr - old(cache.repr))
    {
      assert TaskShows(id);
      hide TaskShows, L.LruFileCache.Valid, ServerSpec.FinishSend, NextRange;
      if InRanges(taskData[id]) {
        SubmitNextRange(id, client, header);
      } else {
        FinishSend(id, wd);
      }
    }

    /** `writev_callback`. */
    method WritevCallback(id: nat, c: Completion, header: string, wd: int)
      requires Valid() && MayHappen(Value(), Written(id, c, header, wd)) && id < |taskData|
      requires taskData[id].opType.HttpSendFile? ==> |Orig(Value().tasks[id])| == 2
      modifies this, owner.Keys, cache, cache.repr
      ensures Valid() && Value() == WritevDone(old(Value()), id, c, header, wd)
      ensures old(owner.Keys) <= owner.Keys && fresh(owner.Keys - old(owner.Keys)) && fresh(cache.repr - old(cache.repr))
    {
      hide TaskShows, TaskOf, L.LruFileCache.Valid, ServerSpec.ContinueSend, ServerSpec.FinishSend, Rebuilt, Gather, Addrs, Value,
           TableShows;
      VectorFacts(id);
      match c
      case Interrupted =>
        var op := submitted[id];
        RemovePut(submitted, id, op);
        Completed(id);
        Submit(id, op);
      case Error => WriteFailed(id, header, wd);
      case Moved(k) =>
        var t := taskData[id];
        var fullWriteSize := FullSize(t.buff.vecs);
        if t.progress + k < fullWriteSize {
          WriteRest(id, k, header, wd);
        } else if t.opType.HttpSendFile? {
          FileDone(id, k, header, wd);
        } else {
          VecsDone(id, k, header, wd);
        }
    }

    method WriteFailed(id: nat, header: string, wd: int)
      requires Valid() && MayHappen(Value(), Written(id, Error, header, wd)) && id < |taskData|
      requires taskData[id].opType.HttpSendFile? ==> |Orig(Value().tasks[id])| == 2
      modifies this`taskData, this`tasks, this`heap, this`submitted, this`history, cache, cache.repr
      ensures Valid() && Value() == WritevDone(old(Value()), id, Error, header, wd)
      ensures fresh(cache.repr - old(cache.repr))
    {
      hide TaskShows, TableShows, L.LruFileCache.Valid, ServerSpec.FinishSend, Value, TaskOf;
      VectorFacts(id);
      LogFailed(id);
      FinishForgets(Value(), id, wd);
      Completed(id);
      if taskData[id].opType.HttpSendFile? {
        FinishSend(id, wd);
      }
    }

    ghost method LogFailed(id: nat)
      requires TableShows() && id < |taskData|
      modifies this`history
      ensures TableShows() && id < |old(Value()).log|
      ensures var s := old(Value()); Value() == s.(log := s.log[id := s.log[id].(status := Failed)])
    {
      history := history[id := history[id].(status := Failed)];
    }

    /** What is known of a task with a vectored write in flight. */
    lemma VectorFacts(id: nat)
      requires TableShows() && id in Value().ops && Value().ops[id].Writev?
      ensures id in submitted && id < |taskData| == |tasks| == |history| && Table(Value()) && id !in taskFreedIdxs
      ensures VectorsOf(taskData[id]) && taskData[id].buff.vecs in owner && taskData[id].iovs in owner
      ensures taskData[id].opType == tasks[id].opType && taskData[id].progress == tasks[id].progress
      ensures Orig(tasks[id]) == taskData[id].buff.vecs[..] && Fits(submitted[id], taskData[id])
      ensures Value().tasks == tasks && Value().log == history && Value().ops == submitted
      ensures TaskOf(taskData[id]) == tasks[id]
    {
      assert TaskShows(id);
    }

    /** The end of a write of a file or of one of its ranges. */
    method FileDone(id: nat, k: nat, header: string, wd: int)
      requires Valid() && MayHappen(Value(), Written(id, Moved(k), header, wd)) && id < |taskData|
      requires tasks[id].opType.HttpSendFile? && |Orig(tasks[id])| == 2
      requires tasks[id].progress + k >= Size(Orig(tasks[id]))
      modifies this, owner.Keys, cache, cache.repr
      ensures Valid() && Value() == WritevDone(old(Value()), id, Moved(k), header, wd)
      ensures old(owner.Keys) <= owner.Keys && fresh(owner.Keys - old(owner.Keys)) && fresh(cache.repr - old(cache.repr))
    {
      hide TaskShows, TaskOf, TableShows, L.LruFileCache.Valid, ServerSpec.FinishSend, NextRange, Gather, Addrs, Size, Value;
      VectorFacts(id);
      var client := submitted[id].client;
      Transmit(id, k, Done);
      NextForgets(Value(), id, client, header);
      FinishForgets(Value(), id, wd);
      Completed(id);
      ContinueSend(id, client, header, wd);
    }

    /** The end of a write of the application's own iovecs: their copy is freed, the original stays. */
    method VecsDone(id: nat, k: nat, header: string, wd: int)
      requires Valid() && MayHappen(Value(), Written(id, Moved(k), header, wd)) && id < |taskData|
      requires !tasks[id].opType.HttpSendFile? && tasks[id].progress + k >= Size(Orig(tasks[id]))
      modifies this`taskData, this`tasks, this`submitted, this`history
      ensures Valid() && Value() == WritevDone(old(Value()), id, Moved(k), header, wd)
    {
      hide TaskShows, TaskOf, TableShows, L.LruFileCache.Valid, Gather, Addrs, Size, Value;
      VectorFacts(id);
      Transmit(id, k, Done);
      Completed(id);
      DropCopy(id);
    }

    /** The copy of the iovecs is freed. */
    method DropCopy(id: nat)
      requires TableShows() && id < |taskData| && id !in submitted
      modifies this`taskData, this`tasks
      ensures TableShows() && id < |old(tasks)|
      ensures Value() == ServerSpec.SetTask(old(Value()), id, old(tasks)[id].(iovs := []))
    {
      assert TaskShows(id);
      taskData := taskData[id := taskData[id].(iovs := null)];
      tasks := tasks[id := TaskOf(taskData[id])];
    }

    /** The rest of a vectored write: the copy is rebuilt from the original, and submitted. */
    method WriteRest(id: nat, k: nat, header: string, wd: int)
      requires Valid() && MayHappen(Value(), Written(id, Moved(k), header, wd))
      requires tasks[id].progress + k < Size(Orig(tasks[id]))
      modifies this, owner.Keys
      ensures Valid() && Value() == WritevDone(old(Value()), id, Moved(k), header, wd)
      ensures old(owner.Keys) <= owner.Keys && fresh(owner.Keys - old(owner.Keys))
    {
      hide TaskShows, TableShows, L.LruFileCache.Valid, ServerSpec.ContinueSend, Gather, Addrs, Size, Rebuilt, Value, TaskOf;
      VectorFacts(id);
      var client := submitted[id].client;
      Transmit(id, k, history[id].status);
      Completed(id);
      PutRest(id, taskData[id].progress + k);
      RemovePut(old(submitted), id, Writev(client, taskData[id].iovs[..]));
      Submit(id, Writev(client, taskData[id].iovs[..]));
    }

    /** The record of a task when `total` bytes of its original iovecs are written. */
    method PutRest(id: nat, total: nat)
      requires TableShows() && id < |taskData| && id !in submitted && VectorsOf(taskData[id])
      modifies this`taskData, this`tasks, this`owner, owner.Keys
      ensures TableShows() && id < |old(tasks)| && id < |taskData| && VectorsOf(taskData[id])
      ensures var s := old(Value()); var t, iovs := s.tasks[id], Rebuilt(Orig(s.tasks[id]), total);
              taskData[id].iovs[..] == iovs && Value() == ServerSpec.SetTask(s, id, t.(iovs := iovs, progress := total))
      ensures owner.Keys == old(owner.Keys)
    {
      hide TaskShows, TableShows, TableShowsBut, Rebuilt, Value, TaskOf;
      Known(id);
      var t := taskData[id];
      VectorRecord(t);
      Rebuild(id, total);
      t := t.(progress := total);
      VectorRecord(t);
      PutVectors(id, t);
    }

    method Rebuild(id: nat, totalProgress: nat)
      requires TableShows() && id < |taskData| && VectorsOf(taskData[id])
      modifies owner.Keys
      ensures TableShowsBut(id) && VectorsOf(taskData[id]) && taskData[id].iovs[..] == Rebuilt(taskData[id].buff.vecs[..], totalProgress)
      ensures taskData[id].buff.vecs[..] == old(taskData[id].buff.vecs[..])
    {
      assert TaskShows(id);
      VectorOpsProgress(taskData[id].buff.vecs, taskData[id].iovs, totalProgress);
    }

    // ---------------------------------------------------------------- events

    /** `http_writev` of an array of the application's own. */
    method HttpWritev(client: nat, iovecs: array<IoVec>)
      requires TableShows() && iovecs !in owner
      modifies this
      ensures TableShows() && Table(old(Value())) && Value() == AppWritev(old(Value()), client, iovecs[..])
      ensures old(owner.Keys) <= owner.Keys && iovecs in owner && fresh(owner.Keys - old(owner.Keys) - {iovecs})
    {
      hide TaskShows;
      var at := ArrayAddress();
      var id := GetTaskVectorOp(OpType.HttpWritev, at, iovecs);
      Submit(id, Writev(client, taskData[id].iovs[..]));
    }

    /** The cache's part of `read_callback`: an inotify event with a non-zero mask. */
    method Inotify(wd: int)
      requires Valid()
      modifies this`heap, cache, cache.repr
      ensures Valid() && Value() == WithCache(old(Value()), ProcessEvent(old(Value()).cache, wd)) && fresh(cache.repr - old(cache.repr))
    {
      hide TaskShows, L.LruFileCache.Valid, ProcessEvent;
      cache.ProcessInotifyEvent(1, wd);
      CacheFrees();
    }

    /** One event: the server does what `Step` says, and stays in order. */
    method Handle(e: Event)
      requires Valid() && I.Base(Value()) && MayHappen(Value(), e) && (e.Send? ==> T.NUL !in e.rangeStr)
      modifies this, owner.Keys, cache, cache.repr
      ensures Valid() && I.Base(Value()) && Value() == Step(old(Value()), e)
      ensures old(owner.Keys) <= owner.Keys && fresh(owner.Keys - old(owner.Keys)) && fresh(cache.repr - old(cache.repr))
    {
      hide TaskShows, TableShowsBut, L.LruFileCache.Valid, I.Base, ServerSpec.SendFile, AppWritev, ServerSpec.FileRead, WritevDone,
           WithCache, ProcessEvent;
      P.BaseStep(Value(), e);
      match e
      case Send(client, path, rangeStr, header, size) => SendFile(client, path, rangeStr, header, size);
      case SendVecs(client, vecs) =>
        var iovecs := new IoVec[|vecs|](i requires 0 <= i < |vecs| => vecs[i]);
        assert iovecs[..] == vecs;
        HttpWritev(client, iovecs);
      case ReadDone(id, r, header) => FileRead(id, r, header);
      case Written(id, c, header, wd) =>
        TwoIovecs(Value(), id);
        VectorFacts(id);
        WritevCallback(id, c, header, wd);
      case Inotify(wd) => Inotify(wd);
    }
  }

  /** A file is sent from two iovecs. */
  lemma TwoIovecs(s: State, id: nat)
    requires I.Base(s) && id in s.ops && s.ops[id].Writev?
    ensures id < |s.tasks| && (s.tasks[id].opType.HttpSendFile? ==> |Orig(s.tasks[id])| == 2)
  {
    assert I.OpOk(s, id);
  }
}
