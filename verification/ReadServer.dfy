/** The reading side of `network_server`: tasks with heap buffers, and reads submitted into them. */
module ReadServer {
  import opened Options
  import opened CText
  import opened Ranges
  import opened RequestSpec
  import opened ReadSpec
  import H = HttpRequest

  /** The fields of `struct task` that reads use; a null buffer has been freed. */
  datatype ReadTask = ReadTask(op: ReadOp, buff: array?<char>, buffLength: nat, progress: nat)

  /** A read passed to the event manager: where in the buffer, and how many bytes at most. */
  datatype Submission = Submission(off: nat, len: nat)

  /** What the code takes for granted of a POST request: the pointer to the announced length can be followed,
      and if bytes are missing the length of the whole request is a `size_t`. */
  predicate LengthUsable(data: string) {
    var r := Parse(data);
    r.reqType == "POST" && "Content-Length" in r.headers ==>
      && r.headers["Content-Length"].Text?
      && var n := ContentLength(r).value;
         r.content.Some? && |data| < r.content.value + n ==> r.content.value + n <= SIZE_MAX
  }

  lemma ToSizeSmall(n: nat)
    requires n <= SIZE_MAX
    ensures ToSize(n) == n
  {
  }

  /** The buffer of a read that has arrived at `got`. */
  ghost predicate Holds(t: ReadTask, v: Task)
    reads if t.buff == null then {} else {t.buff}
  {
    && t.buff != null && t.op == v.op && t.buff.Length == t.buffLength == v.size
    && t.progress == |v.got| <= v.size && t.buff[..t.progress] == v.got
  }

  lemma HoldsNew(op: ReadOp, buff: array<char>, progress: nat)
    requires progress <= buff.Length
    ensures Holds(ReadTask(op, buff, buff.Length, progress), Task(op, buff.Length, buff[..progress]))
  {
  }

  lemma SubmitAdds(c: Conn, t: Task)
    ensures var d := Submit(c, t); d.tasks == c.tasks + [t] && d.inFlight == c.inFlight + {|c.tasks|} && d.closed == c.closed
  {
  }

  class ReadServer {
    var taskData: seq<ReadTask>
    var submitted: map<nat, Submission>
    var closed: bool
    ghost var conn: Conn
    /** The task each buffer belongs to. */
    ghost var holder: map<array<char>, nat>

    /** Task `id` is what the value says, and its read is submitted for the missing part of its buffer. */
    ghost predicate TaskShows(id: nat)
      requires id in submitted && id < |taskData| && id < |conn.tasks|
      reads this, holder.Keys
    {
      var t, v := taskData[id], conn.tasks[id];
      && t.buff != null && t.buff in holder && holder[t.buff] == id && Holds(t, v)
      && t.progress <= t.buffLength && submitted[id] == Submission(t.progress, t.buffLength - t.progress)
    }

    /** All reads in flight are shown, but for that of task `x`. */
    ghost predicate ValidBut(x: int)
      reads this, holder.Keys
    {
      && |taskData| == |conn.tasks| && submitted.Keys == conn.inFlight && closed == conn.closed
      && forall id :: id in submitted ==> id < |taskData| && (id != x ==> TaskShows(id))
    }

    ghost predicate Valid()
      reads this, holder.Keys
    {
      ValidBut(-1)
    }

    /** The tasks and submissions there were are still the same. */
    ghost predicate Grown(was: seq<ReadTask>, subs: map<nat, Submission>)
      reads this
    {
      && was <= taskData && forall id :: id in subs ==> id in submitted && submitted[id] == subs[id]
    }

    /** What is known of a task whose read is in flight. */
    lemma Known(id: nat)
      requires Valid() && id in submitted
      ensures id < |taskData| == |conn.tasks| && id in conn.inFlight && closed == conn.closed
      ensures taskData[id].buff != null && taskData[id].buff in holder && taskData[id].op == conn.tasks[id].op
      ensures taskData[id].buff.Length == taskData[id].buffLength == conn.tasks[id].size
      ensures taskData[id].progress == |conn.tasks[id].got| <= taskData[id].buffLength
    {
      assert TaskShows(id);
    }

    lemma InFlight(id: nat)
      requires Valid() && id in conn.inFlight
      ensures id in submitted
    {
    }

    lemma StillIn(was: seq<ReadTask>, subs: map<nat, Submission>, id: nat)
      requires Grown(was, subs) && id in subs && id < |was|
      ensures id in submitted && id < |taskData| && taskData[id] == was[id]
    {
    }

    constructor ()
      ensures Valid() && fresh(holder.Keys) && conn == Conn([], {}, [], [], false)
    {
      taskData, submitted, closed, holder := [], map[], false, map[];
      conn := Conn([], {}, [], [], false);
    }

    /** `get_task_buff_op` on a new buffer of which `progress` bytes are there, and the submission. */
    method SubmitRead(op: ReadOp, buff: array<char>, progress: nat)
      requires Valid() && buff !in holder.Keys && progress <= buff.Length
      modifies this
      ensures Valid() && holder.Keys == old(holder.Keys) + {buff} && Grown(old(taskData), old(submitted))
      ensures conn == Submit(old(conn), Task(op, buff.Length, buff[..progress]))
    {
      hide Holds, Submit;
      var id := |taskData|;
      HoldsNew(op, buff, progress);
      SubmitAdds(conn, Task(op, buff.Length, buff[..progress]));
      taskData := taskData + [ReadTask(op, buff, buff.Length, progress)];
      submitted := submitted[id := Submission(progress, buff.Length - progress)];
      conn := Submit(conn, Task(op, buff.Length, buff[..progress]));
      holder := holder[buff := id];
    }

    /** The kernel's part of a completion: the bytes are in the buffer the read was submitted for. */
    method Arrive(id: nat, data: string)
      requires Valid() && MayHappen(conn, id, Got(data))
      modifies holder.Keys
      ensures Valid()
      ensures var t, v := taskData[id], conn.tasks[id];
              t.buff[..t.progress + |data|] == v.got + data
    {
      var t, off := taskData[id], submitted[id].off;
      forall i | 0 <= i < |data| {
        t.buff[off + i] := data[i];
      }
    }

    /** A new network read of the usual size. */
    method SubmitNormal()
      requires Valid()
      modifies this
      ensures Valid() && fresh(holder.Keys - old(holder.Keys)) && old(holder.Keys) <= holder.Keys && Grown(old(taskData), old(submitted))
      ensures conn == Submit(old(conn), Task(NetworkRead, READ_SIZE, ""))
    {
      var normalBuff := new char[READ_SIZE];
      SubmitRead(NetworkRead, normalBuff, 0);
    }

    /** A read of the rest of a request into a buffer that begins with what is there of it. */
    method SubmitCopy(data: array<char>, size: nat, total: nat)
      requires Valid() && size <= data.Length && size <= total
      modifies this
      ensures Valid() && fresh(holder.Keys - old(holder.Keys)) && old(holder.Keys) <= holder.Keys && Grown(old(taskData), old(submitted))
      ensures conn == Submit(old(conn), Task(PostRead, total, data[..size]))
    {
      var largeBuff := new char[total];
      forall i | 0 <= i < size {
        largeBuff[i] := data[i];
      }
      assert largeBuff[..size] == data[..size];
      SubmitRead(PostRead, largeBuff, size);
    }

    /** The length accounting of `http_response_method`; no verdict means that the request goes on. */
    method PostLength(req: H.HttpRequest, data: array<char>, size: nat) returns (verdict: Option<Verdict>)
      requires Valid() && size <= data.Length && LengthUsable(data[..size])
      requires req.Built(data[..size]) && req.reqType == "POST"
      modifies this
      ensures Valid() && fresh(holder.Keys - old(holder.Keys)) && old(holder.Keys) <= holder.Keys && Grown(old(taskData), old(submitted))
      ensures (conn, verdict) == PostPart(old(conn), data[..size])
    {
      hide Parse, Atoi, H.FieldsPoint, TaskShows, ToSize, Valid;
      var n := req.AnnouncedLength(size);
      if n.None? {
        return Some(Refused);
      }
      var contentLen := n.value;
      if req.content.None? {
        return if contentLen != 0 then Some(Refused) else None;
      }
      var headerLen := req.content.value;
      var actualContentLen := size - headerLen;
      if actualContentLen == contentLen {
        if size != READ_SIZE {
          SubmitNormal();
        }
        return None;
      }
      if actualContentLen < contentLen {
        ToSizeSmall(headerLen + contentLen);
        SubmitCopy(data, size, headerLen + contentLen);
        return Some(Growing);
      }
      return None;
    }

    /** The call of `http_read_callback`. */
    ghost method Deliver(d: Delivery)
      requires Valid()
      modifies this`conn
      ensures Valid() && conn == old(conn).(delivered := old(conn).delivered + [d])
    {
      conn := conn.(delivered := conn.delivered + [d]);
    }

    /** `http_response_method` on the first `size` bytes of `data`; `req` is what the application gets. */
    method HttpResponseMethod(data: array<char>, size: nat) returns (verdict: Verdict, req: H.HttpRequest)
      requires Valid() && size <= data.Length && LengthUsable(data[..size])
      modifies this
      ensures Valid() && fresh(holder.Keys - old(holder.Keys)) && old(holder.Keys) <= holder.Keys && Grown(old(taskData), old(submitted))
      ensures (conn, verdict) == Respond(old(conn), data[..size])
      ensures fresh(req) && fresh(req.buff) && req.Built(data[..size])
    {
      hide Parse, LengthUsable, PostPart, H.FieldsPoint, H.Points, TaskShows, ContentLength;
      req := new H.HttpRequest(data, size);
      ghost var bytes := data[..size];
      if req.reqType == "POST" {
        var v := PostLength(req, data, size);
        if v.Some? {
          return v.value, req;
        }
      }
      if req.validReq {
        Deliver(Delivery(bytes, false));
        return Delivered, req;
      }
      return Refused, req;
    }

    /** The same buffer is cleared and read into again, by a network read. */
    method ReadAgain(id: nat)
      requires Valid() && id in submitted
      modifies this, holder.Keys
      ensures Valid() && holder.Keys == old(holder.Keys)
      ensures conn == Resubmit(old(conn), id, Task(NetworkRead, old(conn).tasks[id].size, ""))
    {
      assert TaskShows(id);
      hide TaskShows;
      Clear(id);
      Replace(id, NetworkRead, 0, "");
    }

    method Clear(id: nat)
      requires Valid() && id in submitted
      modifies taskData[id].buff
      ensures ValidBut(id) && taskData[id].buff[..] == seq(taskData[id].buff.Length, _ => NUL)
    {
      assert TaskShows(id);
      var buff := taskData[id].buff;
      for k := 0 to buff.Length
        modifies buff
        invariant forall j :: 0 <= j < k ==> buff[j] == NUL
      {
        buff[k] := NUL;
      }
      forall j | j in submitted && j != id
        ensures TaskShows(j)
      {
        assert old(TaskShows(j));
      }
    }

    /** The read of task `id` goes on behind the first `progress` bytes of its buffer, which are `got`. */
    method Replace(id: nat, op: ReadOp, progress: nat, ghost got: string)
      requires ValidBut(id) && id in submitted
      requires var t := taskData[id];
               && t.buff != null && t.buff in holder && holder[t.buff] == id && t.buff.Length == t.buffLength == conn.tasks[id].size
               && progress <= t.buffLength && t.buff[..progress] == got
      modifies this`taskData, this`submitted, this`conn
      ensures Valid() && holder.Keys == old(holder.Keys)
      ensures id < |old(conn).tasks| && conn == Resubmit(old(conn), id, Task(op, old(conn).tasks[id].size, got))
    {
      var task := taskData[id];
      taskData := taskData[id := ReadTask(op, task.buff, task.buffLength, progress)];
      submitted := submitted[id := Submission(progress, task.buffLength - progress)];
      conn := Resubmit(conn, id, Task(op, conn.tasks[id].size, got));
      assert Holds(taskData[id], conn.tasks[id]);
      hide Holds;
    }

    /** No read of task `id` is in flight any more; its buffer is freed if it is the server's. */
    method Forget(id: nat)
      requires Valid() && id in submitted
      modifies this
      ensures Valid() && holder.Keys == old(holder.Keys) && conn == Release(old(conn), id)
    {
      hide Holds;
      if !taskData[id].op.RawRead? {
        taskData := taskData[id := taskData[id].(buff := null)];
      }
      submitted := map i | i in submitted && i != id :: submitted[i];
      conn := Release(conn, id);
    }

    method Close()
      requires Valid()
      modifies this`closed, this`conn
      ensures Valid() && conn == old(conn).(closed := true)
    {
      closed := true;
      conn := conn.(closed := true);
    }

    /** `network_read_procedure` and the end of `read_callback`, for the first `size` bytes of the buffer. */
    method Handle(id: nat, size: nat)
      requires Valid() && id in submitted && size <= taskData[id].buffLength && LengthUsable(taskData[id].buff[..size])
      modifies this, holder.Keys
      ensures Valid() && fresh(holder.Keys - old(holder.Keys))
      ensures conn == ReadSpec.Handle(old(conn), id, old(taskData[id].buff[..size]))
    {
      hide Parse, LengthUsable, Respond, H.HttpRequest.Built, Valid, TaskShows, Grown;
      Known(id);
      var verdict, req := HttpResponseMethod(taskData[id].buff, size);
      StillIn(old(taskData), old(submitted), id);
      if verdict.Refused? {
        Close();
      }
      if verdict.Delivered? {
        ReadAgain(id);
      } else {
        Forget(id);
      }
    }

    /** `read_callback` for a read of task `id` that completes with `r`. */
    method ReadCallback(id: nat, r: Result)
      requires Valid() && MayHappen(conn, id, r)
      requires r.Got? ==> LengthUsable(conn.tasks[id].got + r.data)
      modifies this, holder.Keys
      ensures Valid() && fresh(holder.Keys - old(holder.Keys))
      ensures conn == ReadDone(old(conn), id, r)
    {
      match r
      case Interrupted =>
      case Failed => ReadFailed(id);
      case Got(data) =>
        if data == "" {
          Close();
          Forget(id);
        } else {
          ReadSome(id, data);
        }
    }

    method ReadFailed(id: nat)
      requires Valid() && id in submitted
      modifies this
      ensures Valid() && holder.Keys == old(holder.Keys) && conn == ReadDone(old(conn), id, Failed)
    {
      hide Valid, TaskShows, Holds;
      Known(id);
      match taskData[id].op {
        case NetworkRead =>
          var req := new H.HttpRequest(null, 0);
          Deliver(Delivery("", true));
        case RawRead =>
          RawDone(conn.tasks[id].got);
        case PostRead =>
      }
      Close();
      Forget(id);
    }

    method ReadSome(id: nat, data: string)
      requires Valid() && MayHappen(conn, id, Got(data)) && data != "" && LengthUsable(conn.tasks[id].got + data)
      modifies this, holder.Keys
      ensures Valid() && fresh(holder.Keys - old(holder.Keys))
      ensures conn == ReadDone(old(conn), id, Got(data))
    {
      hide Parse, LengthUsable, ReadSpec.Handle, Valid, TaskShows;
      InFlight(id);
      Known(id);
      Arrive(id, data);
      var task := taskData[id];
      var totalProgress := task.progress + |data|;
      if !task.op.NetworkRead? && totalProgress < task.buffLength {
        ReadRest(id, totalProgress, conn.tasks[id].got + data);
      } else if !task.op.RawRead? {
        Handle(id, totalProgress);
      } else {
        RawDone(conn.tasks[id].got + data);
        Forget(id);
      }
    }

    /** The call of `raw_read_callback`. */
    ghost method RawDone(data: string)
      requires Valid()
      modifies this`conn
      ensures Valid() && conn == old(conn).(raw := old(conn).raw + [data])
    {
      conn := conn.(raw := conn.raw + [data]);
    }

    /** The read of what is missing of the buffer when `total` bytes have arrived, which are `all`. */
    method ReadRest(id: nat, total: nat, ghost all: string)
      requires Valid() && id in submitted && total <= taskData[id].buffLength && taskData[id].buff[..total] == all
      modifies this
      ensures Valid() && holder.Keys == old(holder.Keys)
      ensures conn == Resubmit(old(conn), id, old(conn).tasks[id].(got := all))
    {
      assert TaskShows(id);
      hide TaskShows;
      Replace(id, taskData[id].op, total, all);
    }
  }
}
