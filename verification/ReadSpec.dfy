/** Reading from a connection: what the completion of a read does, as a function of the tasks, the
    reads in flight and what was handed to the application. */
module ReadSpec {
  import opened Options
  import opened CText
  import opened RequestSpec
  import opened Ranges

  const READ_SIZE: nat := 4096

  datatype ReadOp = NetworkRead | PostRead | RawRead

  /** A buffer of `size` bytes whose first `|got|` bytes have arrived (`task.progress`); a read that is
      in flight asks for all the others. */
  datatype Task = Task(op: ReadOp, size: nat, got: string)

  /** A call of `http_read_callback`: the bytes the request is built from, and `failed_req`. */
  datatype Delivery = Delivery(data: string, failed: bool)

  datatype Conn = Conn(tasks: seq<Task>, inFlight: set<nat>, delivered: seq<Delivery>, raw: seq<string>, closed: bool)

  function Submit(c: Conn, t: Task): Conn {
    c.(tasks := c.tasks + [t], inFlight := c.inFlight + {|c.tasks|})
  }

  function Resubmit(c: Conn, id: nat, t: Task): Conn
    requires id < |c.tasks|
  {
    c.(tasks := c.tasks[id := t], inFlight := c.inFlight + {id})
  }

  /** The buffer is freed and nothing is read into it any more. */
  function Release(c: Conn, id: nat): Conn {
    c.(inFlight := c.inFlight - {id})
  }

  /** What `http_response_method` makes of the bytes read: a request for the application, a larger
      buffer to read the rest into, or nothing it can use. */
  datatype Verdict = Delivered | Growing | Refused

  function Deliver(c: Conn, data: string): (Conn, Verdict) {
    if Parse(data).validReq then (c.(delivered := c.delivered + [Delivery(data, false)]), Delivered) else (c, Refused)
  }

  /** The length accounting of a POST request; no verdict means that the request goes on to the application. */
  function PostPart(c: Conn, data: string): (r: (Conn, Option<Verdict>))
    ensures |c.tasks| <= |r.0.tasks| <= |c.tasks| + 1 && r.0.tasks[..|c.tasks|] == c.tasks
  {
    var r := Parse(data);
    match ContentLength(r)
    case None => (c, Some(Refused))
    case Some(n) =>
      if r.content.Some? then
        var have := |data| - r.content.value;
        if have == n then (if |data| != READ_SIZE then Submit(c, Task(NetworkRead, READ_SIZE, "")) else c, None)
        else if have < n then (Submit(c, Task(PostRead, ToSize(r.content.value + n), data)), Some(Growing))
        else (c, None)
      else (c, if n != 0 then Some(Refused) else None)
  }

  /** `http_response_method` for a read that did not fail. */
  function Respond(c: Conn, data: string): (r: (Conn, Verdict))
    ensures |c.tasks| <= |r.0.tasks| <= |c.tasks| + 1 && r.0.tasks[..|c.tasks|] == c.tasks
  {
    if Parse(data).reqType == "POST" then
      var (c1, v) := PostPart(c, data);
      if v.Some? then (c1, v.value) else Deliver(c1, data)
    else Deliver(c, data)
  }

  /** `network_read_procedure` and what `read_callback` does with the task behind it: the websocket
      function refuses everything, so what `http_response_method` refuses closes the connection. */
  function Handle(c: Conn, id: nat, data: string): Conn
    requires id < |c.tasks|
  {
    var (c1, v) := Respond(c, data);
    match v
    case Delivered => Resubmit(c1, id, Task(NetworkRead, c.tasks[id].size, ""))
    case Growing => Release(c1, id)
    case Refused => Release(c1.(closed := true), id)
  }

  /** How a read completes.  `Interrupted` was resubmitted; no data is the end of the stream. */
  datatype Result = Interrupted | Failed | Got(data: string)

  /** `read_callback`. */
  function ReadDone(c: Conn, id: nat, r: Result): Conn
    requires id < |c.tasks|
  {
    var t := c.tasks[id];
    match r
    case Interrupted => c
    case Failed =>
      var c1 := match t.op
                case NetworkRead => c.(delivered := c.delivered + [Delivery("", true)])
                case RawRead => c.(raw := c.raw + [t.got])
                case PostRead => c;
      Release(c1.(closed := true), id)
    case Got(data) =>
      if data == "" then Release(c.(closed := true), id)
      else
        var all := t.got + data;
        match t.op
        case NetworkRead => Handle(c, id, all)
        case _ =>
          if |all| < t.size then Resubmit(c, id, t.(got := all))
          else if t.op.PostRead? then Handle(c, id, all)
          else Release(c.(raw := c.raw + [all]), id)
  }

  predicate MayHappen(c: Conn, id: nat, r: Result) {
    id in c.inFlight && id < |c.tasks| && (r.Got? ==> |c.tasks[id].got| + |r.data| <= c.tasks[id].size)
  }

  /** The completions of one read task, in order. */
  function Feed(c: Conn, id: nat, rs: seq<Result>): Conn
    requires id < |c.tasks|
    ensures |Feed(c, id, rs).tasks| >= |c.tasks|
  {
    if rs == [] then c else ReadDone(Feed(c, id, rs[..|rs| - 1]), id, rs[|rs| - 1])
  }

  /** The bytes that arrive with them. */
  function Stream(rs: seq<Result>): string {
    if rs == [] then "" else Stream(rs[..|rs| - 1]) + if rs[|rs| - 1].Got? then rs[|rs| - 1].data else ""
  }

  /** Short completions and interruptions only. */
  predicate Chunks(rs: seq<Result>) {
    forall i :: 0 <= i < |rs| ==> rs[i].Interrupted? || (rs[i].Got? && rs[i].data != "")
  }
}
