/** The host side of the file protocol: a length-prefixed request read from a byte stream, one answer. */
module FileServer {
  import opened Bytes
  import Utf8

  const OP_READ := 1
  const OP_WRITE := 2
  const OP_LIST := 3
  const STATUS_OK := 0
  const STATUS_ERROR := 1

  type Path = seq<byte>

  /**
   * The file system as the server meets it: what a request path resolves to, which resolved paths refuse
   * to be written, what each directory lists, and the text of an unexpected exception.
   */
  datatype Host = Host(
    resolve: map<Path, Path>, refused: set<Path>, dirs: map<Path, seq<seq<byte>>>, trouble: seq<byte>)

  predicate ValidHost(h: Host) {
    |h.trouble| < TWO32
  }

  /** status, length, data; only when the length fits its four bytes. */
  function Response(status: byte, data: seq<byte>): (r: seq<byte>)
    requires |data| < TWO32
  {
    [status] + LE32(|data|) + data
  }

  /** The names of a directory joined with newlines. */
  function Joined(names: seq<seq<byte>>): (r: seq<byte>) {
    if names == [] then [] else if |names| == 1 then names[0] else names[0] + [10] + Joined(names[1..])
  }

  datatype Answer = Answer(files: map<Path, seq<byte>>, sent: seq<byte>)

  /** An answer, or the exception text when its length does not fit. */
  function Reply(h: Host, files: map<Path, seq<byte>>, status: byte, data: seq<byte>): (a: Answer)
    requires ValidHost(h)
  {
    Answer(files, if |data| < TWO32 then Response(status, data) else Response(STATUS_ERROR, h.trouble))
  }

  /** A request as its bytes spell it: cut short, with a path that is not text, or complete. */
  datatype Request = CutShort | NotText | Request(op: byte, path: Path, payload: seq<byte>)

  function Parsed(req: seq<byte>): (r: Request) {
    if |req| < 7 then CutShort
    else
      var pathLen, dataLen := U16At(req, 1), U32At(req, 3);
      if |req| < 7 + pathLen then CutShort
      else if !Utf8.Valid(req[7..7 + pathLen]) then NotText
      else if |req| < 7 + pathLen + dataLen then CutShort
      else Request(req[0], req[7..7 + pathLen], req[7 + pathLen..7 + pathLen + dataLen])
  }

  /** What one connection does, given all the bytes the client ever sends on it. */
  function Handled(h: Host, files: map<Path, seq<byte>>, req: seq<byte>): (a: Answer)
    requires ValidHost(h)
  {
    match Parsed(req)
    case CutShort => Answer(files, [])
    case NotText => Reply(h, files, STATUS_ERROR, h.trouble)
    case Request(op, path, payload) => Performed(h, files, op, path, payload)
  }

  function Performed(h: Host, files: map<Path, seq<byte>>, op: byte, path: Path, payload: seq<byte>): (a: Answer)
    requires ValidHost(h)
  {
    if path !in h.resolve then Reply(h, files, STATUS_ERROR, Ascii("path traversal denied"))
    else
      var full := h.resolve[path];
      if op == OP_READ then
        if full !in files then Reply(h, files, STATUS_ERROR, Ascii("file not found"))
        else Reply(h, files, STATUS_OK, files[full])
      else if op == OP_WRITE then
        if full in h.refused then Reply(h, files, STATUS_ERROR, h.trouble)
        else Reply(h, files[full := payload], STATUS_OK, [])
      else if op == OP_LIST then
        if full !in h.dirs then Reply(h, files, STATUS_ERROR, Ascii("not a directory"))
        else Reply(h, files, STATUS_OK, Joined(h.dirs[full]))
      else Reply(h, files, STATUS_ERROR, Ascii("unknown operation"))
  }

  /** Which requests are done: 1 reads a file, 2 writes one, 3 lists a directory; an answer has to fit its length. */
  predicate Doable(h: Host, files: map<Path, seq<byte>>, r: Request) {
    && r.Request? && r.path in h.resolve
    && var full := h.resolve[r.path];
       || (r.op == 1 && full in files && |files[full]| < TWO32)
       || (r.op == 2 && full !in h.refused)
       || (r.op == 3 && full in h.dirs && |Joined(h.dirs[full])| < TWO32)
  }

  /** What is said of an answer to a request that is or is not done. */
  predicate AnswersWell(files: map<Path, seq<byte>>, a: Answer, done: bool) {
    && a.sent != [] && (a.sent[0] == 0 <==> done) && (!done ==> a.files == files)
  }

  lemma PerformedWell(h: Host, files: map<Path, seq<byte>>, r: Request)
    requires ValidHost(h) && r.Request?
    ensures AnswersWell(files, Performed(h, files, r.op, r.path, r.payload), Doable(h, files, r))
  {
  }

  /**
   * A request is answered with status 0 exactly when it is done, and one that is not changes nothing; half of one is
   * not answered at all.
   */
  lemma DoneIff(h: Host, files: map<Path, seq<byte>>, req: seq<byte>)
    requires ValidHost(h)
    ensures var a, r := Handled(h, files, req), Parsed(req);
      if r.CutShort? then a == Answer(files, []) else AnswersWell(files, a, Doable(h, files, r))
  {
    if Parsed(req).Request? {
      PerformedWell(h, files, Parsed(req));
    }
  }

  /** A connected socket. `cuts` decides how much each receive returns; when it is used up, one byte. */
  class Connection {
    var incoming: seq<byte>
    var cuts: seq<nat>
    var outgoing: seq<byte>

    constructor (incoming: seq<byte>, cuts: seq<nat>)
      ensures this.incoming == incoming && this.cuts == cuts && outgoing == []
    {
      this.incoming, this.cuts, outgoing := incoming, cuts, [];
    }

    /** At least one and at most `most` bytes; none at all once the peer has closed. */
    method Recv(most: nat) returns (chunk: seq<byte>)
      requires most > 0
      modifies this`incoming, this`cuts
      ensures |chunk| <= most && old(incoming) == chunk + incoming
      ensures chunk == [] <==> old(incoming) == []
    {
      var n := Min(most, Min(|incoming|, 1 + if cuts == [] then 0 else cuts[0]));
      cuts := if cuts == [] then [] else cuts[1..];
      chunk, incoming := incoming[..n], incoming[n..];
    }

    /** Exactly n bytes however the stream is cut, or nothing when the stream ends before. */
    method RecvExactly(n: nat) returns (r: Option<seq<byte>>)
      modifies this`incoming, this`cuts
      ensures r == if n <= |old(incoming)| then Some(old(incoming)[..n]) else None
      ensures r.Some? ==> incoming == old(incoming)[n..]
    {
      var buf: seq<byte> := [];
      while |buf| < n
        invariant |buf| <= n && old(incoming) == buf + incoming
        decreases n - |buf|
      {
        var chunk := Recv(n - |buf|);
        if chunk == [] {
          return None;
        }
        buf := buf + chunk;
      }
      r := Some(buf);
    }

    method SendAll(data: seq<byte>)
      modifies this`outgoing
      ensures outgoing == old(outgoing) + data
    {
      outgoing := outgoing + data;
    }
  }

  class Server {
    const host: Host
    var files: map<Path, seq<byte>>

    constructor (host: Host, files: map<Path, seq<byte>>)
      ensures this.host == host && this.files == files
    {
      this.host, this.files := host, files;
    }

    method SendResponse(conn: Connection, status: byte, data: seq<byte>)
      requires ValidHost(host)
      modifies conn`outgoing
      ensures conn.outgoing == old(conn.outgoing) + Reply(host, files, status, data).sent
    {
      if |data| < TWO32 {
        var header := [status] + LE32(|data|);
        conn.SendAll(header + data);
      } else {
        conn.SendAll([STATUS_ERROR] + LE32(|host.trouble|) + host.trouble);
      }
    }

    /** Read one request, perform it, answer: the outcome depends on the bytes alone, not on how they arrive. */
    method HandleConnection(conn: Connection)
      requires ValidHost(host)
      modifies this`files, conn
      ensures var a := Handled(host, old(files), old(conn.incoming));
        files == a.files && conn.outgoing == old(conn.outgoing) + a.sent
    {
      var header := conn.RecvExactly(7);
      if header == None {
        return;
      }
      HandleRest(conn, header.value, old(conn.incoming));
    }

    /** Path, data and answer, once the header has been received. */
    method HandleRest(conn: Connection, header: seq<byte>, ghost req: seq<byte>)
      requires ValidHost(host) && |header| == 7 && header + conn.incoming == req
      modifies this`files, conn
      ensures var a := Handled(host, old(files), req); files == a.files && conn.outgoing == old(conn.outgoing) + a.sent
    {
      assert header == req[..7] && conn.incoming == req[7..];
      var pathLen: nat, dataLen: nat := U16At(header, 1), U32At(header, 3);
      assert pathLen == U16At(req, 1) && dataLen == U32At(req, 3);
      var path := conn.RecvExactly(pathLen);
      if path == None {
        return;
      }
      assert path.value == req[7..7 + pathLen];
      if !Utf8.Valid(path.value) {
        SendResponse(conn, STATUS_ERROR, host.trouble);
        return;
      }
      var payload: Option<seq<byte>> := Some([]);
      if dataLen > 0 {
        payload := conn.RecvExactly(dataLen);
      }
      if payload == None {
        return;
      }
      assert payload.value == req[7 + pathLen..7 + pathLen + dataLen];
      Perform(conn, header[0], path.value, payload.value);
    }

    method Perform(conn: Connection, op: byte, path: Path, payload: seq<byte>)
      requires ValidHost(host)
      modifies this`files, conn`outgoing
      ensures var a := Performed(host, old(files), op, path, payload);
        files == a.files && conn.outgoing == old(conn.outgoing) + a.sent
    {
      if path !in host.resolve {
        SendResponse(conn, STATUS_ERROR, Ascii("path traversal denied"));
        return;
      }
      var full := host.resolve[path];
      if op == OP_READ {
        if full !in files {
          SendResponse(conn, STATUS_ERROR, Ascii("file not found"));
          return;
        }
        SendResponse(conn, STATUS_OK, files[full]);
      } else if op == OP_WRITE {
        if full in host.refused {
          SendResponse(conn, STATUS_ERROR, host.trouble);
          return;
        }
        files := files[full := payload];
        SendResponse(conn, STATUS_OK, []);
      } else if op == OP_LIST {
        if full !in host.dirs {
          SendResponse(conn, STATUS_ERROR, Ascii("not a directory"));
          return;
        }
        SendResponse(conn, STATUS_OK, Joined(host.dirs[full]));
      } else {
        SendResponse(conn, STATUS_ERROR, Ascii("unknown operation"));
      }
    }
  }
}
