/** A file in a task's sandbox, read through the agent's paginated
    `files/read.json` endpoint (dcos/mesos.py, class MesosFile).

    The endpoint is modelled as a pure function `Serve` of the file's
    current content and the server's page limit. A request names the
    host path, an offset (-1 asks for the size only) and a length (-1
    asks for everything up to the end). The reply holds a contiguous
    slice of the content starting at the offset, never longer than
    asked and never longer than a page, and non-empty whenever the
    offset lies inside the file and some data is asked for. */
module RemoteFile {
  import opened Util

  /** Python's `os.SEEK_SET`, `os.SEEK_CUR` and `os.SEEK_END`. */
  const SEEK_SET: int := 0
  const SEEK_CUR: int := 1
  const SEEK_END: int := 2

  /** The largest reply the server sends; always at least one byte. */
  type PageLimit = n: nat | n >= 1 witness 1

  /** A sandbox directory as an executor reports it. */
  type Directory = s: string | |s| > 0 witness "/"

  /** The GET parameters of one request. */
  datatype Params = Params(path: string, offset: int, length: int)

  /** The JSON reply to one request. */
  datatype Response = Response(data: string, offset: int)

  /** One round trip: what was asked and what came back. */
  datatype Exchange = Exchange(request: Params, response: Response)

  /** The server's reply to `p` for a file holding `content`. Offsets
      past the end, and -1, report the file size and no data; any other
      negative offset is echoed back with no data. */
  function Serve(content: string, page: PageLimit, p: Params): (r: Response)
    ensures p.offset == -1 ==> r == Response("", |content|)
    ensures p.offset >= |content| ==> r == Response("", |content|)
    ensures p.offset < 0 || p.offset >= |content| ==> r.data == ""
    ensures r.data != "" ==> 0 <= p.offset <= |content| - |r.data| &&
                             r.data == content[p.offset..p.offset + |r.data|]
    ensures |r.data| <= page
    ensures p.length >= 0 ==> |r.data| <= p.length
    ensures 0 <= p.offset < |content| && (p.length == -1 || p.length > 0) ==> |r.data| >= 1
  {
    if p.offset < 0 || p.offset >= |content| then
      Response("", if p.offset == -1 || p.offset >= |content| then |content| else p.offset)
    else
      var avail := |content| - p.offset;
      var want := if p.length == -1 then avail else Max(p.length, 0);
      var k := Min(Min(want, avail), page);
      Response(content[p.offset..p.offset + k], p.offset)
  }

  /** The bytes of the file from cursor `c` to its end; nothing when the
      cursor lies outside the file. */
  function Remaining(content: string, c: int): (r: string)
    ensures 0 <= c <= |content| ==> r == content[c..]
    ensures c < 0 || c > |content| ==> r == ""
  {
    if 0 <= c <= |content| then content[c..] else ""
  }

  /** What `read(length)` returns from cursor `c`: everything up to the
      end for no length, else at most `length` bytes of it. */
  function ReadSpec(content: string, c: int, length: Option<int>): (r: string)
    ensures r <= Remaining(content, c)
    ensures length.Some? ==> |r| <= Max(length.value, 0)
    ensures length.None? ==> r == Remaining(content, c)
    ensures length.Some? && length.value >= 0 ==>
            |r| == Min(length.value, |Remaining(content, c)|)
  {
    var rest := Remaining(content, c);
    match length
    case None => rest
    case Some(n) => if n <= 0 then "" else rest[..Min(n, |rest|)]
  }

  /** Reading `n` bytes and then the rest reads the same as reading the
      rest at once: a bounded read never skips or repeats data. */
  lemma ReadThenRest(content: string, c: int, n: int)
    ensures var first := ReadSpec(content, c, Some(n));
            first + ReadSpec(content, c + |first|, None) == ReadSpec(content, c, None)
  {
    var first := ReadSpec(content, c, Some(n));
    if 0 <= c <= |content| {
      assert content[c..] == first + content[c + |first|..];
    }
  }

  /** At the end of the file an unbounded read returns nothing; after
      the task appends `more`, it returns exactly `more`. */
  lemma ReadAfterAppend(content: string, more: string)
    ensures ReadSpec(content, |content|, None) == ""
    ensures ReadSpec(content + more, |content|, None) == more
  {
    assert (content + more)[|content|..] == more;
  }

  /** The data of a run of replies, concatenated. */
  function Received(xs: seq<Exchange>): string
  {
    if xs == [] then "" else Received(xs[..|xs| - 1]) + xs[|xs| - 1].response.data
  }

  /** `_host_path`: the sandbox directory and the relative path joined by
      exactly one '/' (added only when the directory lacks a trailing
      one). An empty directory makes the source fail on `directory[-1]`. */
  function HostPath(directory: string, path: string): (r: Option<string>)
    ensures r.None? <==> directory == ""
    ensures r.Some? ==> directory <= r.value
    ensures r.Some? ==> |r.value| == |directory| + |path| + (if directory[|directory| - 1] == '/' then 0 else 1)
    ensures r.Some? ==> r.value[|r.value| - |path|..] == path && r.value[|r.value| - |path| - 1] == '/'
  {
    if directory == "" then None
    else if directory[|directory| - 1] == '/' then Some(directory + path)
    else Some(directory + "/" + path)
  }

  /** `__str__`: the header that names a file, `<task id>:<path>`. */
  function Header(taskId: string, path: string): (r: string)
    ensures |r| == |taskId| + 1 + |path|
    ensures r[..|taskId|] == taskId && r[|taskId|] == ':' && r[|taskId| + 1..] == path
  {
    taskId + ":" + path
  }

  /** Printed headers tell files apart when task ids hold no ':'. */
  lemma HeaderInjective(t1: string, p1: string, t2: string, p2: string)
    requires ':' !in t1 && ':' !in t2
    requires Header(t1, p1) == Header(t2, p2)
    ensures t1 == t2 && p1 == p2
  {
    if |t1| != |t2| {
      assert false;
    }
  }

  /** The request `read(length)` sends from cursor `c0` once `got`
      bytes have arrived: at the cursor, for what is still wanted
      (-1 when unbounded). */
  function ChunkParams(host: string, c0: int, length: Option<int>, got: int): (p: Params)
    ensures p.path == host && p.offset == c0 + got
    ensures length.None? ==> p.length == -1
    ensures length.Some? ==> p.length + got == length.value
  {
    Params(host, c0 + got, if length.None? then -1 else length.value - got)
  }

  /** Request `i` of `xs` is the one `read(length)` sends from cursor
      `c0` after the data of the requests before it has arrived. */
  ghost predicate ChunkRequests(xs: seq<Exchange>, host: string, c0: int, length: Option<int>)
  {
    forall i :: 0 <= i < |xs| ==> xs[i].request == ChunkParams(host, c0, length, |Received(xs[..i])|)
  }

  lemma ReceivedSnoc(xs: seq<Exchange>, x: Exchange)
    ensures Received(xs + [x]) == Received(xs) + x.response.data
  {
    assert (xs + [x])[..|xs|] == xs;
  }

  lemma ChunkRequestsSnoc(xs: seq<Exchange>, x: Exchange, host: string, c0: int, length: Option<int>)
    requires ChunkRequests(xs, host, c0, length)
    requires x.request == ChunkParams(host, c0, length, |Received(xs)|)
    ensures ChunkRequests(xs + [x], host, c0, length)
  {
    var ys := xs + [x];
    forall i | 0 <= i < |ys|
      ensures ys[i].request == ChunkParams(host, c0, length, |Received(ys[..i])|)
    {
      if i < |xs| {
        assert ys[..i] == xs[..i];
      } else {
        assert ys[..i] == xs;
      }
    }
  }

  /** When `read` stops, the bytes it gathered are what `ReadSpec`
      describes: either the budget is used up or the cursor has left the
      file, where the server sends no more. */
  lemma ReadComplete(content: string, c0: int, length: Option<int>, data: string)
    requires |data| <= |Remaining(content, c0)| && data == Remaining(content, c0)[..|data|]
    requires length.Some? ==> |data| <= Max(length.value, 0)
    requires (length.Some? && length.value - |data| <= 0) || c0 + |data| < 0 || c0 + |data| >= |content|
    ensures data == ReadSpec(content, c0, length)
  {
  }

  /** What `read` has gathered after the round trips `xs` from cursor
      `c0`: the next bytes of the file, no more than asked, each
      received in turn by the request `read` sends at that point. */
  ghost predicate ReadSoFar(content: string, c0: int, length: Option<int>, data: string,
                            xs: seq<Exchange>, host: string)
  {
    && |data| <= |Remaining(content, c0)| && data == Remaining(content, c0)[..|data|]
    && (length.Some? ==> |data| <= Max(length.value, 0))
    && data == Received(xs) && ChunkRequests(xs, host, c0, length)
  }

  /** One more chunk of `read`: the request at the cursor for what is
      still wanted keeps `ReadSoFar`; an empty reply means everything
      `ReadSpec` describes has arrived. */
  lemma ReadStep(content: string, page: PageLimit, c0: int, length: Option<int>, data: string,
                 xs: seq<Exchange>, host: string, x: Exchange)
    requires ReadSoFar(content, c0, length, data, xs, host)
    requires length.None? || length.value - |data| > 0
    requires x.request == Params(host, c0 + |data|, if length.None? then -1 else length.value - |data|)
    requires x.response == Serve(content, page, x.request)
    ensures ReadSoFar(content, c0, length, data + x.response.data, xs + [x], host)
    ensures x.response.data == "" ==> data == ReadSpec(content, c0, length)
    ensures x.response.data != "" ==> c0 + |data| + |x.response.data| <= |content|
  {
    var rest, d, c := Remaining(content, c0), x.response.data, c0 + |data|;
    assert Received(xs + [x]) == data + d by { ReceivedSnoc(xs, x); }
    assert ChunkRequests(xs + [x], host, c0, length) by {
      ChunkRequestsSnoc(xs, x, host, c0, length);
    }
    if d == "" {
      assert c < 0 || c >= |content|;
      ReadComplete(content, c0, length, data);
      assert data + d == data;
    } else {
      assert 0 <= c && c + |d| <= |content| && d == content[c..c + |d|];
      assert 0 <= c0 <= |content| && rest == content[c0..];
      assert rest[..|data| + |d|] == rest[..|data|] + d;
    }
  }

  /** The remote content of one sandbox file, as the agent currently
      holds it. The task may append to it at any time. */
  class FileEndpoint {
    var content: string
    const page: PageLimit

    constructor (content: string, page: PageLimit)
      ensures this.content == content && this.page == page
    {
      this.content := content;
      this.page := page;
    }

    /** The task writes `more` at the end of the file. */
    method Append(more: string)
      modifies this
      ensures content == old(content) + more
    {
      content := content + more;
    }
  }

  /** The client side: a cursor over one remote file. `exchanges` logs
      every round trip to the endpoint. */
  class MesosFile {
    const taskId: string
    const path: string
    const directory: Directory
    const endpoint: FileEndpoint
    var cursor: int
    ghost var exchanges: seq<Exchange>

    constructor (taskId: string, path: string, directory: Directory, endpoint: FileEndpoint)
      ensures this.taskId == taskId && this.path == path
      ensures this.directory == directory && this.endpoint == endpoint
      ensures cursor == 0 && exchanges == []
    {
      this.taskId := taskId;
      this.path := path;
      this.directory := directory;
      this.endpoint := endpoint;
      cursor := 0;
      exchanges := [];
    }

    /** The host path every request names. */
    function HostFile(): string
    {
      HostPath(directory, path).value
    }

    /** `_params`: the request for `length` bytes at `offset`, or at the
        cursor when no offset is given. */
    function ParamsFor(length: int, offset: Option<int>): (p: Params)
      reads this
      ensures Some(p.path) == HostPath(directory, path)
      ensures p.offset == (if offset.Some? then offset.value else cursor)
      ensures p.length == length
    {
      Params(HostFile(), if offset.Some? then offset.value else cursor, length)
    }

    /** `_fetch`: one round trip to the endpoint. */
    method Fetch(p: Params) returns (r: Response)
      modifies this`exchanges
      ensures r == Serve(endpoint.content, endpoint.page, p)
      ensures exchanges == old(exchanges) + [Exchange(p, r)]
    {
      r := Serve(endpoint.content, endpoint.page, p);
      exchanges := exchanges + [Exchange(p, r)];
    }

    /** `size`: ask for the size only; the cursor does not move. */
    method Size() returns (n: int)
      modifies this`exchanges
      ensures n == |endpoint.content|
      ensures exchanges == old(exchanges) + [Exchange(ParamsFor(0, Some(-1)), Response("", n))]
    {
      var r := Fetch(ParamsFor(0, Some(-1)));
      n := r.offset;
    }

    /** `seek`: absolute, relative to the cursor, or relative to the end
        (which costs one size request); any other `whence` is ignored. */
    method Seek(offset: int, whence: int)
      modifies this`cursor, this`exchanges
      ensures whence == SEEK_SET ==> cursor == offset
      ensures whence == SEEK_CUR ==> cursor == old(cursor) + offset
      ensures whence == SEEK_END ==> cursor == |endpoint.content| + offset
      ensures whence !in {SEEK_SET, SEEK_CUR, SEEK_END} ==> cursor == old(cursor)
      ensures whence == SEEK_END ==>
              exchanges == old(exchanges) + [Exchange(ParamsFor(0, Some(-1)), Response("", |endpoint.content|))]
      ensures whence != SEEK_END ==> exchanges == old(exchanges)
    {
      if whence == SEEK_SET {
        cursor := 0 + offset;
      } else if whence == SEEK_CUR {
        cursor := cursor + offset;
      } else if whence == SEEK_END {
        var n := Size();
        cursor := n + offset;
      }
    }

    /** `tell`: the cursor, without a request. */
    method Tell() returns (c: int)
      ensures c == cursor
    {
      c := cursor;
    }

    /** `_fetch_chunk`: one request at `offset` (or the cursor), after
        which the cursor sits just past the bytes received. */
    method FetchChunk(length: int, offset: Option<int>) returns (data: string)
      modifies this`cursor, this`exchanges
      ensures var start := if offset.Some? then offset.value else old(cursor);
              var p := Params(HostFile(), start, length);
              data == Serve(endpoint.content, endpoint.page, p).data &&
              cursor == start + |data| &&
              exchanges == old(exchanges) + [Exchange(p, Serve(endpoint.content, endpoint.page, p))]
    {
      if offset.Some? {
        Seek(offset.value, SEEK_SET);
      }
      var r := Fetch(ParamsFor(length, None));
      data := r.data;
      Seek(|data|, SEEK_CUR);
    }

    /** One pass of `read`'s loop: request what is still wanted at the
        cursor. */
    method ReadChunk(length: Option<int>, ghost c0: int, ghost n0: nat, data: string) returns (chunk: string)
      requires cursor == c0 + |data| && n0 <= |exchanges|
      requires ReadSoFar(endpoint.content, c0, length, data, exchanges[n0..], HostFile())
      requires length.None? || length.value - |data| > 0
      modifies this`cursor, this`exchanges
      ensures cursor == c0 + |data| + |chunk| && n0 <= |exchanges|
      ensures ReadSoFar(endpoint.content, c0, length, data + chunk, exchanges[n0..], HostFile())
      ensures chunk == "" ==> data == ReadSpec(endpoint.content, c0, length)
      ensures chunk != "" ==> cursor <= |endpoint.content|
    {
      var chunkLength := if length.None? then -1 else length.value - |data|;
      ghost var before := exchanges;
      chunk := FetchChunk(chunkLength, None);
      ghost var x := exchanges[|exchanges| - 1];
      assert exchanges[n0..] == before[n0..] + [x];
      ReadStep(endpoint.content, endpoint.page, c0, length, data, before[n0..], HostFile(), x);
    }

    /** `read`: request chunks from the cursor until `length` bytes have
        arrived or a chunk comes back empty; with no length, until a
        chunk comes back empty. The result is the concatenation of the
        chunks, which under the endpoint model is exactly the file's
        next bytes; the cursor advances by the number of bytes read. */
    method Read(length: Option<int>) returns (data: string)
      modifies this`cursor, this`exchanges
      ensures data == ReadSpec(endpoint.content, old(cursor), length)
      ensures cursor == old(cursor) + |data|
      ensures |old(exchanges)| <= |exchanges| && data == Received(exchanges[|old(exchanges)|..])
      ensures ChunkRequests(exchanges[|old(exchanges)|..], HostFile(), old(cursor), length)
      ensures length.Some? && length.value <= 0 ==> exchanges == old(exchanges)
    {
      ghost var c0 := cursor;
      ghost var n0 := |exchanges|;
      data := "";
      assert exchanges[n0..] == [];
      while length.None? || length.value - |data| > 0
        invariant cursor == c0 + |data| && n0 <= |exchanges|
        invariant ReadSoFar(endpoint.content, c0, length, data, exchanges[n0..], HostFile())
        invariant length.Some? && length.value <= 0 ==> exchanges == old(exchanges)
        decreases if length.None? then |endpoint.content| - cursor else length.value - |data|
      {
        var chunk := ReadChunk(length, c0, n0, data);
        if chunk == "" {
          break;
        }
        data := data + chunk;
      }
      if length.Some? && length.value - |data| <= 0 {
        ReadComplete(endpoint.content, c0, length, data);
      }
    }
  }
}
