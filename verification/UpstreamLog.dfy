/** Reassembly of a test report from the chunk lines of a log
    (cts/upstream_runner.py): chunks in any order, every marker exactly once,
    nothing missing, nothing twice. */
module UpstreamLog {
  import opened Positions
  import opened Words

  // ----- lines

  datatype Identity = Identity(runId: string, selectionHash: string, ebootSha256: string)

  /** A log line, as the four patterns classify it; the data of a chunk is None
      when it is not base64. */
  datatype Line =
    | Other
    | Start(identity: Identity)
    | Chunk(seqNo: nat, size: nat, data: Option<seq<Byte>>)
    | End(chunks: nat, totalBytes: nat, sha256: string)
    | Complete(status: int)

  datatype Fault =
    | CorruptBase64(seqNo: nat)
    | SizeMismatch(seqNo: nat)
    | DuplicateChunk(seqNo: nat)
    | StartCount(n: nat)
    | EndCount(n: nat)
    | CompleteCount(n: nat)
    | MarkersOutOfOrder
    | OutsideWindow(seqNo: nat)
    | ChunkCountMismatch(expected: nat, received: nat)
    | MissingChunk(seqNo: nat)
    | TotalMismatch(expected: nat, received: nat)
    | ShaMismatch

  datatype Result<+T> = Ok(value: T) | Err(fault: Fault)

  datatype Report = Report(identity: Identity, exitCode: int, sha256: string, bytes: seq<Byte>)

  // ----- scanning

  /** What the scan has collected: the chunks by number, and where the chunk lines
      and the three kinds of markers are. */
  datatype State = State(chunks: map<nat, seq<Byte>>, places: seq<nat>, starts: seq<nat>, ends: seq<nat>,
    completes: seq<nat>)

  function ScanLine(st: State, index: nat, line: Line): Result<State> {
    match line
    case Other => Ok(st)
    case Start(_) => Ok(st.(starts := st.starts + [index]))
    case End(_, _, _) => Ok(st.(ends := st.ends + [index]))
    case Complete(_) => Ok(st.(completes := st.completes + [index]))
    case Chunk(n, size, data) =>
      if data.None? then Err(CorruptBase64(n))
      else if |data.value| != size then Err(SizeMismatch(n))
      else if n in st.chunks then Err(DuplicateChunk(n))
      else Ok(st.(chunks := st.chunks[n := data.value], places := st.places + [index]))
  }

  /** The first k lines; the first bad chunk ends the scan. */
  function Scan(lines: seq<Line>, k: nat): Result<State>
    requires k <= |lines|
  {
    if k == 0 then Ok(State(map[], [], [], [], []))
    else if Scan(lines, k - 1).Err? then Scan(lines, k - 1)
    else ScanLine(Scan(lines, k - 1).value, k - 1, lines[k - 1])
  }

  // ----- what the scan finds

  function IsStart(): Line -> bool { (l: Line) => l.Start? }
  function IsEnd(): Line -> bool { (l: Line) => l.End? }
  function IsComplete(): Line -> bool { (l: Line) => l.Complete? }
  function IsChunk(): Line -> bool { (l: Line) => l.Chunk? }

  /** A chunk line whose data decodes to the size it announces. */
  predicate GoodChunk(line: Line)
    requires line.Chunk?
  {
    line.data.Some? && |line.data.value| == line.size
  }

  /** The chunk lines among the first k: all good, no number twice. */
  predicate GoodChunks(lines: seq<Line>, k: nat)
    requires k <= |lines|
  {
    && (forall i | 0 <= i < k :: lines[i].Chunk? ==> GoodChunk(lines[i]))
    && (forall i, j | 0 <= i < j < k :: lines[i].Chunk? && lines[j].Chunk? ==> lines[i].seqNo != lines[j].seqNo)
  }

  /** One of the first k lines is chunk n. */
  predicate Numbered(lines: seq<Line>, k: nat, n: nat)
    requires k <= |lines|
  {
    exists i :: 0 <= i < k && lines[i].Chunk? && lines[i].seqNo == n
  }

  /** The chunks of the first k lines, by number. */
  ghost predicate Collected(lines: seq<Line>, k: nat, chunks: map<nat, seq<Byte>>)
    requires k <= |lines| && GoodChunks(lines, k)
  {
    && (forall i | 0 <= i < k && lines[i].Chunk? ::
          lines[i].seqNo in chunks && chunks[lines[i].seqNo] == lines[i].data.value)
    && (forall n | n in chunks :: Numbered(lines, k, n))
  }

  lemma {:induction false} ScanFinds(lines: seq<Line>, k: nat)
    requires k <= |lines|
    ensures Scan(lines, k).Ok? <==> GoodChunks(lines, k)
    ensures Scan(lines, k).Ok? ==>
      var st := Scan(lines, k).value;
      && Collected(lines, k, st.chunks) && st.places == Places(lines, IsChunk(), k)
      && st.starts == Places(lines, IsStart(), k) && st.ends == Places(lines, IsEnd(), k)
      && st.completes == Places(lines, IsComplete(), k)
  {
    hide GoodChunks, Collected;
    if k == 0 {
      NoChunks(lines);
    } else {
      ScanFinds(lines, k - 1);
      FewerGoodChunks(lines, k - 1, k);
      if Scan(lines, k - 1).Ok? {
        ScanNext(lines, k, Scan(lines, k - 1).value);
      }
    }
  }

  lemma NoChunks(lines: seq<Line>)
    ensures GoodChunks(lines, 0) && Collected(lines, 0, map[])
  {
  }

  lemma FewerGoodChunks(lines: seq<Line>, j: nat, k: nat)
    requires j <= k <= |lines|
    ensures GoodChunks(lines, k) ==> GoodChunks(lines, j)
  {
  }

  lemma ScanNext(lines: seq<Line>, k: nat, st: State)
    requires 0 < k <= |lines| && GoodChunks(lines, k - 1) && Collected(lines, k - 1, st.chunks)
    ensures ScanLine(st, k - 1, lines[k - 1]).Ok? <==> GoodChunks(lines, k)
    ensures ScanLine(st, k - 1, lines[k - 1]).Ok? ==>
      Collected(lines, k, ScanLine(st, k - 1, lines[k - 1]).value.chunks)
  {
    var line := lines[k - 1];
    if line.Chunk? && GoodChunk(line) {
      if line.seqNo in st.chunks {
        var i :| 0 <= i < k - 1 && lines[i].Chunk? && lines[i].seqNo == line.seqNo;
        assert !GoodChunks(lines, k);
      } else {
        var chunks := st.chunks[line.seqNo := line.data.value];
        assert GoodChunks(lines, k);
        forall n | n in chunks ensures Numbered(lines, k, n) {
          if n == line.seqNo {
            assert lines[k - 1].Chunk?;
          } else {
            assert Numbered(lines, k - 1, n);
          }
        }
      }
    } else if !line.Chunk? {
      assert GoodChunks(lines, k);
    }
  }

  // ----- putting the chunks together

  /** The bytes of chunks 0..n-1, in order. */
  function Joined(chunks: map<nat, seq<Byte>>, n: nat): seq<Byte>
    requires forall q | 0 <= q < n :: q in chunks
  {
    if n == 0 then [] else Joined(chunks, n - 1) + chunks[n - 1]
  }

  /** The first number from q on that is missing, or n. */
  function FirstMissing(chunks: map<nat, seq<Byte>>, q: nat, n: nat): (m: nat)
    requires q <= n
    ensures q <= m <= n && (m < n ==> m !in chunks)
    ensures forall i | q <= i < m :: i in chunks
    decreases n - q
  {
    if q < n && q in chunks then FirstMissing(chunks, q + 1, n) else q
  }

  /** The first chunk line, in order of arrival, outside the window. */
  function FirstOutside(places: seq<nat>, low: nat, high: nat, j: nat): (m: nat)
    requires j <= |places|
    ensures j <= m <= |places| && (m < |places| ==> !(low < places[m] < high))
    ensures forall i | j <= i < m :: low < places[i] < high
    decreases |places| - j
  {
    if j < |places| && low < places[j] < high then FirstOutside(places, low, high, j + 1) else j
  }

  /** Everything after the scan. */
  function Finish(lines: seq<Line>, st: State, digest: seq<Byte> -> string): Result<Report>
    requires Sound(lines, st)
  {
    if |st.starts| != 1 then Err(StartCount(|st.starts|))
    else if |st.ends| != 1 then Err(EndCount(|st.ends|))
    else if |st.completes| != 1 then Err(CompleteCount(|st.completes|))
    else
      var s, e, c := st.starts[0], st.ends[0], st.completes[0];
      if !(s < e < c) then Err(MarkersOutOfOrder)
      else if FirstOutside(st.places, s, e, 0) < |st.places| then
        Err(OutsideWindow(lines[st.places[FirstOutside(st.places, s, e, 0)]].seqNo))
      else Assemble(lines[s].identity, lines[e], lines[c].status, st.chunks, digest)
  }

  function Assemble(identity: Identity, end: Line, status: int, chunks: map<nat, seq<Byte>>,
      digest: seq<Byte> -> string): Result<Report>
    requires end.End?
  {
    var n := end.chunks;
    if |chunks| != n then Err(ChunkCountMismatch(n, |chunks|))
    else if FirstMissing(chunks, 0, n) < n then Err(MissingChunk(FirstMissing(chunks, 0, n)))
    else
      var bytes := Joined(chunks, n);
      if |bytes| != end.totalBytes then Err(TotalMismatch(end.totalBytes, |bytes|))
      else if digest(bytes) != end.sha256 then Err(ShaMismatch)
      else Ok(Report(identity, status, digest(bytes), bytes))
  }

  /** The places a scan keeps are those of the lines they are meant for. */
  predicate Sound(lines: seq<Line>, st: State) {
    && (forall j | 0 <= j < |st.starts| :: st.starts[j] < |lines| && lines[st.starts[j]].Start?)
    && (forall j | 0 <= j < |st.ends| :: st.ends[j] < |lines| && lines[st.ends[j]].End?)
    && (forall j | 0 <= j < |st.completes| :: st.completes[j] < |lines| && lines[st.completes[j]].Complete?)
    && (forall j | 0 <= j < |st.places| :: st.places[j] < |lines| && lines[st.places[j]].Chunk?)
  }

  lemma ScanIsSound(lines: seq<Line>, k: nat)
    requires k <= |lines| && Scan(lines, k).Ok?
    ensures Sound(lines, Scan(lines, k).value)
  {
    hide Scan, GoodChunks, Collected, Places;
    ScanFinds(lines, k);
    PlacesAre(lines, IsStart(), k);
    PlacesAre(lines, IsEnd(), k);
    PlacesAre(lines, IsComplete(), k);
    PlacesAre(lines, IsChunk(), k);
  }

  function Parsed(lines: seq<Line>, digest: seq<Byte> -> string): Result<Report> {
    var scan := Scan(lines, |lines|);
    if scan.Err? then Err(scan.fault)
    else
      ScanIsSound(lines, |lines|);
      Finish(lines, scan.value, digest)
  }

  // ----- the loops

  lemma {:induction false} ScanStops(lines: seq<Line>, j: nat, k: nat)
    requires j <= k <= |lines| && Scan(lines, j).Err?
    ensures Scan(lines, k) == Scan(lines, j)
    decreases k
  {
    if j < k { ScanStops(lines, j, k - 1); }
  }

  method ScanLines(lines: seq<Line>) returns (r: Result<State>)
    ensures r == Scan(lines, |lines|)
  {
    var chunks: map<nat, seq<Byte>> := map[];
    var places: seq<nat>, starts: seq<nat>, ends: seq<nat>, completes: seq<nat> := [], [], [], [];
    var index := 0;
    while index < |lines|
      invariant index <= |lines|
      invariant Scan(lines, index) == Ok(State(chunks, places, starts, ends, completes))
    {
      match lines[index] {
      case Other =>
      case Start(_) => starts := starts + [index];
      case Chunk(n, size, data) =>
        if data.None? {
          ScanStops(lines, index + 1, |lines|);
          return Err(CorruptBase64(n));
        }
        if |data.value| != size {
          ScanStops(lines, index + 1, |lines|);
          return Err(SizeMismatch(n));
        }
        if n in chunks {
          ScanStops(lines, index + 1, |lines|);
          return Err(DuplicateChunk(n));
        }
        chunks, places := chunks[n := data.value], places + [index];
      case End(_, _, _) => ends := ends + [index];
      case Complete(_) => completes := completes + [index];
      }
      index := index + 1;
    }
    r := Ok(State(chunks, places, starts, ends, completes));
  }

  method CheckWindow(places: seq<nat>, low: nat, high: nat) returns (outside: nat)
    ensures outside == FirstOutside(places, low, high, 0)
  {
    outside := 0;
    while outside < |places| && low < places[outside] < high
      invariant outside <= |places|
      invariant FirstOutside(places, low, high, outside) == FirstOutside(places, low, high, 0)
    {
      outside := outside + 1;
    }
  }

  method Reassemble(chunks: map<nat, seq<Byte>>, n: nat) returns (r: Result<seq<Byte>>)
    ensures var missing := FirstMissing(chunks, 0, n);
      r == if missing < n then Err(MissingChunk(missing)) else Ok(Joined(chunks, n))
  {
    var bytes: seq<Byte> := [];
    var q := 0;
    while q < n
      invariant q <= n && forall i | 0 <= i < q :: i in chunks
      invariant FirstMissing(chunks, q, n) == FirstMissing(chunks, 0, n) && bytes == Joined(chunks, q)
    {
      if q !in chunks {
        return Err(MissingChunk(q));
      }
      bytes := bytes + chunks[q];
      q := q + 1;
    }
    r := Ok(bytes);
  }

  method ParseUpstreamLog(lines: seq<Line>, digest: seq<Byte> -> string) returns (r: Result<Report>)
    ensures r == Parsed(lines, digest)
  {
    hide Scan, Joined, FirstMissing, FirstOutside;
    var scan := ScanLines(lines);
    if scan.Err? {
      return Err(scan.fault);
    }
    var st := scan.value;
    ScanIsSound(lines, |lines|);
    if |st.starts| != 1 {
      return Err(StartCount(|st.starts|));
    }
    if |st.ends| != 1 {
      return Err(EndCount(|st.ends|));
    }
    if |st.completes| != 1 {
      return Err(CompleteCount(|st.completes|));
    }
    var s, e, c := st.starts[0], st.ends[0], st.completes[0];
    if !(s < e < c) {
      return Err(MarkersOutOfOrder);
    }
    var outside := CheckWindow(st.places, s, e);
    if outside < |st.places| {
      return Err(OutsideWindow(lines[st.places[outside]].seqNo));
    }
    var end := lines[e];
    if |st.chunks| != end.chunks {
      return Err(ChunkCountMismatch(end.chunks, |st.chunks|));
    }
    var joined := Reassemble(st.chunks, end.chunks);
    if joined.Err? {
      return Err(joined.fault);
    }
    if |joined.value| != end.totalBytes {
      return Err(TotalMismatch(end.totalBytes, |joined.value|));
    }
    var sha256 := digest(joined.value);
    if sha256 != end.sha256 {
      return Err(ShaMismatch);
    }
    r := Ok(Report(lines[s].identity, lines[c].status, sha256, joined.value));
  }
}
