/** Why the reassembly refuses a log: every refusal is true of the log's lines
    (cts/upstream_runner.py). */
module UpstreamFaults {
  import opened Positions
  import opened Words
  import opened UpstreamLog
  import opened UpstreamReports

  // ----- chunks

  lemma {:induction false} OneEntryPerChunk(lines: seq<Line>, k: nat)
    requires k <= |lines| && Scan(lines, k).Ok?
    ensures |Scan(lines, k).value.chunks| == |Scan(lines, k).value.places|
  {
    if k > 0 { OneEntryPerChunk(lines, k - 1); }
  }

  /** Line i is the chunk a scan stops at, for the reason it gives. */
  predicate BadChunk(lines: seq<Line>, i: nat, fault: Fault) {
    && i < |lines| && lines[i].Chunk? && GoodChunks(lines, i)
    && match fault
       case CorruptBase64(n) => n == lines[i].seqNo && lines[i].data.None?
       case SizeMismatch(n) => n == lines[i].seqNo && lines[i].data.Some? && |lines[i].data.value| != lines[i].size
       case DuplicateChunk(n) => n == lines[i].seqNo && GoodChunk(lines[i]) && Numbered(lines, i, n)
       case _ => false
  }

  lemma {:induction false} ScanStops(lines: seq<Line>, k: nat) returns (i: nat)
    requires k <= |lines| && Scan(lines, k).Err?
    ensures i < k && BadChunk(lines, i, Scan(lines, k).fault)
  {
    hide GoodChunks, Numbered;
    if Scan(lines, k - 1).Err? {
      i := ScanStops(lines, k - 1);
    } else {
      i := k - 1;
      ScanFinds(lines, i);
      assert Collected(lines, i, Scan(lines, i).value.chunks);
    }
  }

  // ----- after the scan

  /** One start, one end and one completion, in this order. */
  predicate Marked(lines: seq<Line>, s: nat, e: nat, c: nat) {
    s < e < c && Only(lines, IsStart(), s) && Only(lines, IsEnd(), e) && Only(lines, IsComplete(), c)
  }

  predicate Inside(lines: seq<Line>, s: nat, e: nat) {
    forall i | 0 <= i < |lines| && lines[i].Chunk? :: s < i < e
  }

  /** What a refusal after the scan says of the lines. */
  ghost predicate TrueOf(lines: seq<Line>, digest: seq<Byte> -> string, fault: Fault) {
    var starts, ends, completes :=
      Places(lines, IsStart(), |lines|), Places(lines, IsEnd(), |lines|), Places(lines, IsComplete(), |lines|);
    match fault
    case StartCount(n) => n == |starts| && n != 1
    case EndCount(n) => |starts| == 1 && n == |ends| && n != 1
    case CompleteCount(n) => |starts| == |ends| == 1 && n == |completes| && n != 1
    case MarkersOutOfOrder =>
      |starts| == |ends| == |completes| == 1 && !(starts[0] < ends[0] < completes[0])
    case _ => exists s: nat, e: nat, c: nat :: Marked(lines, s, e, c) && TrueInside(lines, digest, fault, s, e)
  }

  /** The same, once the markers are in order. */
  ghost predicate TrueInside(lines: seq<Line>, digest: seq<Byte> -> string, fault: Fault, s: nat, e: nat)
    requires e < |lines|
  {
    && lines[e].End?
    && match fault
       case OutsideWindow(n) =>
         exists i: nat :: FirstStray(lines, s, e, i) && lines[i].seqNo == n
       case ChunkCountMismatch(expected, received) =>
         && Inside(lines, s, e) && expected == lines[e].chunks != received
         && received == |Places(lines, IsChunk(), |lines|)|
       case MissingChunk(n) =>
         && Inside(lines, s, e) && n < lines[e].chunks && !Numbered(lines, |lines|, n)
         && forall m: nat | m < n :: Numbered(lines, |lines|, m)
       case TotalMismatch(expected, received) =>
         expected == lines[e].totalBytes != received
         && exists pieces ::
              ChunksAre(lines, pieces, s, e) && |pieces| == lines[e].chunks && |Flatten(pieces)| == received
       case ShaMismatch =>
         exists pieces :: ChunksAre(lines, pieces, s, e) && |pieces| == lines[e].chunks
           && |Flatten(pieces)| == lines[e].totalBytes && digest(Flatten(pieces)) != lines[e].sha256
       case _ => false
  }

  /** The first chunk line outside the window. */
  predicate FirstStray(lines: seq<Line>, s: nat, e: nat, i: nat) {
    && i < |lines| && lines[i].Chunk? && !(s < i < e)
    && forall j | 0 <= j < i && lines[j].Chunk? :: s < j < e
  }

  lemma StrayFound(lines: seq<Line>, s: nat, e: nat) returns (i: nat)
    requires var places := Places(lines, IsChunk(), |lines|); FirstOutside(places, s, e, 0) < |places|
    ensures var places := Places(lines, IsChunk(), |lines|);
      i == places[FirstOutside(places, s, e, 0)] && FirstStray(lines, s, e, i)
  {
    hide Places;
    var places := Places(lines, IsChunk(), |lines|);
    PlacesAre(lines, IsChunk(), |lines|);
    var m := FirstOutside(places, s, e, 0);
    i := places[m];
    forall j | 0 <= j < i && lines[j].Chunk? ensures s < j < e {
      assert IsChunk()(lines[j]);
      var k :| 0 <= k < |places| && places[k] == j;
      assert k < m;
    }
  }

  lemma MissingIsTrue(lines: seq<Line>, chunks: map<nat, seq<Byte>>, n: nat)
    requires GoodChunks(lines, |lines|) && Collected(lines, |lines|, chunks) && FirstMissing(chunks, 0, n) < n
    ensures var m := FirstMissing(chunks, 0, n);
      !Numbered(lines, |lines|, m) && forall q: nat | q < m :: Numbered(lines, |lines|, q)
  {
    var m := FirstMissing(chunks, 0, n);
    forall q: nat | q < m ensures Numbered(lines, |lines|, q) {
      assert q in chunks;
    }
  }

  lemma AssembleFaults(lines: seq<Line>, digest: seq<Byte> -> string, st: State, s: nat, e: nat, c: nat)
    requires e < |lines| && lines[e].End? && s < |lines| && lines[s].Start? && c < |lines| && lines[c].Complete?
    requires Scan(lines, |lines|) == Ok(st) && Marked(lines, s, e, c) && Inside(lines, s, e)
    requires Assemble(lines[s].identity, lines[e], lines[c].status, st.chunks, digest).Err?
    ensures var fault := Assemble(lines[s].identity, lines[e], lines[c].status, st.chunks, digest).fault;
      TrueInside(lines, digest, fault, s, e) && TrueOf(lines, digest, fault)
  {
    hide Scan, GoodChunks, Collected, Joined, Places, FirstMissing, Only, Flatten, ChunksAre, Numbered;
    ScanFinds(lines, |lines|);
    OneEntryPerChunk(lines, |lines|);
    var n := lines[e].chunks;
    var fault := Assemble(lines[s].identity, lines[e], lines[c].status, st.chunks, digest).fault;
    if |st.chunks| == n {
      if FirstMissing(st.chunks, 0, n) < n {
        MissingIsTrue(lines, st.chunks, n);
      } else {
        var pieces := PiecesOf(st.chunks, n);
        ChunksFound(lines, st.chunks, n, s, e);
        JoinedIsFlatten(st.chunks, pieces, n);
        assert pieces[..n] == pieces;
        assert ChunksAre(lines, pieces, s, e);
      }
    }
    assert Marked(lines, s, e, c) && TrueInside(lines, digest, fault, s, e);
  }

  /** Every refusal is true: a bad chunk, a marker that is not there once, markers out
      of order, a chunk outside the window, and a count, a chunk, a length or a digest
      that is not the announced one, in this order. */
  lemma LogFaultsAreTrue(lines: seq<Line>, digest: seq<Byte> -> string) returns (i: nat)
    requires Parsed(lines, digest).Err?
    ensures var fault := Parsed(lines, digest).fault;
      if GoodChunks(lines, |lines|) then TrueOf(lines, digest, fault) else BadChunk(lines, i, fault)
  {
    hide Scan, GoodChunks, Collected, Places, FirstOutside, Only, Sound, Assemble, BadChunk, TrueInside;
    i := 0;
    ScanFinds(lines, |lines|);
    if Scan(lines, |lines|).Err? {
      i := ScanStops(lines, |lines|);
    } else {
      var st := Scan(lines, |lines|).value;
      ScanIsSound(lines, |lines|);
      if |st.starts| == |st.ends| == |st.completes| == 1 && st.starts[0] < st.ends[0] < st.completes[0] {
        var s, e, c := st.starts[0], st.ends[0], st.completes[0];
        OnePlace(lines, IsStart());
        OnePlace(lines, IsEnd());
        OnePlace(lines, IsComplete());
        InLines(lines, s, e, c);
        MarkersAt(lines, s, e, c);
        StrayOrNot(lines, digest, st, s, e, c);
      }
    }
  }

  lemma MarkersAt(lines: seq<Line>, s: nat, e: nat, c: nat)
    requires Only(lines, IsStart(), s) && Only(lines, IsEnd(), e) && Only(lines, IsComplete(), c)
    ensures e < |lines| && lines[e].End? && s < |lines| && lines[s].Start? && c < |lines| && lines[c].Complete?
  {
  }

  lemma StrayOrNot(lines: seq<Line>, digest: seq<Byte> -> string, st: State, s: nat, e: nat, c: nat)
    requires e < |lines| && lines[e].End? && s < |lines| && lines[s].Start? && c < |lines| && lines[c].Complete?
    requires Scan(lines, |lines|) == Ok(st) && Marked(lines, s, e, c)
    requires Sound(lines, st) && st.starts == [s] && st.ends == [e] && st.completes == [c]
    requires Finish(lines, st, digest).Err?
    ensures TrueOf(lines, digest, Finish(lines, st, digest).fault)
  {
    hide Scan, GoodChunks, Collected, Places, FirstOutside, Only, Sound, Assemble;
    ScanFinds(lines, |lines|);
    if FirstOutside(st.places, s, e, 0) < |st.places| {
      var i := StrayFound(lines, s, e);
      assert TrueInside(lines, digest, Finish(lines, st, digest).fault, s, e);
    } else {
      WindowHolds(lines, s, e);
      AssembleFaults(lines, digest, st, s, e, c);
    }
  }
}
