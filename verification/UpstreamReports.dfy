/** Which logs the reassembly accepts, and what it returns: the report that was cut
    into chunks, whatever the order in which the chunks arrived. */
module UpstreamReports {
  import opened Positions
  import opened Words
  import opened UpstreamLog

  /** Line i carries piece q of the report. */
  predicate Carries(line: Line, q: nat, piece: seq<Byte>) { line == Chunk(q, |piece|, Some(piece)) }

  /** The chunk lines carry exactly these pieces, each of them once, in any order,
      all of them between lines s and e. */
  predicate ChunksAre(lines: seq<Line>, pieces: seq<seq<Byte>>, s: nat, e: nat) {
    && (forall i | 0 <= i < |lines| && lines[i].Chunk? ::
          s < i < e && lines[i].seqNo < |pieces| && Carries(lines[i], lines[i].seqNo, pieces[lines[i].seqNo]))
    && (forall i, j | 0 <= i < j < |lines| && lines[i].Chunk? && lines[j].Chunk? :: lines[i].seqNo != lines[j].seqNo)
    && (forall q: nat | q < |pieces| :: Numbered(lines, |lines|, q))
  }

  /** A complete log of a report cut into these pieces: one start, one end and one
      completion, in that order, the pieces between the first two, and any other
      lines anywhere. */
  predicate IsLog(lines: seq<Line>, digest: seq<Byte> -> string, pieces: seq<seq<Byte>>, s: nat, e: nat, c: nat) {
    && s < e < c
    && Only(lines, IsStart(), s) && Only(lines, IsEnd(), e) && Only(lines, IsComplete(), c)
    && ChunksAre(lines, pieces, s, e)
    && lines[e] == End(|pieces|, |Flatten(pieces)|, digest(Flatten(pieces)))
  }

  function ReportOf(lines: seq<Line>, digest: seq<Byte> -> string, pieces: seq<seq<Byte>>, s: nat, c: nat): Report
    requires Only(lines, IsStart(), s) && Only(lines, IsComplete(), c)
  {
    Report(lines[s].identity, lines[c].status, digest(Flatten(pieces)), Flatten(pieces))
  }

  // ----- chunk numbers

  /** The numbers below n. */
  function Below(n: nat): set<nat> { if n == 0 then {} else Below(n - 1) + {n - 1} }

  lemma {:induction false} BelowAre(n: nat)
    ensures |Below(n)| == n && forall q: nat :: q in Below(n) <==> q < n
  {
    if n > 0 { BelowAre(n - 1); }
  }

  lemma {:induction false} SameSize(a: set<nat>, b: set<nat>)
    requires a <= b && |a| == |b|
    ensures a == b
    decreases |a|
  {
    if a == {} {
    } else {
      var x :| x in a;
      SameSize(a - {x}, b - {x});
      assert a == (a - {x}) + {x} && b == (b - {x}) + {x};
    }
  }

  /** n numbers that include 0..n-1 are 0..n-1. */
  lemma NumbersAre(chunks: map<nat, seq<Byte>>, n: nat)
    requires |chunks| == n && forall q | 0 <= q < n :: q in chunks
    ensures forall q | q in chunks :: q < n
  {
    BelowAre(n);
    assert Below(n) <= chunks.Keys;
    assert |chunks.Keys| == |chunks|;
    SameSize(Below(n), chunks.Keys);
    forall q | q in chunks ensures q < n { assert q in chunks.Keys; assert q in Below(n); }
  }

  lemma NumbersCount(chunks: map<nat, seq<Byte>>, n: nat)
    requires forall q: nat :: q in chunks <==> q < n
    ensures |chunks| == n
  {
    BelowAre(n);
    assert Below(n) == chunks.Keys;
    assert |chunks.Keys| == |chunks|;
  }

  lemma {:induction false} JoinedIsFlatten(chunks: map<nat, seq<Byte>>, pieces: seq<seq<Byte>>, n: nat)
    requires n <= |pieces| && forall q | 0 <= q < n :: q in chunks && chunks[q] == pieces[q]
    ensures Joined(chunks, n) == Flatten(pieces[..n])
  {
    if n > 0 {
      JoinedIsFlatten(chunks, pieces, n - 1);
      assert pieces[..n][..n - 1] == pieces[..n - 1];
    }
  }

  // ----- a complete log is accepted

  /** The scan of a complete log finds each piece under its number. */
  lemma PiecesCollected(lines: seq<Line>, pieces: seq<seq<Byte>>, s: nat, e: nat, chunks: map<nat, seq<Byte>>)
    requires ChunksAre(lines, pieces, s, e) && GoodChunks(lines, |lines|) && Collected(lines, |lines|, chunks)
    ensures forall q: nat :: q in chunks <==> q < |pieces|
    ensures forall q: nat | q < |pieces| :: chunks[q] == pieces[q]
  {
    forall q: nat | q < |pieces| ensures q in chunks && chunks[q] == pieces[q] {
      assert Numbered(lines, |lines|, q);
      var i :| 0 <= i < |lines| && lines[i].Chunk? && lines[i].seqNo == q;
      assert Carries(lines[i], q, pieces[q]);
    }
    forall q: nat | q in chunks ensures q < |pieces| {
      var i :| 0 <= i < |lines| && lines[i].Chunk? && lines[i].seqNo == q;
    }
  }

  lemma LogHasGoodChunks(lines: seq<Line>, pieces: seq<seq<Byte>>, s: nat, e: nat)
    requires ChunksAre(lines, pieces, s, e)
    ensures GoodChunks(lines, |lines|)
  {
    forall i | 0 <= i < |lines| && lines[i].Chunk? ensures GoodChunk(lines[i]) {
      assert Carries(lines[i], lines[i].seqNo, pieces[lines[i].seqNo]);
    }
  }

  /** Round trip: a report cut into pieces any way at all, logged in any order and
      between any other lines, comes back whole. */
  lemma CompleteLogIsAccepted(lines: seq<Line>, digest: seq<Byte> -> string, pieces: seq<seq<Byte>>, s: nat, e: nat,
      c: nat)
    requires IsLog(lines, digest, pieces, s, e, c)
    ensures Parsed(lines, digest) == Ok(ReportOf(lines, digest, pieces, s, c))
  {
    hide Scan, GoodChunks, Collected, Joined, Places, FirstOutside, FirstMissing, Only, Flatten, ChunksAre;
    LogHasGoodChunks(lines, pieces, s, e);
    ScanFinds(lines, |lines|);
    PlacesOfOnly(lines, IsStart(), s, |lines|);
    PlacesOfOnly(lines, IsEnd(), e, |lines|);
    PlacesOfOnly(lines, IsComplete(), c, |lines|);
    InLines(lines, s, e, c);
    var st := Scan(lines, |lines|).value;
    NoneOutside(lines, pieces, s, e);
    PiecesCollected(lines, pieces, s, e, st.chunks);
    NumbersCount(st.chunks, |pieces|);
    JoinedIsFlatten(st.chunks, pieces, |pieces|);
    assert pieces[..|pieces|] == pieces;
    AllThere(st.chunks, |pieces|);
  }

  lemma InLines(lines: seq<Line>, s: nat, e: nat, c: nat)
    requires Only(lines, IsStart(), s) && Only(lines, IsEnd(), e) && Only(lines, IsComplete(), c)
    ensures s < |lines| && e < |lines| && c < |lines|
  {
  }

  lemma NoneOutside(lines: seq<Line>, pieces: seq<seq<Byte>>, s: nat, e: nat)
    requires ChunksAre(lines, pieces, s, e)
    ensures FirstOutside(Places(lines, IsChunk(), |lines|), s, e, 0) == |Places(lines, IsChunk(), |lines|)|
  {
    hide Places;
    PlacesAre(lines, IsChunk(), |lines|);
  }

  lemma AllThere(chunks: map<nat, seq<Byte>>, n: nat)
    requires forall q | 0 <= q < n :: q in chunks
    ensures FirstMissing(chunks, 0, n) == n
  {
  }

  // ----- an accepted log is complete

  /** The pieces of an accepted log. */
  function PiecesOf(chunks: map<nat, seq<Byte>>, n: nat): (pieces: seq<seq<Byte>>)
    requires forall q | 0 <= q < n :: q in chunks
    ensures |pieces| == n
  {
    seq(n, q requires 0 <= q < n => chunks[q])
  }

  lemma WindowHolds(lines: seq<Line>, s: nat, e: nat)
    requires FirstOutside(Places(lines, IsChunk(), |lines|), s, e, 0) == |Places(lines, IsChunk(), |lines|)|
    ensures forall i | 0 <= i < |lines| && lines[i].Chunk? :: s < i < e
  {
    hide Places;
    PlacesAre(lines, IsChunk(), |lines|);
    var places := Places(lines, IsChunk(), |lines|);
    forall i | 0 <= i < |lines| && lines[i].Chunk? ensures s < i < e {
      assert IsChunk()(lines[i]);
      assert i in places;
    }
  }

  lemma ChunksFound(lines: seq<Line>, chunks: map<nat, seq<Byte>>, n: nat, s: nat, e: nat)
    requires GoodChunks(lines, |lines|) && Collected(lines, |lines|, chunks)
    requires |chunks| == n && forall q | 0 <= q < n :: q in chunks
    requires forall i | 0 <= i < |lines| && lines[i].Chunk? :: s < i < e
    ensures ChunksAre(lines, PiecesOf(chunks, n), s, e)
  {
    NumbersAre(chunks, n);
    var pieces := PiecesOf(chunks, n);
    forall i | 0 <= i < |lines| && lines[i].Chunk?
      ensures lines[i].seqNo < n && Carries(lines[i], lines[i].seqNo, pieces[lines[i].seqNo]) {
      assert GoodChunk(lines[i]);
    }
    forall q: nat | q < n ensures Numbered(lines, |lines|, q) {
      assert q in chunks;
    }
  }

  /** Anything accepted is a complete log: the chunk numbers received are exactly
      0..n-1, each once and inside the window, and the result is their pieces. */
  lemma AcceptedLogIsComplete(lines: seq<Line>, digest: seq<Byte> -> string)
    returns (pieces: seq<seq<Byte>>, s: nat, e: nat, c: nat)
    requires Parsed(lines, digest).Ok?
    ensures IsLog(lines, digest, pieces, s, e, c)
    ensures Parsed(lines, digest) == Ok(ReportOf(lines, digest, pieces, s, c))
  {
    hide Scan, GoodChunks, Collected, Joined, Places, FirstOutside, FirstMissing, Only, Flatten, ChunksAre, Sound;
    ScanFinds(lines, |lines|);
    ScanIsSound(lines, |lines|);
    var st := Scan(lines, |lines|).value;
    s, e, c := st.starts[0], st.ends[0], st.completes[0];
    OnePlace(lines, IsStart());
    OnePlace(lines, IsEnd());
    OnePlace(lines, IsComplete());
    InLines(lines, s, e, c);
    WindowHolds(lines, s, e);
    EndAt(lines, e);
    var n := lines[e].chunks;
    assert FirstMissing(st.chunks, 0, n) == n;
    pieces := PiecesOf(st.chunks, n);
    ChunksFound(lines, st.chunks, n, s, e);
    JoinedIsFlatten(st.chunks, pieces, n);
    assert pieces[..n] == pieces;
  }

  lemma EndAt(lines: seq<Line>, e: nat)
    requires Only(lines, IsEnd(), e)
    ensures e < |lines| && lines[e].End?
  {
  }

  /** Exactly the complete logs are accepted. */
  lemma AcceptedIffComplete(lines: seq<Line>, digest: seq<Byte> -> string)
    ensures Parsed(lines, digest).Ok? <==> exists pieces, s, e, c :: IsLog(lines, digest, pieces, s, e, c)
  {
    hide Parsed, IsLog;
    if Parsed(lines, digest).Ok? {
      var pieces, s, e, c := AcceptedLogIsComplete(lines, digest);
      assert IsLog(lines, digest, pieces, s, e, c);
    }
    if exists pieces, s, e, c :: IsLog(lines, digest, pieces, s, e, c) {
      var pieces, s, e, c :| IsLog(lines, digest, pieces, s, e, c);
      CompleteLogIsAccepted(lines, digest, pieces, s, e, c);
    }
  }
}
