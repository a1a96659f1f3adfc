/** Uniform DMA fills: the packets of src/texture_dma.c and what they do to memory. */
module DmaFill {
  import opened Words

  /** The most bytes one packet fills. */
  const CHUNK: nat := 0x1f_fffc
  const PACKET_WORDS: nat := 7

  // ----- writing packets

  /** One packet for every CHUNK bytes begun. */
  function Packets(bytes: nat): nat {
    if bytes == 0 then 0 else if bytes <= CHUNK then 1 else 1 + Packets(bytes - CHUNK)
  }

  lemma {:induction false} PacketsIsCeiling(bytes: nat)
    ensures Packets(bytes) == bytes / CHUNK + if bytes % CHUNK != 0 then 1 else 0
  {
    if bytes > CHUNK {
      PacketsIsCeiling(bytes - CHUNK);
      assert bytes / CHUNK == (bytes - CHUNK) / CHUNK + 1 && bytes % CHUNK == (bytes - CHUNK) % CHUNK;
    }
  }

  function Packet(destination: nat, n: nat, value: Word, last: bool): (p: seq<Word>)
    requires n <= CHUNK
    ensures |p| == PACKET_WORDS
  {
    [0xc005_5000, if last then 0xc030_0000 else 0x4030_0000, value, 0, Low(destination), High(destination), n]
  }

  /** The packets that fill `bytes` bytes from `destination` on. */
  function FillWords(destination: nat, bytes: nat, value: Word): seq<Word>
    decreases bytes
  {
    if bytes == 0 then []
    else if bytes <= CHUNK then Packet(destination, bytes, value, true)
    else Packet(destination, CHUNK, value, false) + FillWords(destination + CHUNK, bytes - CHUNK, value)
  }

  lemma {:induction false} FillLength(destination: nat, bytes: nat, value: Word)
    ensures |FillWords(destination, bytes, value)| == PACKET_WORDS * Packets(bytes)
    decreases bytes
  {
    if bytes > CHUNK {
      FillLength(destination + CHUNK, bytes - CHUNK, value);
    }
  }

  /** What the packet writer refuses. */
  predicate FillRefused(capacity: nat, destination: nat, bytes: nat) {
    || destination == 0 || destination >= ADDRESS_LIMIT || destination % 4 != 0 || bytes == 0 || bytes % 4 != 0
    || bytes > ADDRESS_LIMIT - destination || Packets(bytes) > capacity / PACKET_WORDS
  }

  /** A fill is written exactly when it is a non-empty dword aligned range between
      zero and the address limit whose packets fit the room. */
  lemma FillRefusedIff(capacity: nat, destination: nat, bytes: nat)
    ensures !FillRefused(capacity, destination, bytes) <==>
      && 0 < destination && destination % 4 == 0 && 0 < bytes && bytes % 4 == 0
      && destination + bytes <= 0x1_0000_0000_0000 && PACKET_WORDS * Packets(bytes) <= capacity
  {
  }

  /** Writes the packets from out[at] on, or nothing. */
  method WriteFill(out: array<Word>, at: nat, capacity: nat, destination: nat, bytes: nat, value: Word)
    returns (words: nat)
    requires at + capacity <= out.Length
    modifies out
    ensures words == if FillRefused(capacity, destination, bytes) then 0 else PACKET_WORDS * Packets(bytes)
    ensures words <= capacity && |FillWords(destination, bytes, value)| == PACKET_WORDS * Packets(bytes)
    ensures words == 0 ==> out[..] == old(out[..])
    ensures words > 0 ==> out[..] == Overwrite(old(out[..]), at, FillWords(destination, bytes, value))
  {
    FillLength(destination, bytes, value);
    if destination == 0 || destination >= ADDRESS_LIMIT || destination % 4 != 0 || bytes == 0 || bytes % 4 != 0
       || bytes > ADDRESS_LIMIT - destination {
      return 0;
    }
    var packets := bytes / CHUNK + if bytes % CHUNK != 0 then 1 else 0;
    PacketsIsCeiling(bytes);
    if packets > capacity / PACKET_WORDS {
      return 0;
    }
    WritePackets(out, at, packets, destination, bytes, value);
    words := packets * PACKET_WORDS;
  }

  method WritePackets(out: array<Word>, at: nat, packets: nat, destination: nat, bytes: nat, value: Word)
    requires packets == Packets(bytes) && |FillWords(destination, bytes, value)| == PACKET_WORDS * packets
    requires at + PACKET_WORDS * packets <= out.Length
    modifies out
    ensures out[..] == Overwrite(old(out[..]), at, FillWords(destination, bytes, value))
  {
    ghost var all := FillWords(destination, bytes, value);
    var i: nat, k: nat, to: nat, left: nat := 0, 0, destination, bytes;
    while i < packets
      invariant i <= packets && Packets(left) == packets - i && k == PACKET_WORDS * i <= |all|
      invariant FillWords(to, left, value) == all[k..]
      invariant out[..] == Overwrite(old(out[..]), at, all[..k])
    {
      to, left := WriteNext(out, at, to, left, value, i + 1 == packets, k, all);
      OverwriteNext(old(out[..]), at, all, k, k + PACKET_WORDS);
      i, k := i + 1, k + PACKET_WORDS;
    }
    assert all[..k] == all;
  }

  /** One turn of the loop: the packet at word k of `all` goes to its place. */
  method WriteNext(out: array<Word>, at: nat, to: nat, left: nat, value: Word, last: bool, k: nat, ghost all: seq<Word>)
    returns (to': nat, left': nat)
    requires k <= |all| && FillWords(to, left, value) == all[k..]
    requires Packets(left) > 0 && last == (Packets(left) == 1) && at + |all| <= out.Length
    modifies out
    ensures k + PACKET_WORDS <= |all| && Packets(left') == Packets(left) - 1
    ensures FillWords(to', left', value) == all[k + PACKET_WORDS..]
    ensures out[..] == Overwrite(old(out[..]), at + k, all[k..k + PACKET_WORDS])
  {
    FirstPacket(to, left, value, all, k);
    var n := if left > CHUNK then CHUNK else left;
    WritePacket(out, at + k, to, n, value, last);
    to', left' := to + n, left - n;
  }

  lemma FirstPacket(to: nat, left: nat, value: Word, all: seq<Word>, k: nat)
    requires k <= |all| && FillWords(to, left, value) == all[k..] && Packets(left) > 0
    ensures left > 0 && k + PACKET_WORDS <= |all|
    ensures var n := if left > CHUNK then CHUNK else left;
            && all[k..k + PACKET_WORDS] == Packet(to, n, value, Packets(left) == 1)
            && FillWords(to + n, left - n, value) == all[k + PACKET_WORDS..]
            && Packets(left - n) == Packets(left) - 1
  {
    var n := if left > CHUNK then CHUNK else left;
    var packet := Packet(to, n, value, left <= CHUNK);
    var rest := FillWords(to + n, left - n, value);
    assert all[k..] == packet + rest;
    assert all[k..k + PACKET_WORDS] == all[k..][..PACKET_WORDS] == packet;
    assert all[k + PACKET_WORDS..] == all[k..][PACKET_WORDS..] == rest;
  }

  lemma OverwriteNext(memory: seq<Word>, at: nat, ws: seq<Word>, k: nat, m: nat)
    requires k <= m <= |ws| && at + |ws| <= |memory|
    ensures Overwrite(Overwrite(memory, at, ws[..k]), at + k, ws[k..m]) == Overwrite(memory, at, ws[..m])
  {
    assert ws[..m] == ws[..k] + ws[k..m];
  }

  method WritePacket(out: array<Word>, at: nat, destination: nat, n: nat, value: Word, last: bool)
    requires at + PACKET_WORDS <= out.Length && n <= CHUNK
    modifies out
    ensures out[..] == Overwrite(old(out[..]), at, Packet(destination, n, value, last))
  {
    out[at], out[at + 1], out[at + 2], out[at + 3] := 0xc005_5000, if last then 0xc030_0000 else 0x4030_0000, value, 0;
    out[at + 4], out[at + 5], out[at + 6] := Low(destination), High(destination), n;
  }

  // ----- what packets do

  datatype Fill = Fill(address: nat, bytes: nat, value: Word)

  predicate StartsWithPacket(ws: seq<Word>) {
    && |ws| >= PACKET_WORDS && ws[0] == 0xc005_5000 && (ws[1] == 0x4030_0000 || ws[1] == 0xc030_0000)
    && ws[3] == 0
  }

  function FirstFill(ws: seq<Word>): Fill
    requires StartsWithPacket(ws)
  {
    Fill(ws[4] + U32 * ws[5], ws[6], ws[2])
  }

  /** Reading packets back; None when the words are not fill packets. */
  function Decode(ws: seq<Word>): Option<seq<Fill>> {
    if ws == [] then Some([])
    else if !StartsWithPacket(ws) then None
    else
      var rest := Decode(ws[PACKET_WORDS..]);
      if rest.None? then None else Some([FirstFill(ws)] + rest.value)
  }

  predicate Covers(f: Fill, a: nat) { f.address <= a < f.address + f.bytes }

  /** How many fills write byte a. */
  function Writes(fs: seq<Fill>, a: nat): nat {
    if fs == [] then 0 else (if Covers(fs[0], a) then 1 else 0) + Writes(fs[1..], a)
  }

  /** The dword that byte a belongs to, after the fills have run in order. */
  function After(fs: seq<Fill>, a: nat, before: Word): Word {
    if fs == [] then before else After(fs[1..], a, if Covers(fs[0], a) then fs[0].value else before)
  }

  lemma {:induction false} DecodeAppend(a: seq<Word>, b: seq<Word>)
    requires Decode(a).Some? && Decode(b).Some?
    ensures Decode(a + b) == Some(Decode(a).value + Decode(b).value)
    decreases |a|
  {
    if a == [] {
      assert a + b == b;
      assert Decode(a).value + Decode(b).value == Decode(b).value;
    } else {
      var tail := a[PACKET_WORDS..];
      DecodeAppend(tail, b);
      assert (a + b)[PACKET_WORDS..] == tail + b;
      assert FirstFill(a + b) == FirstFill(a);
      assert [FirstFill(a)] + (Decode(tail).value + Decode(b).value) == Decode(a).value + Decode(b).value;
    }
  }

  lemma {:induction false} WritesAppend(a: seq<Fill>, b: seq<Fill>, at: nat)
    ensures Writes(a + b, at) == Writes(a, at) + Writes(b, at)
    decreases |a|
  {
    if a == [] {
      assert a + b == b;
    } else {
      WritesAppend(a[1..], b, at);
      assert (a + b)[1..] == a[1..] + b;
    }
  }

  /** The fills of one value write it, and nothing else, where any of them lands. */
  lemma {:induction false} AfterFills(fs: seq<Fill>, a: nat, before: Word, value: Word)
    requires forall i | 0 <= i < |fs| :: fs[i].value == value
    ensures After(fs, a, before) == if Writes(fs, a) > 0 then value else before
    decreases |fs|
  {
    if fs != [] {
      AfterFills(fs[1..], a, if Covers(fs[0], a) then value else before, value);
    }
  }

  lemma PacketDecodes(destination: nat, n: nat, value: Word, last: bool, rest: seq<Word>)
    requires n <= CHUNK && destination < U64 && Decode(rest).Some?
    ensures var words := Packet(destination, n, value, last) + rest;
      Decode(words) == Some([Fill(destination, n, value)] + Decode(rest).value)
  {
    HalvesRejoin(destination);
    var packet := Packet(destination, n, value, last);
    assert (packet + rest)[PACKET_WORDS..] == rest;
  }

  /** The fills a range is cut into. */
  function Chunks(destination: nat, bytes: nat, value: Word): seq<Fill>
    decreases bytes
  {
    if bytes == 0 then []
    else if bytes <= CHUNK then [Fill(destination, bytes, value)]
    else [Fill(destination, CHUNK, value)] + Chunks(destination + CHUNK, bytes - CHUNK, value)
  }

  lemma {:induction false} FillDecodes(destination: nat, bytes: nat, value: Word)
    requires destination + bytes <= ADDRESS_LIMIT
    ensures Decode(FillWords(destination, bytes, value)) == Some(Chunks(destination, bytes, value))
    decreases bytes
  {
    if bytes > CHUNK {
      FillDecodes(destination + CHUNK, bytes - CHUNK, value);
      PacketDecodes(destination, CHUNK, value, false, FillWords(destination + CHUNK, bytes - CHUNK, value));
    } else if bytes > 0 {
      PacketDecodes(destination, bytes, value, true, []);
      assert Packet(destination, bytes, value, true) + [] == Packet(destination, bytes, value, true);
      assert [Fill(destination, bytes, value)] + [] == Chunks(destination, bytes, value);
    }
  }

  /** The chunks of a range fill exactly that range, each byte once. */
  lemma {:induction false} ChunksAreExact(destination: nat, bytes: nat, value: Word, a: nat)
    ensures forall i | 0 <= i < |Chunks(destination, bytes, value)| ::
      Chunks(destination, bytes, value)[i].value == value
    ensures Writes(Chunks(destination, bytes, value), a) == if destination <= a < destination + bytes then 1 else 0
    decreases bytes
  {
    if bytes > CHUNK {
      ChunksAreExact(destination + CHUNK, bytes - CHUNK, value, a);
      assert Chunks(destination, bytes, value)[1..] == Chunks(destination + CHUNK, bytes - CHUNK, value);
    }
  }

  /** Of the packets of a range only the last asks the engine to wait: bit 31 of its
      second word is set, and in no other packet's. */
  lemma {:induction false} OnlyLastWaits(destination: nat, bytes: nat, value: Word, i: nat)
    requires i < Packets(bytes)
    ensures var words := FillWords(destination, bytes, value);
      && PACKET_WORDS * i + PACKET_WORDS <= |words|
      && (words[PACKET_WORDS * i + 1] >= 0x8000_0000 <==> i == Packets(bytes) - 1)
    decreases bytes
  {
    FillLength(destination, bytes, value);
    if bytes > CHUNK {
      var first, rest := Packet(destination, CHUNK, value, false), FillWords(destination + CHUNK, bytes - CHUNK, value);
      assert FillWords(destination, bytes, value) == first + rest;
      if i > 0 {
        OnlyLastWaits(destination + CHUNK, bytes - CHUNK, value, i - 1);
        assert (first + rest)[PACKET_WORDS * i + 1] == rest[PACKET_WORDS * (i - 1) + 1];
      }
    }
  }
}
