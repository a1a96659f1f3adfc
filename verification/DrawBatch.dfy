/** The command-arena chain of native/draw_batch_ps5.c as functions on values.
    The class in DrawBatchChains does the same on fields and arrays. */
module DrawBatch {
  import opened Words
  import opened CommandArenas

  const BATCH_MAX: nat := 512
  const INITIAL_RESERVE: nat := 512
  const ACQUIRE_WORDS: nat := 10
  const RELEASE_WORDS: nat := 8
  /** Words the open arena must keep free for its own release packet. */
  const TAIL_WORDS: nat := RELEASE_WORDS
  /** What one arena can carry between its acquire and its release. */
  const PAYLOAD_WORDS: nat := ARENA_WORDS - ACQUIRE_WORDS - TAIL_WORDS

  // ----- packets (src/graphics_sync.c)

  const ACQUIRE: seq<Word> := [0xc0004200, 0, 0xc0065800, 0, 0xffffffff, 0xff, 0, 0, 10, 0x4381]

  function ReleasePacket(label_: nat, serial: nat): seq<Word> {
    [0xc0064900, 0x0070f514, 0x42010000, Low(label_), High(label_), Low(serial), High(serial), 0]
  }

  /** When the release writer refuses: no room, nothing to signal, a label the
      packet cannot address, or a label inside the packet itself. */
  predicate ReleaseRefused(start: nat, room: nat, label_: nat, serial: nat) {
    || room < RELEASE_WORDS || serial == 0 || label_ == 0
    || label_ % 8 != 0 || label_ > ADDRESS_LIMIT - 8
    || start > SIZE_MAX - 32 || (label_ < start + 32 && label_ + 8 > start)
  }

  // ----- the chain

  /** A word pointer into the memory of one arena of the chain. */
  datatype Pointer = Null | At(arena: nat, word: nat)

  datatype Chain = Chain(
    slots: seq<Slot>,
    memory: seq<seq<Word>>,
    words: seq<nat>,
    count: nat,
    closed: nat,
    serial: nat,
    cursor: Pointer,
    end: Pointer,
    reserve: nat)

  function Repeat<T>(x: T, n: nat): (s: seq<T>)
    ensures |s| == n && forall i | 0 <= i < n :: s[i] == x
  {
    if n == 0 then [] else Repeat(x, n - 1) + [x]
  }

  function EmptyChain(serial: nat, reserve: nat): Chain {
    Chain(Repeat(EMPTY_SLOT, BATCH_MAX), Repeat([], BATCH_MAX), Repeat(0, BATCH_MAX), 0, 0, serial, Null, Null, reserve)
  }

  function Zeroed(): seq<Word> { Repeat(0, MEMORY_WORDS) }

  predicate Shaped(c: Chain) {
    && |c.slots| == BATCH_MAX && |c.memory| == BATCH_MAX && |c.words| == BATCH_MAX
    && c.closed <= c.count && c.count <= BATCH_MAX
  }

  predicate HasOpenArena(c: Chain) { c.count > 0 && c.closed < c.count }

  /** The cursor is a pointer a caller may write through. */
  predicate Writable(c: Chain) {
    && Shaped(c) && HasOpenArena(c)
    && c.cursor.At? && c.end == At(c.count - 1, ARENA_WORDS)
    && c.cursor.arena == c.count - 1 && c.cursor.word <= ARENA_WORDS
    && |c.memory[c.count - 1]| == MEMORY_WORDS
  }

  /** While an arena is open the cursor, if there is one, points into it. */
  predicate Sound(c: Chain) { HasOpenArena(c) && c.cursor.At? ==> Writable(c) }

  function Room(c: Chain): nat
    requires Writable(c)
  {
    c.end.word - c.cursor.word
  }

  /** Writing words at the cursor without moving it. */
  function Scribble(c: Chain, ws: seq<Word>): Chain
    requires Writable(c) && |ws| <= Room(c)
  {
    Chain(c.slots, c.memory[c.count - 1 := Overwrite(c.memory[c.count - 1], c.cursor.word, ws)], c.words, c.count,
          c.closed, c.serial, c.cursor, c.end, c.reserve)
  }

  /** Writing words at the cursor and stepping past them. */
  function Write(c: Chain, ws: seq<Word>): Chain
    requires Writable(c) && |ws| <= Room(c)
  {
    Scribble(c, ws).(cursor := At(c.cursor.arena, c.cursor.word + |ws|))
  }

  /** The failed creation of the next arena: its record joins the chain only if
      it still owns something. */
  function KeepFailed(c: Chain, s: Slot): Chain
    requires Shaped(c) && c.count < BATCH_MAX
  {
    c.(slots := c.slots[c.count := s], count := if Owns(s) then c.count + 1 else c.count)
  }

  /** The next arena, created and zeroed, with the cursor at its first word. */
  function Adopt(c: Chain, s: Slot): Chain
    requires Shaped(c) && c.count < BATCH_MAX
  {
    Chain(c.slots[c.count := s], c.memory[c.count := Zeroed()], c.words, c.count + 1, c.closed, c.serial,
          At(c.count, 0), At(c.count, ARENA_WORDS), c.reserve)
  }

  /** A chain, the ledger it leaves and what the call returned. */
  datatype Outcome = Outcome(chain: Chain, ledger: Ledger, rc: VkResult)

  function StartArena(c: Chain, l: Ledger, r: CreateReply): Outcome
    requires Shaped(c)
  {
    if c.count >= BATCH_MAX then Outcome(c, l, OutOfDeviceMemory)
    else
      var made := Create(c.slots[c.count], l, r);
      if made.2 != Success then Outcome(KeepFailed(c, made.0), made.1, made.2)
      else Outcome(Write(Adopt(c, made.0), ACQUIRE), made.1, Success)
  }

  predicate SealRefused(c: Chain)
    requires Writable(c)
  {
    var s := c.slots[c.count - 1];
    || !s.mapped || s.uncertain
    || ReleaseRefused(s.address + 4 * c.cursor.word, Room(c), Label(s), c.serial)
  }

  /** The open arena after its release packet is written and its length recorded. */
  function Sealed(c: Chain): Chain
    requires Writable(c) && RELEASE_WORDS <= Room(c)
  {
    var written := Scribble(c, ReleasePacket(Label(c.slots[c.count - 1]), c.serial));
    Chain(c.slots, written.memory, c.words[c.count - 1 := c.cursor.word + RELEASE_WORDS], c.count, c.closed + 1,
          c.serial, Null, Null, c.reserve)
  }

  function SealArena(c: Chain, l: Ledger): Outcome {
    if !Writable(c) || SealRefused(c) then Outcome(c, l, Unknown) else Outcome(Sealed(c), l, Success)
  }

  // ----- the public calls

  function Open(c: Chain, l: Ledger, serial: nat, r: CreateReply): Outcome
    requires Shaped(c)
  {
    if serial == 0 || c.count != 0 then Outcome(c, l, Unknown)
    else StartArena(EmptyChain(serial, INITIAL_RESERVE), l, r)
  }

  function Reserve(c: Chain, l: Ledger, need: nat, r: CreateReply): Outcome
    requires Shaped(c)
  {
    if !Writable(c) then Outcome(c, l, Unknown)
    else if need > PAYLOAD_WORDS then Outcome(c, l, OutOfHostMemory)
    else if Room(c) >= need + TAIL_WORDS then Outcome(c, l, Success)
    else if SealRefused(c) then Outcome(c, l, Unknown)
    else
      var next := StartArena(Sealed(c), l, r);
      if next.rc != Success then next
      else if Writable(next.chain) && Room(next.chain) >= need + TAIL_WORDS then next
      else Outcome(next.chain, next.ledger, OutOfHostMemory)
  }

  /** The origin is handed back: it follows the cursor into the new arena. */
  function Retry(c: Chain, l: Ledger, origin: Pointer, r: CreateReply): (Outcome, Pointer)
    requires Shaped(c)
  {
    if !HasOpenArena(c) || origin.Null? || origin != c.cursor || c.cursor == At(c.count - 1, ACQUIRE_WORDS) then
      (Outcome(c, l, Unknown), origin)
    else
      var next := Reserve(c, l, PAYLOAD_WORDS, r);
      (next, if next.rc == Success then next.chain.cursor else origin)
  }

  function Measured(c: Chain, words: nat): Chain {
    if words > c.reserve then c.(reserve := words) else c
  }

  function Close(c: Chain, l: Ledger): Outcome {
    SealArena(c, l)
  }

  /** Releasing slots i and up; `rc` is the last failure met so far. */
  function ReleaseFrom(slots: seq<Slot>, count: nat, l: Ledger, rs: seq<ReleaseReply>, i: nat, rc: VkResult)
    : (seq<Slot>, Ledger, VkResult)
    requires i <= count <= |slots| && count <= |rs|
    decreases count - i
  {
    if i == count then (slots, l, rc)
    else
      var one := CommandArenas.Release(slots[i], l, rs[i]);
      ReleaseFrom(slots[i := one.0], count, one.1, rs, i + 1, if one.2 == Success then rc else one.2)
  }

  function ReleaseAll(c: Chain, l: Ledger, rs: seq<ReleaseReply>): Outcome
    requires Shaped(c) && c.count <= |rs|
  {
    var all := ReleaseFrom(c.slots, c.count, l, rs, 0, Success);
    Outcome(if all.2 == Success then EmptyChain(0, 0) else c.(slots := all.0), all.1, all.2)
  }

  // ----- what the kernel is asked

  function StartCalls(c: Chain, r: CreateReply): seq<Call>
    requires Shaped(c)
  {
    if c.count >= BATCH_MAX then [] else CreateCalls(c.slots[c.count], r)
  }

  function OpenCalls(c: Chain, serial: nat, r: CreateReply): seq<Call> {
    if serial == 0 || c.count != 0 then [] else CreateCalls(EMPTY_SLOT, r)
  }

  /** The need does not fit behind the cursor, and the open arena can be sealed. */
  predicate Splits(c: Chain, need: nat) {
    Writable(c) && need <= PAYLOAD_WORDS && Room(c) < need + TAIL_WORDS && !SealRefused(c)
  }

  function ReserveCalls(c: Chain, need: nat, r: CreateReply): seq<Call>
    requires Shaped(c)
  {
    if Splits(c, need) then StartCalls(c, r) else []
  }

  function RetryCalls(c: Chain, origin: Pointer, r: CreateReply): seq<Call>
    requires Shaped(c)
  {
    if !HasOpenArena(c) || origin.Null? || origin != c.cursor || c.cursor == At(c.count - 1, ACQUIRE_WORDS) then []
    else ReserveCalls(c, PAYLOAD_WORDS, r)
  }

  /** The calls of the first n records' releases, record by record. */
  function ReleaseAllCalls(slots: seq<Slot>, rs: seq<ReleaseReply>, n: nat): seq<Call>
    requires n <= |slots| && n <= |rs|
  {
    if n == 0 then [] else ReleaseAllCalls(slots, rs, n - 1) + ReleaseCalls(slots[n - 1], rs[n - 1])
  }
}
