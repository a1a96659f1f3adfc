/** Preparing a draw in one allocation, and giving the allocation back whenever a
    later step fails (native/draw_prepare_ps5.c). */
module DrawPrepare {
  import opened DrawContents
  import opened DrawLayout
  import opened Words

  // ----- the memory backend

  /** What a backend was asked and answered. */
  datatype Answer =
    | Allocated(bytes: nat, rc: VkResult, address: nat, backing: nat)
    | Flushed(backing: nat, rc: VkResult)

  /** A backend that may refuse, hand out an unusable address or fail to flush. It
      keeps what it has granted, what has been given back and what it answered. */
  class Backend {
    ghost var answers: seq<Answer>
    ghost var live: set<nat>
    ghost var granted: seq<nat>
    ghost var released: seq<nat>
    var next: nat

    ghost predicate Valid()
      reads this
    {
      next > 0 && forall b | b in live :: b < next
    }

    constructor ()
      ensures Valid() && live == {} && granted == released == [] && answers == []
    {
      live, granted, released, next, answers := {}, [], [], 1, [];
    }

    /** The memory at the address comes with it, holding anything. */
    method Allocate(bytes: nat) returns (rc: VkResult, address: nat, backing: nat, block: array<Byte>)
      requires Valid()
      modifies this
      ensures Valid() && released == old(released)
      ensures rc == Success && backing != 0 ==>
        backing !in old(live) && live == old(live) + {backing} && granted == old(granted) + [backing]
      ensures rc != Success || backing == 0 ==> live == old(live) && granted == old(granted)
      ensures fresh(block) && block.Length == bytes
      ensures answers == old(answers) + [Allocated(bytes, rc, address, backing)]
    {
      block := new Byte[bytes];
      var where: int, ok: bool, empty: bool := *, *, *;
      address, backing := if where < 0 then 0 else where, 0;
      rc := if ok then Success else OutOfDeviceMemory;
      if ok && !empty {
        backing := next;
        live, granted, next := live + {backing}, granted + [backing], next + 1;
      }
      answers := answers + [Allocated(bytes, rc, address, backing)];
    }

    /** Only what is held is given back, and so nothing twice. */
    method Release(backing: nat)
      requires Valid() && backing in live
      modifies this
      ensures Valid() && live == old(live) - {backing}
      ensures released == old(released) + [backing] && granted == old(granted) && answers == old(answers)
    {
      live, released := live - {backing}, released + [backing];
    }

    method Flush(backing: nat) returns (rc: VkResult)
      requires Valid()
      modifies this
      ensures Valid() && live == old(live) && granted == old(granted) && released == old(released)
      ensures answers == old(answers) + [Flushed(backing, rc)]
    {
      var ok: bool := *;
      rc := if ok then Success else DeviceLost;
      answers := answers + [Flushed(backing, rc)];
    }
  }

  // ----- records

  /** A prepared draw: the addresses of its parts; zero where there is none. */
  datatype Prepared = Prepared(state: nat, backing: nat, bytes: nat, vertexTable: nat, tables: seq<nat>,
    bounce: nat, bounceBytes: nat)

  const EMPTY: Prepared := Prepared(0, 0, 0, 0, [0, 0, 0, 0], 0, 0)

  /** The caller's record, and the memory its addresses lead to. */
  class Draw {
    var record: Prepared
    var block: array?<Byte>

    constructor ()
      ensures record == EMPTY && block == null
    {
      record, block := EMPTY, null;
    }
  }

  method ReleaseDraw(memory: Backend, draw: Draw)
    requires memory.Valid() && (draw.record.backing != 0 ==> draw.record.backing in memory.live)
    modifies memory, draw
    ensures memory.Valid() && draw.record == EMPTY && draw.block == null && memory.granted == old(memory.granted)
    ensures var backing := old(draw.record.backing);
      && memory.live == old(memory.live) - (if backing != 0 then {backing} else {})
      && memory.released == old(memory.released) + if backing != 0 then [backing] else []
  {
    if draw.record.backing != 0 {
      memory.Release(draw.record.backing);
    }
    draw.record, draw.block := EMPTY, null;
  }

  // ----- what the parts must satisfy

  predicate UsableAddress(address: nat, bytes: nat) {
    address != 0 && address % 8 == 0 && address < ADDRESS_LIMIT && bytes <= ADDRESS_LIMIT - address
  }

  /** A table the shader can reach: aligned, and all of it in the shader's own
      four-gigabyte window. */
  predicate TableReachable(shader: nat, table: nat, bytes: nat) {
    && 0 < shader < ADDRESS_LIMIT && 0 < table < ADDRESS_LIMIT && table % 16 == 0
    && bytes != 0 && bytes % 16 == 0 && bytes <= ADDRESS_LIMIT - table
    && shader / U32 == table / U32 == (table + bytes - 1) / U32
  }

  /** A set's table can be reached and every descriptor in it encodes. */
  predicate SetPopulates(shader: nat, address: nat, bytes: Option<nat>, offset: nat, rs: seq<Record>) {
    bytes.Some? ==>
      && TableReachable(shader, address + offset, bytes.value)
      && forall e | 0 <= e < |rs| :: rs[e].answer == Success
  }

  /** The first answer from e on that is no success. */
  function FirstRefusal(rs: seq<Record>, e: nat): VkResult
    requires e <= |rs|
    decreases |rs| - e
  {
    if e == |rs| then Success else if rs[e].answer != Success then rs[e].answer else FirstRefusal(rs, e + 1)
  }

  /** What one set makes the loop return, if it stops there. */
  function SetResult(size: Option<nat>, offset: nat, address: nat, shader: nat, rs: seq<Record>): VkResult {
    if size.None? then Success
    else if !TableReachable(shader, address + offset, size.value) then MapFailed
    else FirstRefusal(rs, 0)
  }

  /** What the set loop returns from set s on. */
  function SetsResult(sets: seq<Option<nat>>, offsets: seq<nat>, address: nat, shader: nat,
      records: seq<seq<Record>>, s: nat): VkResult
    requires s <= |sets| == |offsets| == |records|
    decreases |sets| - s
  {
    if s == |sets| then Success
    else
      var here := SetResult(sets[s], offsets[s], address, shader, records[s]);
      if here != Success then here else SetsResult(sets, offsets, address, shader, records, s + 1)
  }

  predicate PushReachable(address: nat, push: nat, bytes: nat) { bytes > 0 ==> (address + push) / U32 == 2 }

  predicate Populates(n: Needs, c: Contents, layout: Layout, address: nat, shader: nat)
    requires LayoutOf(n) == Some(layout) && |n.sets| == |layout.sets| == |c.records|
  {
    && PushReachable(address, layout.push, n.push)
    && (n.vertices.Some? ==>
          && TableReachable(shader, address + layout.table, RECORD * |n.vertices.value|)
          && Encodes(n, address, |Spans(n)|))
    && forall s | 0 <= s < |n.sets| :: SetPopulates(shader, address, n.sets[s], layout.sets[s], c.records[s])
  }

  /** A record that points where the layout says, in an allocation at its state. */
  predicate Placed(n: Needs, layout: Layout, record: Prepared)
    requires |n.sets| == |layout.sets| && |layout.bounce| == |Spans(n)|
  {
    && record.bytes == layout.bytes
    && record.vertexTable == (if n.vertices.Some? then record.state + layout.table else 0)
    && |record.tables| == |n.sets|
    && (forall s | 0 <= s < |n.sets| ::
          record.tables[s] == if n.sets[s].Some? then record.state + layout.sets[s] else 0)
    && record.bounce == FirstCopy(record.state, Spans(n), layout.bounce, |Spans(n)|)
    && record.bounceBytes == Copied(Spans(n), |Spans(n)|)
  }

  /** How many bytes of the first k bindings are copied, and where the first copy
      goes. */
  function Copied(spans: seq<Span>, k: nat): nat
    requires k <= |spans|
  {
    if k == 0 then 0 else Copied(spans, k - 1) + if Unaligned(spans[k - 1]) then spans[k - 1].bytes else 0
  }

  function FirstCopy(address: nat, spans: seq<Span>, offsets: seq<nat>, k: nat): nat
    requires k <= |spans| == |offsets|
  {
    if k == 0 then 0
    else if FirstCopy(address, spans, offsets, k - 1) != 0 then FirstCopy(address, spans, offsets, k - 1)
    else if Unaligned(spans[k - 1]) then address + offsets[k - 1] else 0
  }

  // ----- the steps

  /** A populating step has done these writes, and the memory shows it. */
  ghost predicate Written(block: array<Byte>, n: Needs, before: seq<Byte>, done: seq<Write>)
    reads block
  {
    && LayoutOf(n).Some? && block.Length == |before| == LayoutOf(n).value.bytes && AllFit(n, done)
    && block[..] == Apply(n, before, done)
  }

  /** One write, into the part it is meant for. */
  method Perform(block: array<Byte>, at: nat, bytes: seq<Byte>, ghost n: Needs, ghost before: seq<Byte>,
      ghost done: seq<Write>, ghost w: Write)
    requires Written(block, n, before, done) && Fits(n, w) && at == Place(n, w.part) + w.at && bytes == w.bytes
    modifies block
    ensures Written(block, n, before, done + [w])
  {
    hide LayoutOf, Apply, Place, PartBytes, HasPart;
    ApplySnoc(n, before, done, w);
    CopyInto(block, at, bytes);
  }

  method PopulateState(block: array<Byte>, n: Needs, c: Contents, ghost before: seq<Byte>)
    requires ValidContents(n, c) && Written(block, n, before, [])
    modifies block
    ensures Written(block, n, before, StateWrites(n, c))
  {
    Perform(block, 0, c.state, n, before, [], Write(State, 0, c.state));
    assert [] + StateWrites(n, c) == StateWrites(n, c);
  }

  method PopulatePush(block: array<Byte>, n: Needs, c: Contents, layout: Layout, address: nat, ghost before: seq<Byte>,
      ghost done: seq<Write>)
    returns (ok: bool)
    requires LayoutOf(n) == Some(layout) && ValidContents(n, c) && Written(block, n, before, done)
    modifies block
    ensures ok == PushReachable(address, layout.push, n.push)
    ensures ok ==> Written(block, n, before, done + PushWrites(n, c, address))
  {
    hide Apply, AllFit, ValidContents;
    if n.push == 0 {
      assert done + [] == done;
      return true;
    }
    if (address + layout.push) / U32 != 2 {
      return false;
    }
    ghost var ws := PushWrites(n, c, address);
    PushFits(n, c, address);
    Perform(block, layout.push, c.push, n, before, done, ws[0]);
    Perform(block, c.low, Bytes((address + layout.push) % U32), n, before, done + [ws[0]], ws[1]);
    assert done + [ws[0]] + [ws[1]] == done + ws;
    ok := true;
  }

  lemma PushFits(n: Needs, c: Contents, address: nat)
    requires LayoutOf(n).Some? && ValidContents(n, c) && n.push > 0
    ensures var ws := PushWrites(n, c, address);
      && Fits(n, ws[0]) && Fits(n, ws[1])
      && Place(n, Push) == LayoutOf(n).value.push && Place(n, State) == 0
  {
    hide LayoutOf;
  }

  /** One vertex binding: its copy, if it needs one, and its record. */
  method PopulateBinding(block: array<Byte>, n: Needs, c: Contents, layout: Layout, address: nat, i: nat,
      ghost before: seq<Byte>, ghost done: seq<Write>)
    returns (ok: bool)
    requires LayoutOf(n) == Some(layout) && ValidContents(n, c) && i < |Spans(n)| == |layout.bounce|
    requires Written(block, n, before, done)
    modifies block
    ensures ok == BindingEncodes(address, Spans(n)[i], layout.bounce[i])
    ensures ok ==> Written(block, n, before, done + BindingWrites(n, c, address, i))
  {
    hide LayoutOf, Apply, Encodable, Descriptor;
    var v, words := Spans(n)[i], Zeros(RECORD);
    ghost var copied: seq<Write> := [];
    assert done + [] == done;
    if v.address != 0 {
      var source := v.address;
      if v.address % 4 != 0 {
        source := address + layout.bounce[i];
        copied := CopyWrites(n, c, i);
        BindingFits(n, c, i);
        Perform(block, layout.bounce[i], c.data[i], n, before, done, copied[0]);
      }
      if !Encodable(source, v) {
        return false;
      }
      words := Descriptor(source, v);
    }
    BindingFits(n, c, i);
    Perform(block, layout.table + RECORD * i, words, n, before, done + copied, RecordWrite(n, address, i));
    assert done + copied + [RecordWrite(n, address, i)] == done + BindingWrites(n, c, address, i);
    ok := true;
  }

  lemma BindingFits(n: Needs, c: Contents, i: nat)
    requires LayoutOf(n).Some? && ValidContents(n, c) && i < |Spans(n)|
    ensures HasPart(n, Table) && Place(n, Table) == LayoutOf(n).value.table
    ensures Unaligned(Spans(n)[i]) ==> HasPart(n, Copy(i)) && Place(n, Copy(i)) == CopyAt(n, i)
  {
    hide LayoutOf;
  }

  method PopulateVertices(block: array<Byte>, n: Needs, c: Contents, layout: Layout, address: nat,
      ghost before: seq<Byte>, ghost done: seq<Write>)
    returns (ok: bool, bounce: nat, bounceBytes: nat)
    requires LayoutOf(n) == Some(layout) && ValidContents(n, c) && |Spans(n)| == |layout.bounce|
    requires Written(block, n, before, done)
    modifies block
    ensures ok == Encodes(n, address, |Spans(n)|)
    ensures ok ==>
      && bounce == FirstCopy(address, Spans(n), layout.bounce, |Spans(n)|)
      && bounceBytes == Copied(Spans(n), |Spans(n)|)
      && Written(block, n, before, done + VertexWrites(n, c, address, |Spans(n)|))
  {
    hide LayoutOf, ValidContents, Apply, AllFit, BindingEncodes, BindingWrites;
    bounce, bounceBytes := 0, 0;
    var i := 0;
    assert done + VertexWrites(n, c, address, 0) == done;
    while i < |Spans(n)|
      invariant i <= |Spans(n)| && Encodes(n, address, i)
      invariant bounce == FirstCopy(address, Spans(n), layout.bounce, i) && bounceBytes == Copied(Spans(n), i)
      invariant Written(block, n, before, done + VertexWrites(n, c, address, i))
    {
      ghost var soFar := done + VertexWrites(n, c, address, i);
      ok := PopulateBinding(block, n, c, layout, address, i, before, soFar);
      if !ok {
        return false, bounce, bounceBytes;
      }
      if Unaligned(Spans(n)[i]) {
        if bounce == 0 {
          bounce := address + layout.bounce[i];
        }
        bounceBytes := bounceBytes + Spans(n)[i].bytes;
      }
      assert soFar + BindingWrites(n, c, address, i) == done + VertexWrites(n, c, address, i + 1);
      i := i + 1;
    }
    ok := true;
  }

  /** The descriptors of one set, after its table has been cleared. */
  method PopulateSet(block: array<Byte>, n: Needs, c: Contents, layout: Layout, s: nat, ghost before: seq<Byte>,
      ghost done: seq<Write>)
    returns (rc: VkResult)
    requires LayoutOf(n) == Some(layout) && ValidContents(n, c) && s < |n.sets| == |layout.sets| && n.sets[s].Some?
    requires Written(block, n, before, done)
    modifies block
    ensures rc == FirstRefusal(c.records[s], 0)
    ensures rc == Success <==> forall e | 0 <= e < |c.records[s]| :: c.records[s][e].answer == Success
    ensures rc == Success ==> Written(block, n, before, done + TableWrites(n, c, s))
  {
    hide LayoutOf, Apply, AllFit;
    ghost var cleared := done + [Write(Set(s), 0, Zeros(n.sets[s].value))];
    SetFits(n, c, s);
    Perform(block, layout.sets[s], Zeros(n.sets[s].value), n, before, done, Write(Set(s), 0, Zeros(n.sets[s].value)));
    var e := 0;
    assert cleared + RecordWrites(n, c, s, 0) == cleared;
    while e < |c.records[s]|
      invariant e <= |c.records[s]| && forall i | 0 <= i < e :: c.records[s][i].answer == Success
      invariant FirstRefusal(c.records[s], e) == FirstRefusal(c.records[s], 0)
      invariant Written(block, n, before, cleared + RecordWrites(n, c, s, e))
    {
      var r := c.records[s][e];
      if r.answer != Success {
        return r.answer;
      }
      RecordFits(n, c, s, e);
      ghost var soFar := cleared + RecordWrites(n, c, s, e);
      Perform(block, layout.sets[s] + r.at, r.bytes, n, before, soFar, Write(Set(s), r.at, r.bytes));
      assert soFar + [Write(Set(s), r.at, r.bytes)] == cleared + RecordWrites(n, c, s, e + 1);
      e := e + 1;
    }
    assert cleared + RecordWrites(n, c, s, e) == done + TableWrites(n, c, s);
    rc := Success;
  }

  lemma SetFits(n: Needs, c: Contents, s: nat)
    requires LayoutOf(n).Some? && s < |n.sets| == |LayoutOf(n).value.sets| && n.sets[s].Some?
    ensures HasPart(n, Set(s)) && Place(n, Set(s)) == LayoutOf(n).value.sets[s]
    ensures Fits(n, Write(Set(s), 0, Zeros(n.sets[s].value)))
  {
    hide LayoutOf;
  }

  lemma RecordFits(n: Needs, c: Contents, s: nat, e: nat)
    requires ValidContents(n, c) && s < |n.sets| && n.sets[s].Some? && e < |c.records[s]|
    ensures Fits(n, Write(Set(s), c.records[s][e].at, c.records[s][e].bytes))
  {
    assert InTable(c.records[s][e], n.sets[s].value);
  }

  /** One set, if the draw uses it. */
  method PopulateTable(block: array<Byte>, n: Needs, c: Contents, layout: Layout, address: nat, shader: nat, s: nat,
      ghost before: seq<Byte>, ghost done: seq<Write>)
    returns (rc: VkResult, table: nat)
    requires LayoutOf(n) == Some(layout) && ValidContents(n, c) && s < |n.sets| == |layout.sets|
    requires Written(block, n, before, done)
    modifies block
    ensures rc == SetResult(n.sets[s], layout.sets[s], address, shader, c.records[s])
    ensures rc == Success <==> SetPopulates(shader, address, n.sets[s], layout.sets[s], c.records[s])
    ensures rc == Success ==>
      && table == (if n.sets[s].Some? then address + layout.sets[s] else 0)
      && Written(block, n, before, done + TableWrites(n, c, s))
  {
    hide LayoutOf, Apply, AllFit, TableReachable, FirstRefusal, RecordWrites;
    if n.sets[s].None? {
      assert done + [] == done;
      return Success, 0;
    }
    table := address + layout.sets[s];
    if !TableReachable(shader, table, n.sets[s].value) {
      return MapFailed, table;
    }
    rc := PopulateSet(block, n, c, layout, s, before, done);
  }

  method PopulateSets(block: array<Byte>, n: Needs, c: Contents, layout: Layout, address: nat, shader: nat,
      ghost before: seq<Byte>, ghost done: seq<Write>)
    returns (rc: VkResult, tables: seq<nat>)
    requires LayoutOf(n) == Some(layout) && ValidContents(n, c) && |n.sets| == |layout.sets| == |c.records|
    requires Written(block, n, before, done)
    modifies block
    ensures rc == SetsResult(n.sets, layout.sets, address, shader, c.records, 0)
    ensures rc == Success <==>
      forall s | 0 <= s < |n.sets| :: SetPopulates(shader, address, n.sets[s], layout.sets[s], c.records[s])
    ensures rc == Success ==>
      && |tables| == |n.sets|
      && (forall s | 0 <= s < |n.sets| :: tables[s] == if n.sets[s].Some? then address + layout.sets[s] else 0)
      && Written(block, n, before, done + SetWrites(n, c, |n.sets|))
  {
    hide LayoutOf, Apply, AllFit, ValidContents, SetPopulates, SetResult, TableWrites;
    tables := [];
    var s := 0;
    assert done + SetWrites(n, c, 0) == done;
    while s < |n.sets|
      invariant s <= |n.sets| && |tables| == s
      invariant SetsResult(n.sets, layout.sets, address, shader, c.records, s)
                == SetsResult(n.sets, layout.sets, address, shader, c.records, 0)
      invariant forall t | 0 <= t < s :: SetPopulates(shader, address, n.sets[t], layout.sets[t], c.records[t])
      invariant forall t | 0 <= t < s :: tables[t] == if n.sets[t].Some? then address + layout.sets[t] else 0
      invariant Written(block, n, before, done + SetWrites(n, c, s))
    {
      ghost var soFar := done + SetWrites(n, c, s);
      var table;
      rc, table := PopulateTable(block, n, c, layout, address, shader, s, before, soFar);
      if rc != Success {
        return rc, tables;
      }
      assert soFar + TableWrites(n, c, s) == done + SetWrites(n, c, s + 1);
      tables, s := tables + [table], s + 1;
    }
    rc := Success;
  }

  /** Everything between the allocation and the flush. */
  method Populate(block: array<Byte>, n: Needs, c: Contents, layout: Layout, address: nat, backing: nat, shader: nat)
    returns (rc: VkResult, result: Prepared)
    requires LayoutOf(n) == Some(layout) && ValidContents(n, c) && block.Length == layout.bytes
    requires |n.sets| == |layout.sets| == |c.records| && |layout.bounce| == |Spans(n)|
    modifies block
    ensures rc == Success <==> Populates(n, c, layout, address, shader)
    ensures rc != Success ==> rc == MapFailed || rc == SetsResult(n.sets, layout.sets, address, shader, c.records, 0)
    ensures result.backing == backing && (rc == Success ==> result.state == address && Placed(n, layout, result))
    ensures rc == Success ==> Encodes(n, address, |Spans(n)|) && Holds(n, c, address, block[..])
  {
    hide LayoutOf, TableReachable, SetPopulates, ValidContents, Apply, AllFit, BindingEncodes, Holds;
    assert n.vertices.None? ==> Copied(Spans(n), 0) == 0 && FirstCopy(address, Spans(n), layout.bounce, 0) == 0;
    result := Prepared(address, backing, layout.bytes, 0, [0, 0, 0, 0], 0, 0);
    ghost var before := block[..];
    NothingWritten(block, n, before);
    PopulateState(block, n, c, before);
    ghost var done := StateWrites(n, c);
    var ok := PopulatePush(block, n, c, layout, address, before, done);
    if !ok {
      return MapFailed, result;
    }
    done := done + PushWrites(n, c, address);
    var table, bounce, bounceBytes := 0, 0, 0;
    if n.vertices.Some? {
      table := address + layout.table;
      if !TableReachable(shader, table, RECORD * |n.vertices.value|) {
        return MapFailed, result;
      }
      ok, bounce, bounceBytes := PopulateVertices(block, n, c, layout, address, before, done);
      if !ok {
        return MapFailed, result;
      }
    } else {
      assert done + VertexWrites(n, c, address, 0) == done;
    }
    done := done + VertexWrites(n, c, address, |Spans(n)|);
    var tables;
    rc, tables := PopulateSets(block, n, c, layout, address, shader, before, done);
    if rc == Success {
      result := Prepared(address, backing, layout.bytes, table, tables, bounce, bounceBytes);
      assert done + SetWrites(n, c, |n.sets|) == AllWrites(n, c, address);
      EverythingHolds(n, c, address, before);
    }
  }

  lemma NothingWritten(block: array<Byte>, n: Needs, before: seq<Byte>)
    requires LayoutOf(n).Some? && block.Length == LayoutOf(n).value.bytes && before == block[..]
    ensures Written(block, n, before, [])
  {
    hide LayoutOf;
  }

  /** The checks before the allocation let the draw through. */
  predicate MayAllocate(record: Prepared, early: VkResult, n: Needs, limit: nat) {
    && record.backing == 0 && record.state == 0 && early == Success
    && (n.vertices.Some? ==> 0 < |n.vertices.value| <= limit)
    && LayoutOf(n).Some?
  }

  /** The allocation came back usable and the draw populates it. */
  predicate Usable(n: Needs, c: Contents, shader: nat, a: Answer)
    requires LayoutOf(n).Some? && ValidContents(n, c)
  {
    LayoutLengths(n);
    && a.Allocated? && a.rc == Success && a.backing != 0 && UsableAddress(a.address, a.bytes)
    && Populates(n, c, LayoutOf(n).value, a.address, shader)
  }

  /** What the backend was asked for a draw, and what that makes of it: one allocation
      of the layout's size, a flush if everything was written, and success exactly when
      all of it went well. */
  predicate Answered(n: Needs, c: Contents, shader: nat, answers: seq<Answer>, rc: VkResult)
    requires LayoutOf(n).Some? && ValidContents(n, c)
  {
    && 1 <= |answers| <= 2 && answers[0].Allocated? && answers[0].bytes == LayoutOf(n).value.bytes
    && (|answers| == 2 <==> Usable(n, c, shader, answers[0]))
    && (|answers| == 2 ==> answers[1] == Flushed(answers[0].backing, rc))
    && (|answers| == 1 ==> rc != Success)
    && (answers[0].rc != Success ==> rc == answers[0].rc)
    && (answers[0].rc == Success && (answers[0].backing == 0 || !UsableAddress(answers[0].address, answers[0].bytes))
        ==> rc == MapFailed)
  }

  /** Prepares a draw. `early` is what the checks before the layout say, `limit` how
      many bindings there may be.
      A failure leaves the caller's record alone and every allocation given back;
      success leaves exactly one, recorded. */
  method PrepareDraw(memory: Backend, out: Draw, early: VkResult, n: Needs, c: Contents, limit: nat, shader: nat)
    returns (rc: VkResult)
    requires memory.Valid() && ValidNeeds(n) && ValidContents(n, c)
    modifies memory, out
    ensures memory.Valid()
    ensures var busy := old(out.record.backing) != 0 || old(out.record.state) != 0;
      var uncounted := n.vertices.Some? && (|n.vertices.value| == 0 || |n.vertices.value| > limit);
      && (busy ==> rc == Unknown) && (!busy && early != Success ==> rc == early)
      && (!busy && early == Success && uncounted ==> rc == Unknown)
      && (!busy && early == Success && !uncounted && LayoutOf(n).None? ==> rc == OutOfHostMemory)
    ensures var allocates := MayAllocate(old(out.record), early, n, limit);
      && old(memory.answers) <= memory.answers
      && (!allocates ==> memory.answers == old(memory.answers) && rc != Success)
      && (allocates ==> Answered(n, c, shader, memory.answers[|old(memory.answers)|..], rc))
    ensures rc != Success ==>
      && out.record == old(out.record) && out.block == old(out.block) && memory.live == old(memory.live)
      && exists given: seq<nat> ::
           && |given| <= 1 && memory.granted == old(memory.granted) + given
           && memory.released == old(memory.released) + given
    ensures rc == Success ==>
      && old(out.record.backing) == 0 && LayoutOf(n).Some?
      && memory.live == old(memory.live) + {out.record.backing} && out.record.backing !in old(memory.live)
      && memory.granted == old(memory.granted) + [out.record.backing] && memory.released == old(memory.released)
      && |c.records| == |n.sets| == |LayoutOf(n).value.sets|
      && Populates(n, c, LayoutOf(n).value, out.record.state, shader)
      && UsableAddress(out.record.state, out.record.bytes)
      && |LayoutOf(n).value.bounce| == |Spans(n)| && Placed(n, LayoutOf(n).value, out.record)
      && out.block != null && fresh(out.block) && out.block.Length == LayoutOf(n).value.bytes
      && Encodes(n, out.record.state, |Spans(n)|) && Holds(n, c, out.record.state, out.block[..])
  {
    hide Populates, UsableAddress, LayoutOf, FirstCopy, Copied, Encodes, Holds;
    ghost var none: seq<nat> := [];
    assert memory.granted == memory.granted + none && memory.released == memory.released + none;
    if out.record.backing != 0 || out.record.state != 0 {
      return Unknown;
    }
    if early != Success {
      return early;
    }
    if n.vertices.Some? && (|n.vertices.value| == 0 || |n.vertices.value| > limit) {
      return Unknown;
    }
    var layout := PlanLayout(n);
    if layout.None? {
      return OutOfHostMemory;
    }
    LayoutLengths(n);
    var address, backing, block;
    rc, address, backing, block := memory.Allocate(layout.value.bytes);
    if rc != Success {
      return;
    }
    ghost var given := if backing != 0 then [backing] else none;
    assert memory.granted == old(memory.granted) + given;
    if backing == 0 || !UsableAddress(address, layout.value.bytes) {
      GiveBack(memory, backing);
      return MapFailed;
    }
    var result;
    rc, result := Populate(block, n, c, layout.value, address, backing, shader);
    if rc != Success {
      GiveBack(memory, result.backing);
      return;
    }
    rc := memory.Flush(result.backing);
    if rc != Success {
      GiveBack(memory, result.backing);
      return;
    }
    out.record, out.block := result, block;
  }

  /** The cleanup every failure after the allocation goes through. */
  method GiveBack(memory: Backend, backing: nat)
    requires memory.Valid() && (backing != 0 ==> backing in memory.live)
    modifies memory
    ensures memory.Valid() && memory.granted == old(memory.granted)
    ensures memory.live == old(memory.live) - (if backing != 0 then {backing} else {})
    ensures memory.released == old(memory.released) + if backing != 0 then [backing] else []
    ensures memory.answers == old(memory.answers)
  {
    if backing != 0 {
      memory.Release(backing);
    }
  }

  // ----- the addresses a prepared draw records

  /** Where a record says a part is; copies and push constants are found from the
      state block. */
  function RecordedAt(n: Needs, layout: Layout, record: Prepared, p: Part): nat
    requires HasPart(n, p) && |layout.sets| == |n.sets| == |record.tables| && |layout.bounce| == |Spans(n)|
  {
    match p
    case State => record.state
    case Table => record.vertexTable
    case Set(s) => record.tables[s]
    case Push => record.state + layout.push
    case Copy(i) => record.state + layout.bounce[i]
  }

  /** Any two parts a prepared draw records lie inside its allocation and share no
      byte. */
  lemma RecordedPartsAreApart(n: Needs, record: Prepared, p: Part, q: Part)
    requires LayoutOf(n).Some? && HasPart(n, p) && HasPart(n, q) && p != q
    requires var layout := LayoutOf(n).value;
      |layout.sets| == |n.sets| && |layout.bounce| == |Spans(n)| && Placed(n, layout, record)
    ensures var layout := LayoutOf(n).value;
      var a, b := RecordedAt(n, layout, record, p), RecordedAt(n, layout, record, q);
      && record.state <= a && a + PartBytes(n, p) <= record.state + record.bytes
      && (a + PartBytes(n, p) <= b || b + PartBytes(n, q) <= a)
  {
    hide LayoutOf, FirstCopy, Copied;
    PartsAreApart(n, p, q);
  }

  // ----- addresses the shader rebuilds

  /** A full address from its low word and the high word of the shader's own. */
  function Rebuilt(shader: nat, low: nat): nat { shader / U32 * U32 + low % U32 }

  predicate FoundAt(shader: nat, address: nat, i: nat) { Rebuilt(shader, address + i) == address + i }

  /** A table is reachable exactly when it is aligned, below the address limit, and the
      shader finds each of its bytes from the low word of its address. */
  lemma ReachableIff(shader: nat, table: nat, bytes: nat)
    ensures TableReachable(shader, table, bytes) <==>
      && 0 < shader < ADDRESS_LIMIT && 0 < table && table % 16 == 0 && 0 < bytes && bytes % 16 == 0
      && table + bytes <= ADDRESS_LIMIT
      && forall i: nat | i < bytes :: FoundAt(shader, table, i)
  {
    if TableReachable(shader, table, bytes) {
      forall i: nat | i < bytes ensures FoundAt(shader, table, i) {
        SameWindow(shader, table, bytes, i);
      }
    } else if 0 < bytes && forall i: nat | i < bytes :: FoundAt(shader, table, i) {
      assert FoundAt(shader, table, 0) && FoundAt(shader, table, bytes - 1);
    }
  }

  lemma SameWindow(shader: nat, table: nat, bytes: nat, i: nat)
    requires i < bytes && shader / U32 == table / U32 == (table + bytes - 1) / U32
    ensures FoundAt(shader, table, i)
  {
  }

  /** Push constants are reachable exactly when their address is its low word in the
      third window of four gigabytes. */
  lemma PushReachableIff(address: nat, push: nat, bytes: nat)
    ensures PushReachable(address, push, bytes) <==>
      (bytes > 0 ==> address + push == 0x2_0000_0000 + (address + push) % U32)
  {
  }
}
