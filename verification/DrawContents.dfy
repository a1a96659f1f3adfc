/** What a prepared draw's allocation holds once every part has been written
    (native/draw_prepare_ps5.c, src/vertex_descriptor.c). */
module DrawContents {
  import opened DrawLayout
  import opened Words

  // ----- what is written

  /** One descriptor: where its words go in the table of its set, the words, and
      what its encoder answers. */
  datatype Record = Record(at: nat, bytes: seq<Byte>, answer: VkResult)

  /** The state block and where its low push constant address is kept, the push
      constants, the data of the bindings that have to be copied, and the
      descriptors of each set. */
  datatype Contents = Contents(state: seq<Byte>, low: nat, push: seq<Byte>, data: seq<seq<Byte>>,
    records: seq<seq<Record>>)

  predicate InTable(r: Record, bytes: nat) { r.at + |r.bytes| <= bytes }

  predicate ValidContents(n: Needs, c: Contents) {
    && |c.state| == n.state && c.low + 4 <= n.state && |c.push| == n.push
    && |c.data| == |Spans(n)| && |c.records| == |n.sets|
    && (forall i | 0 <= i < |Spans(n)| && Unaligned(Spans(n)[i]) :: |c.data[i]| == Spans(n)[i].bytes)
    && (forall s, e | 0 <= s < |n.sets| && n.sets[s].Some? && 0 <= e < |c.records[s]| ::
          InTable(c.records[s][e], n.sets[s].value))
  }

  /** A word in memory, lowest byte first. */
  function Bytes(w: Word): (bytes: seq<Byte>)
    ensures |bytes| == 4
  {
    [w % 0x100, w / 0x100 % 0x100, w / 0x1_0000 % 0x100, w / 0x100_0000]
  }

  function Zeros(n: nat): (bytes: seq<Byte>)
    ensures |bytes| == n
  {
    seq(n, _ => 0)
  }

  const RECORD: nat := 16
  const VERTEX_CONTROL: Word := 0x1101_4fac

  /** A vertex buffer the descriptor encoder accepts. */
  predicate Encodable(address: nat, v: Span) {
    && address != 0 && address % 4 == 0 && address < ADDRESS_LIMIT && v.bytes != 0 && v.bytes <= ADDRESS_LIMIT - address
    && 0 < v.stride <= 0x3fff && v.extent != 0 && v.bytes >= v.extent && v.bytes / v.stride < U32
  }

  /** The encoder's words: address, stride, record count and control. */
  function Descriptor(address: nat, v: Span): (bytes: seq<Byte>)
    requires Encodable(address, v)
    ensures |bytes| == RECORD
  {
    Bytes(address % U32) + Bytes(address / U32 + v.stride * 0x1_0000)
    + Bytes(v.bytes / v.stride) + Bytes(VERTEX_CONTROL)
  }

  /** Where the hardware reads a binding from: its own data, or the copy. */
  function Source(address: nat, v: Span, offset: nat): nat {
    if v.address % 4 != 0 then address + offset else v.address
  }

  predicate BindingEncodes(address: nat, v: Span, offset: nat) {
    v.address != 0 ==> Encodable(Source(address, v, offset), v)
  }

  /** A binding's record in the vertex table; an absent one is zero. */
  function VertexRecord(address: nat, v: Span, offset: nat): (bytes: seq<Byte>)
    requires BindingEncodes(address, v, offset)
    ensures |bytes| == RECORD
  {
    if v.address == 0 then Zeros(RECORD) else Descriptor(Source(address, v, offset), v)
  }

  // ----- writes, part by part

  datatype Write = Write(part: Part, at: nat, bytes: seq<Byte>)

  predicate Fits(n: Needs, w: Write) { HasPart(n, w.part) && w.at + |w.bytes| <= PartBytes(n, w.part) }

  predicate AllFit(n: Needs, ws: seq<Write>) { forall i | 0 <= i < |ws| :: Fits(n, ws[i]) }

  predicate Avoids(ws: seq<Write>, p: Part) { forall i | 0 <= i < |ws| :: ws[i].part != p }

  /** The place of a part in the allocation. */
  function Place(n: Needs, p: Part): nat
    requires LayoutOf(n).Some? && HasPart(n, p)
    ensures Place(n, p) + PartBytes(n, p) <= LayoutOf(n).value.bytes
  {
    PartInItsStretch(n, p);
    PartOffset(n, LayoutOf(n).value, p)
  }

  /** The allocation after the writes, in order. */
  function Apply(n: Needs, memory: seq<Byte>, ws: seq<Write>): (after: seq<Byte>)
    requires LayoutOf(n).Some? && |memory| == LayoutOf(n).value.bytes && AllFit(n, ws)
    ensures |after| == |memory|
  {
    if ws == [] then memory
    else
      var front, last := ws[..|ws| - 1], ws[|ws| - 1];
      Overwrite(Apply(n, memory, front), Place(n, last.part) + last.at, last.bytes)
  }

  /** What one part alone is after the writes into it. */
  function Seen(n: Needs, p: Part, content: seq<Byte>, ws: seq<Write>): (after: seq<Byte>)
    requires HasPart(n, p) && |content| == PartBytes(n, p) && AllFit(n, ws)
    ensures |after| == |content|
  {
    if ws == [] then content
    else
      var front, last := Seen(n, p, content, ws[..|ws| - 1]), ws[|ws| - 1];
      if last.part == p then Overwrite(front, last.at, last.bytes) else front
  }

  function View(n: Needs, memory: seq<Byte>, p: Part): (content: seq<Byte>)
    requires LayoutOf(n).Some? && |memory| == LayoutOf(n).value.bytes && HasPart(n, p)
    ensures |content| == PartBytes(n, p)
  {
    memory[Place(n, p)..Place(n, p) + PartBytes(n, p)]
  }

  lemma ApplySnoc(n: Needs, memory: seq<Byte>, ws: seq<Write>, w: Write)
    requires LayoutOf(n).Some? && |memory| == LayoutOf(n).value.bytes && AllFit(n, ws) && Fits(n, w)
    ensures AllFit(n, ws + [w])
    ensures Apply(n, memory, ws + [w]) == Overwrite(Apply(n, memory, ws), Place(n, w.part) + w.at, w.bytes)
  {
    hide LayoutOf, Place, PartBytes, HasPart;
    assert (ws + [w])[..|ws|] == ws;
  }

  lemma OverwriteInside(memory: seq<Byte>, start: nat, bytes: nat, at: nat, ws: seq<Byte>)
    requires at + |ws| <= bytes && start + bytes <= |memory|
    ensures Overwrite(memory, start + at, ws)[start..start + bytes] == Overwrite(memory[start..start + bytes], at, ws)
  {
  }

  lemma OverwriteOutside(memory: seq<Byte>, start: nat, bytes: nat, at: nat, ws: seq<Byte>)
    requires at + |ws| <= |memory| && start + bytes <= |memory| && (at + |ws| <= start || start + bytes <= at)
    ensures Overwrite(memory, at, ws)[start..start + bytes] == memory[start..start + bytes]
  {
  }

  /** Because parts share no byte, every part of the allocation is what its own
      writes make of it, whatever is written elsewhere and in whatever order. */
  lemma {:induction false} PartsAreIndependent(n: Needs, memory: seq<Byte>, ws: seq<Write>, p: Part)
    requires LayoutOf(n).Some? && |memory| == LayoutOf(n).value.bytes && AllFit(n, ws) && HasPart(n, p)
    ensures View(n, Apply(n, memory, ws), p) == Seen(n, p, View(n, memory, p), ws)
    decreases |ws|
  {
    hide LayoutOf, PartBytes, HasPart, Overwrite;
    if ws != [] {
      var front, last := ws[..|ws| - 1], ws[|ws| - 1];
      PartsAreIndependent(n, memory, front, p);
      var before := Apply(n, memory, front);
      if last.part == p {
        OverwriteInside(before, Place(n, p), PartBytes(n, p), last.at, last.bytes);
      } else {
        PartsAreApart(n, p, last.part);
        OverwriteOutside(before, Place(n, p), PartBytes(n, p), Place(n, last.part) + last.at, last.bytes);
      }
    }
  }

  // ----- the writes of a draw

  lemma LayoutLengths(n: Needs)
    requires LayoutOf(n).Some?
    ensures |LayoutOf(n).value.sets| == |n.sets| && |LayoutOf(n).value.bounce| == |Spans(n)|
  {
  }

  function CopyAt(n: Needs, i: nat): nat
    requires LayoutOf(n).Some? && i < |Spans(n)|
  {
    LayoutLengths(n);
    LayoutOf(n).value.bounce[i]
  }

  predicate Encodes(n: Needs, address: nat, k: nat)
    requires LayoutOf(n).Some? && k <= |Spans(n)|
  {
    forall i | 0 <= i < k :: BindingEncodes(address, Spans(n)[i], CopyAt(n, i))
  }

  /** The push constants, and their address in the state block. */
  function PushWrites(n: Needs, c: Contents, address: nat): (ws: seq<Write>)
    requires LayoutOf(n).Some? && ValidContents(n, c)
    ensures AllFit(n, ws)
  {
    if n.push == 0 then []
    else [Write(Push, 0, c.push), Write(State, c.low, Bytes((address + LayoutOf(n).value.push) % U32))]
  }

  function StateWrites(n: Needs, c: Contents): (ws: seq<Write>)
    requires ValidContents(n, c)
    ensures AllFit(n, ws) && |ws| == 1
  {
    [Write(State, 0, c.state)]
  }

  function CopyWrites(n: Needs, c: Contents, i: nat): (ws: seq<Write>)
    requires ValidContents(n, c) && i < |Spans(n)|
    ensures AllFit(n, ws) && Avoids(ws, Table)
  {
    if Unaligned(Spans(n)[i]) then [Write(Copy(i), 0, c.data[i])] else []
  }

  function RecordWrite(n: Needs, address: nat, i: nat): (w: Write)
    requires LayoutOf(n).Some? && i < |Spans(n)| && BindingEncodes(address, Spans(n)[i], CopyAt(n, i))
    ensures Fits(n, w) && w.part == Table
  {
    Write(Table, RECORD * i, VertexRecord(address, Spans(n)[i], CopyAt(n, i)))
  }

  /** A binding's copy, if it needs one, and its record in the vertex table. */
  function BindingWrites(n: Needs, c: Contents, address: nat, i: nat): (ws: seq<Write>)
    requires LayoutOf(n).Some? && ValidContents(n, c) && i < |Spans(n)|
    requires BindingEncodes(address, Spans(n)[i], CopyAt(n, i))
    ensures AllFit(n, ws)
  {
    CopyWrites(n, c, i) + [RecordWrite(n, address, i)]
  }

  function VertexWrites(n: Needs, c: Contents, address: nat, k: nat): (ws: seq<Write>)
    requires LayoutOf(n).Some? && ValidContents(n, c) && k <= |Spans(n)| && Encodes(n, address, k)
    ensures AllFit(n, ws)
  {
    if k == 0 then [] else VertexWrites(n, c, address, k - 1) + BindingWrites(n, c, address, k - 1)
  }

  /** The first e descriptors of a set. */
  function RecordWrites(n: Needs, c: Contents, s: nat, e: nat): (ws: seq<Write>)
    requires ValidContents(n, c) && s < |n.sets| && n.sets[s].Some? && e <= |c.records[s]|
    ensures AllFit(n, ws)
  {
    if e == 0 then []
    else
      var r := c.records[s][e - 1];
      assert InTable(r, n.sets[s].value);
      RecordWrites(n, c, s, e - 1) + [Write(Set(s), r.at, r.bytes)]
  }

  /** A table is cleared before its descriptors are written. */
  function TableWrites(n: Needs, c: Contents, s: nat): (ws: seq<Write>)
    requires ValidContents(n, c) && s < |n.sets|
    ensures AllFit(n, ws)
  {
    if n.sets[s].None? then []
    else [Write(Set(s), 0, Zeros(n.sets[s].value))] + RecordWrites(n, c, s, |c.records[s]|)
  }

  function SetWrites(n: Needs, c: Contents, k: nat): (ws: seq<Write>)
    requires ValidContents(n, c) && k <= |n.sets|
    ensures AllFit(n, ws)
  {
    if k == 0 then [] else SetWrites(n, c, k - 1) + TableWrites(n, c, k - 1)
  }

  function AllWrites(n: Needs, c: Contents, address: nat): (ws: seq<Write>)
    requires LayoutOf(n).Some? && ValidContents(n, c) && Encodes(n, address, |Spans(n)|)
    ensures AllFit(n, ws)
  {
    StateWrites(n, c) + PushWrites(n, c, address) + VertexWrites(n, c, address, |Spans(n)|)
    + SetWrites(n, c, |n.sets|)
  }

  // ----- what each part is in the end

  lemma {:induction false} SeenAppend(n: Needs, p: Part, content: seq<Byte>, a: seq<Write>, b: seq<Write>)
    requires HasPart(n, p) && |content| == PartBytes(n, p) && AllFit(n, a) && AllFit(n, b)
    ensures AllFit(n, a + b) && Seen(n, p, content, a + b) == Seen(n, p, Seen(n, p, content, a), b)
    decreases |b|
  {
    hide PartBytes, HasPart, Fits, Overwrite;
    if b == [] {
      assert a + b == a;
    } else {
      var front := b[..|b| - 1];
      SeenAppend(n, p, content, a, front);
      assert (a + b)[..|a + b| - 1] == a + front;
    }
  }

  lemma {:induction false} SeenElsewhere(n: Needs, p: Part, content: seq<Byte>, ws: seq<Write>)
    requires HasPart(n, p) && |content| == PartBytes(n, p) && AllFit(n, ws) && Avoids(ws, p)
    ensures Seen(n, p, content, ws) == content
    decreases |ws|
  {
    hide PartBytes, HasPart, Fits, Overwrite;
    if ws != [] { SeenElsewhere(n, p, content, ws[..|ws| - 1]); }
  }

  lemma SeenOne(n: Needs, w: Write, content: seq<Byte>)
    requires Fits(n, w) && |content| == PartBytes(n, w.part)
    ensures Seen(n, w.part, content, [w]) == Overwrite(content, w.at, w.bytes)
  {
    hide PartBytes, HasPart, Overwrite;
    assert [w][..0] == [];
  }

  lemma {:induction false} VertexWritesAvoid(n: Needs, c: Contents, address: nat, k: nat, p: Part)
    requires LayoutOf(n).Some? && ValidContents(n, c) && k <= |Spans(n)| && Encodes(n, address, k)
    requires p != Table && (p.Copy? ==> k <= p.i)
    ensures Avoids(VertexWrites(n, c, address, k), p)
    decreases k
  {
    hide LayoutOf, ValidContents, BindingWrites, BindingEncodes;
    if k > 0 {
      VertexWritesAvoid(n, c, address, k - 1, p);
      OthersMissBinding(n, c, address, k - 1, p);
    }
  }

  lemma {:induction false} RecordWritesAvoid(n: Needs, c: Contents, s: nat, e: nat, p: Part)
    requires ValidContents(n, c) && s < |n.sets| && n.sets[s].Some? && e <= |c.records[s]| && p != Set(s)
    ensures Avoids(RecordWrites(n, c, s, e), p)
    decreases e
  {
    if e > 0 { RecordWritesAvoid(n, c, s, e - 1, p); }
  }

  lemma TableWritesAvoid(n: Needs, c: Contents, s: nat, p: Part)
    requires ValidContents(n, c) && s < |n.sets| && p != Set(s)
    ensures Avoids(TableWrites(n, c, s), p)
  {
    hide RecordWrites, HasPart, PartBytes;
    if n.sets[s].Some? { RecordWritesAvoid(n, c, s, |c.records[s]|, p); }
  }

  lemma {:induction false} SetWritesAvoid(n: Needs, c: Contents, k: nat, p: Part)
    requires ValidContents(n, c) && k <= |n.sets| && (p.Set? ==> k <= p.s)
    ensures Avoids(SetWrites(n, c, k), p)
    decreases k
  {
    hide ValidContents, TableWrites, AllFit;
    if k > 0 {
      SetWritesAvoid(n, c, k - 1, p);
      TableWritesAvoid(n, c, k - 1, p);
    }
  }

  /** A table after its first e descriptors: zero where none was written. */
  function TableContent(rs: seq<Record>, bytes: nat, e: nat): (content: seq<Byte>)
    requires e <= |rs| && forall i | 0 <= i < |rs| :: InTable(rs[i], bytes)
    ensures |content| == bytes
  {
    if e == 0 then Zeros(bytes) else Overwrite(TableContent(rs, bytes, e - 1), rs[e - 1].at, rs[e - 1].bytes)
  }

  lemma SeenWhole(n: Needs, w: Write, content: seq<Byte>)
    requires Fits(n, w) && |content| == PartBytes(n, w.part) == |w.bytes|
    ensures Seen(n, w.part, content, [w]) == w.bytes
  {
    hide PartBytes, HasPart;
    SeenOne(n, w, content);
  }

  /** One binding's writes, as its own copy, the table and any other part see them. */
  lemma CopySeesBinding(n: Needs, c: Contents, address: nat, i: nat, content: seq<Byte>)
    requires LayoutOf(n).Some? && ValidContents(n, c) && i < |Spans(n)|
    requires BindingEncodes(address, Spans(n)[i], CopyAt(n, i))
    requires Unaligned(Spans(n)[i]) && |content| == PartBytes(n, Copy(i))
    ensures Seen(n, Copy(i), content, BindingWrites(n, c, address, i)) == c.data[i]
  {
    var w, record := Write(Copy(i), 0, c.data[i]), RecordWrite(n, address, i);
    hide LayoutOf, BindingEncodes, RecordWrite, Seen;
    SeenAppend(n, Copy(i), content, [w], [record]);
    SeenWhole(n, w, content);
    SeenElsewhere(n, Copy(i), c.data[i], [record]);
  }

  lemma TableSeesBinding(n: Needs, c: Contents, address: nat, i: nat, content: seq<Byte>)
    requires LayoutOf(n).Some? && ValidContents(n, c) && i < |Spans(n)|
    requires BindingEncodes(address, Spans(n)[i], CopyAt(n, i))
    requires HasPart(n, Table) && |content| == PartBytes(n, Table)
    ensures RECORD * i + RECORD <= |content|
    ensures Seen(n, Table, content, BindingWrites(n, c, address, i))
            == Overwrite(content, RECORD * i, VertexRecord(address, Spans(n)[i], CopyAt(n, i)))
  {
    var copy, record := CopyWrites(n, c, i), RecordWrite(n, address, i);
    hide LayoutOf, BindingEncodes, VertexRecord, CopyWrites, Seen, Overwrite, ValidContents;
    SeenAppend(n, Table, content, copy, [record]);
    SeenElsewhere(n, Table, content, copy);
    SeenOne(n, record, content);
  }

  lemma OthersMissBinding(n: Needs, c: Contents, address: nat, i: nat, p: Part)
    requires LayoutOf(n).Some? && ValidContents(n, c) && i < |Spans(n)|
    requires BindingEncodes(address, Spans(n)[i], CopyAt(n, i)) && p != Table && p != Copy(i)
    ensures Avoids(BindingWrites(n, c, address, i), p)
  {
    hide LayoutOf, BindingEncodes, VertexRecord, ValidContents, Unaligned;
  }

  lemma {:induction false} SeenCopy(n: Needs, c: Contents, address: nat, k: nat, i: nat, content: seq<Byte>)
    requires LayoutOf(n).Some? && ValidContents(n, c) && i < k <= |Spans(n)| && Encodes(n, address, k)
    requires Unaligned(Spans(n)[i]) && |content| == Spans(n)[i].bytes
    ensures Seen(n, Copy(i), content, VertexWrites(n, c, address, k)) == c.data[i]
    decreases k
  {
    hide LayoutOf, ValidContents, Unaligned, BindingEncodes, BindingWrites, Seen;
    SeenAppend(n, Copy(i), content, VertexWrites(n, c, address, k - 1), BindingWrites(n, c, address, k - 1));
    var before := Seen(n, Copy(i), content, VertexWrites(n, c, address, k - 1));
    if i < k - 1 {
      SeenCopy(n, c, address, k - 1, i, content);
      OthersMissBinding(n, c, address, k - 1, Copy(i));
      SeenElsewhere(n, Copy(i), before, BindingWrites(n, c, address, k - 1));
    } else {
      CopySeesBinding(n, c, address, i, before);
    }
  }

  lemma Splice(content: seq<Byte>, at: nat, bytes: seq<Byte>, start: nat, length: nat)
    requires at + |bytes| <= |content|
    ensures Overwrite(content, at, bytes)[at..at + |bytes|] == bytes
    ensures start + length <= at ==>
      Overwrite(content, at, bytes)[start..start + length] == content[start..start + length]
  {
  }

  lemma {:induction false} SeenTable(n: Needs, c: Contents, address: nat, k: nat, i: nat, content: seq<Byte>)
    requires LayoutOf(n).Some? && ValidContents(n, c) && i < k <= |Spans(n)| && Encodes(n, address, k)
    requires HasPart(n, Table) && |content| == PartBytes(n, Table)
    ensures RECORD * i + RECORD <= |content|
    ensures Seen(n, Table, content, VertexWrites(n, c, address, k))[RECORD * i..RECORD * i + RECORD]
            == VertexRecord(address, Spans(n)[i], CopyAt(n, i))
    decreases k
  {
    hide LayoutOf, ValidContents, Unaligned, BindingEncodes, BindingWrites, Seen, Overwrite, VertexRecord;
    SeenAppend(n, Table, content, VertexWrites(n, c, address, k - 1), BindingWrites(n, c, address, k - 1));
    if i < k - 1 { SeenTable(n, c, address, k - 1, i, content); }
    var before := Seen(n, Table, content, VertexWrites(n, c, address, k - 1));
    TableSeesBinding(n, c, address, k - 1, before);
    Splice(before, RECORD * (k - 1), VertexRecord(address, Spans(n)[k - 1], CopyAt(n, k - 1)), RECORD * i, RECORD);
  }

  lemma {:induction false} SeenRecords(n: Needs, c: Contents, s: nat, e: nat)
    requires ValidContents(n, c) && s < |n.sets| && n.sets[s].Some? && e <= |c.records[s]|
    ensures Tabled(n, c, s)
    ensures Seen(n, Set(s), Zeros(n.sets[s].value), RecordWrites(n, c, s, e))
            == TableContent(c.records[s], n.sets[s].value, e)
    decreases e
  {
    hide Overwrite;
    assert Tabled(n, c, s);
    if e > 0 {
      SeenRecords(n, c, s, e - 1);
      var r := c.records[s][e - 1];
      var w := Write(Set(s), r.at, r.bytes);
      assert InTable(r, n.sets[s].value);
      SeenAppend(n, Set(s), Zeros(n.sets[s].value), RecordWrites(n, c, s, e - 1), [w]);
      SeenOne(n, w, TableContent(c.records[s], n.sets[s].value, e - 1));
    }
  }

  predicate Tabled(n: Needs, c: Contents, s: nat)
    requires s < |n.sets| == |c.records| && n.sets[s].Some?
  {
    forall e | 0 <= e < |c.records[s]| :: InTable(c.records[s][e], n.sets[s].value)
  }

  lemma SeenOneTable(n: Needs, c: Contents, s: nat, content: seq<Byte>)
    requires ValidContents(n, c) && s < |n.sets| && n.sets[s].Some? && |content| == n.sets[s].value
    ensures Tabled(n, c, s)
    ensures Seen(n, Set(s), content, TableWrites(n, c, s))
            == TableContent(c.records[s], n.sets[s].value, |c.records[s]|)
  {
    hide Overwrite, RecordWrites, TableContent;
    var zero := Write(Set(s), 0, Zeros(n.sets[s].value));
    SeenRecords(n, c, s, |c.records[s]|);
    SeenAppend(n, Set(s), content, [zero], RecordWrites(n, c, s, |c.records[s]|));
    SeenWhole(n, zero, content);
  }

  lemma {:induction false} SeenSet(n: Needs, c: Contents, k: nat, s: nat, content: seq<Byte>)
    requires ValidContents(n, c) && s < k <= |n.sets| && n.sets[s].Some? && |content| == n.sets[s].value
    ensures Tabled(n, c, s)
    ensures Seen(n, Set(s), content, SetWrites(n, c, k)) == TableContent(c.records[s], n.sets[s].value, |c.records[s]|)
    decreases k
  {
    hide Overwrite, TableWrites, TableContent, Tabled, Seen;
    SeenAppend(n, Set(s), content, SetWrites(n, c, k - 1), TableWrites(n, c, k - 1));
    var before := Seen(n, Set(s), content, SetWrites(n, c, k - 1));
    if s < k - 1 {
      SeenSet(n, c, k - 1, s, content);
      TableWritesAvoid(n, c, k - 1, Set(s));
      SeenElsewhere(n, Set(s), before, TableWrites(n, c, k - 1));
    } else {
      SeenOneTable(n, c, s, before);
    }
  }

  // ----- the allocation as a whole

  /** The state block, with the push constants' address in its place. */
  function StateContent(n: Needs, c: Contents, address: nat): seq<Byte>
    requires LayoutOf(n).Some? && ValidContents(n, c)
  {
    if n.push == 0 then c.state
    else Overwrite(c.state, c.low, Bytes((address + LayoutOf(n).value.push) % U32))
  }

  /** Every part of the allocation is what it is meant to be. */
  predicate Holds(n: Needs, c: Contents, address: nat, memory: seq<Byte>)
    requires LayoutOf(n).Some? && |memory| == LayoutOf(n).value.bytes
    requires ValidContents(n, c) && Encodes(n, address, |Spans(n)|)
  {
    && View(n, memory, State) == StateContent(n, c, address)
    && View(n, memory, Push) == c.push
    && (forall i | 0 <= i < |Spans(n)| :: BindingHolds(n, c, address, memory, i))
    && forall s | 0 <= s < |n.sets| && n.sets[s].Some? :: TableHolds(n, c, memory, s)
  }

  /** A binding's record is in the table, and its copy where the record says. */
  predicate BindingHolds(n: Needs, c: Contents, address: nat, memory: seq<Byte>, i: nat)
    requires LayoutOf(n).Some? && |memory| == LayoutOf(n).value.bytes
    requires ValidContents(n, c) && Encodes(n, address, |Spans(n)|) && i < |Spans(n)|
  {
    && View(n, memory, Table)[RECORD * i..RECORD * i + RECORD] == VertexRecord(address, Spans(n)[i], CopyAt(n, i))
    && (Unaligned(Spans(n)[i]) ==> View(n, memory, Copy(i)) == c.data[i])
  }

  predicate TableHolds(n: Needs, c: Contents, memory: seq<Byte>, s: nat)
    requires LayoutOf(n).Some? && |memory| == LayoutOf(n).value.bytes
    requires ValidContents(n, c) && s < |n.sets| && n.sets[s].Some?
  {
    && Tabled(n, c, s)
    && View(n, memory, Set(s)) == TableContent(c.records[s], n.sets[s].value, |c.records[s]|)
  }

  lemma SeenInTurn(n: Needs, c: Contents, address: nat, p: Part, content: seq<Byte>)
    requires LayoutOf(n).Some? && ValidContents(n, c) && Encodes(n, address, |Spans(n)|)
    requires HasPart(n, p) && |content| == PartBytes(n, p)
    ensures var first := Seen(n, p, content, StateWrites(n, c));
      var second := Seen(n, p, first, PushWrites(n, c, address));
      var third := Seen(n, p, second, VertexWrites(n, c, address, |Spans(n)|));
      Seen(n, p, content, AllWrites(n, c, address)) == Seen(n, p, third, SetWrites(n, c, |n.sets|))
  {
    hide LayoutOf, Encodes, Seen, PushWrites, VertexWrites, SetWrites, HasPart, PartBytes;
    var a, b, d, e := StateWrites(n, c), PushWrites(n, c, address),
      VertexWrites(n, c, address, |Spans(n)|), SetWrites(n, c, |n.sets|);
    SeenAppend(n, p, content, a, b);
    SeenAppend(n, p, content, a + b, d);
    SeenAppend(n, p, content, a + b + d, e);
  }

  lemma StateHolds(n: Needs, c: Contents, address: nat, content: seq<Byte>)
    requires LayoutOf(n).Some? && ValidContents(n, c) && Encodes(n, address, |Spans(n)|) && |content| == n.state
    ensures Seen(n, State, content, AllWrites(n, c, address)) == StateContent(n, c, address)
  {
    hide LayoutOf, Encodes, VertexWrites, SetWrites, AllWrites;
    SeenInTurn(n, c, address, State, content);
    SeenWhole(n, Write(State, 0, c.state), content);
    var pushed := PushWrites(n, c, address);
    var state := Seen(n, State, c.state, pushed);
    if n.push > 0 {
      SeenAppend(n, State, c.state, [pushed[0]], [pushed[1]]);
      SeenElsewhere(n, State, c.state, [pushed[0]]);
      SeenOne(n, pushed[1], c.state);
      assert [pushed[0]] + [pushed[1]] == pushed;
    }
    VertexWritesAvoid(n, c, address, |Spans(n)|, State);
    SeenElsewhere(n, State, state, VertexWrites(n, c, address, |Spans(n)|));
    SetWritesAvoid(n, c, |n.sets|, State);
    SeenElsewhere(n, State, state, SetWrites(n, c, |n.sets|));
  }

  lemma PushHolds(n: Needs, c: Contents, address: nat, content: seq<Byte>)
    requires LayoutOf(n).Some? && ValidContents(n, c) && Encodes(n, address, |Spans(n)|) && |content| == n.push
    ensures Seen(n, Push, content, AllWrites(n, c, address)) == c.push
  {
    hide LayoutOf, Encodes, VertexWrites, SetWrites, AllWrites;
    SeenInTurn(n, c, address, Push, content);
    SeenElsewhere(n, Push, content, StateWrites(n, c));
    var pushed := PushWrites(n, c, address);
    if n.push > 0 {
      SeenAppend(n, Push, content, [pushed[0]], [pushed[1]]);
      SeenWhole(n, pushed[0], content);
      SeenElsewhere(n, Push, c.push, [pushed[1]]);
      assert [pushed[0]] + [pushed[1]] == pushed;
    } else {
      assert content == c.push;
    }
    VertexWritesAvoid(n, c, address, |Spans(n)|, Push);
    SeenElsewhere(n, Push, c.push, VertexWrites(n, c, address, |Spans(n)|));
    SetWritesAvoid(n, c, |n.sets|, Push);
    SeenElsewhere(n, Push, c.push, SetWrites(n, c, |n.sets|));
  }

  /** Nothing before the vertex writes touches tables and copies. */
  lemma FirstWritesAvoid(n: Needs, c: Contents, address: nat, p: Part, content: seq<Byte>)
    requires LayoutOf(n).Some? && ValidContents(n, c) && HasPart(n, p) && |content| == PartBytes(n, p)
    requires p != State && p != Push
    ensures Seen(n, p, content, StateWrites(n, c)) == content
    ensures Seen(n, p, content, PushWrites(n, c, address)) == content
  {
    hide LayoutOf, HasPart, PartBytes, Seen;
    SeenElsewhere(n, p, content, StateWrites(n, c));
    SeenElsewhere(n, p, content, PushWrites(n, c, address));
  }

  lemma CopyHolds(n: Needs, c: Contents, address: nat, i: nat, content: seq<Byte>)
    requires LayoutOf(n).Some? && ValidContents(n, c) && Encodes(n, address, |Spans(n)|)
    requires HasPart(n, Copy(i)) && |content| == PartBytes(n, Copy(i))
    ensures Seen(n, Copy(i), content, AllWrites(n, c, address)) == c.data[i]
  {
    hide LayoutOf, Encodes, VertexWrites, SetWrites, AllWrites, PushWrites, Seen;
    SeenInTurn(n, c, address, Copy(i), content);
    FirstWritesAvoid(n, c, address, Copy(i), content);
    SeenCopy(n, c, address, |Spans(n)|, i, content);
    SetWritesAvoid(n, c, |n.sets|, Copy(i));
    SeenElsewhere(n, Copy(i), c.data[i], SetWrites(n, c, |n.sets|));
  }

  lemma RecordHolds(n: Needs, c: Contents, address: nat, i: nat, content: seq<Byte>)
    requires LayoutOf(n).Some? && ValidContents(n, c) && Encodes(n, address, |Spans(n)|)
    requires i < |Spans(n)| && HasPart(n, Table) && |content| == PartBytes(n, Table)
    ensures RECORD * i + RECORD <= |content|
    ensures Seen(n, Table, content, AllWrites(n, c, address))[RECORD * i..RECORD * i + RECORD]
            == VertexRecord(address, Spans(n)[i], CopyAt(n, i))
  {
    hide LayoutOf, Encodes, VertexWrites, SetWrites, AllWrites, PushWrites, Seen, VertexRecord;
    SeenInTurn(n, c, address, Table, content);
    FirstWritesAvoid(n, c, address, Table, content);
    SeenTable(n, c, address, |Spans(n)|, i, content);
    var table := Seen(n, Table, content, VertexWrites(n, c, address, |Spans(n)|));
    SetWritesAvoid(n, c, |n.sets|, Table);
    SeenElsewhere(n, Table, table, SetWrites(n, c, |n.sets|));
  }

  lemma SetHolds(n: Needs, c: Contents, address: nat, s: nat, content: seq<Byte>)
    requires LayoutOf(n).Some? && ValidContents(n, c) && Encodes(n, address, |Spans(n)|)
    requires s < |n.sets| && n.sets[s].Some? && |content| == n.sets[s].value
    ensures Tabled(n, c, s)
    ensures Seen(n, Set(s), content, AllWrites(n, c, address))
            == TableContent(c.records[s], n.sets[s].value, |c.records[s]|)
  {
    hide LayoutOf, Encodes, VertexWrites, SetWrites, AllWrites, PushWrites, Seen, TableContent, Tabled;
    SeenInTurn(n, c, address, Set(s), content);
    FirstWritesAvoid(n, c, address, Set(s), content);
    VertexWritesAvoid(n, c, address, |Spans(n)|, Set(s));
    SeenElsewhere(n, Set(s), content, VertexWrites(n, c, address, |Spans(n)|));
    SeenSet(n, c, |n.sets|, s, content);
  }

  /** The writes of a draw leave every part as it is meant to be, whatever the
      allocation held before: none of them spoils another. */
  lemma EverythingHolds(n: Needs, c: Contents, address: nat, memory: seq<Byte>)
    requires LayoutOf(n).Some? && |memory| == LayoutOf(n).value.bytes
    requires ValidContents(n, c) && Encodes(n, address, |Spans(n)|)
    ensures Holds(n, c, address, Apply(n, memory, AllWrites(n, c, address)))
  {
    hide LayoutOf, Encodes, AllWrites, Apply, Seen, View;
    hide StateContent, VertexRecord, TableContent, Tabled, ValidContents;
    var ws := AllWrites(n, c, address);
    var after := Apply(n, memory, ws);
    PartsAreIndependent(n, memory, ws, State);
    StateHolds(n, c, address, View(n, memory, State));
    PartsAreIndependent(n, memory, ws, Push);
    PushHolds(n, c, address, View(n, memory, Push));
    forall i | 0 <= i < |Spans(n)| ensures BindingHolds(n, c, address, after, i) {
      PartsAreIndependent(n, memory, ws, Table);
      RecordHolds(n, c, address, i, View(n, memory, Table));
      if Unaligned(Spans(n)[i]) {
        PartsAreIndependent(n, memory, ws, Copy(i));
        CopyHolds(n, c, address, i, View(n, memory, Copy(i)));
      }
    }
    forall s | 0 <= s < |n.sets| && n.sets[s].Some? ensures TableHolds(n, c, after, s) {
      PartsAreIndependent(n, memory, ws, Set(s));
      SetHolds(n, c, address, s, View(n, memory, Set(s)));
    }
  }

  // ----- reading it back

  /** The word at a place, lowest byte first. */
  function WordAt(memory: seq<Byte>, at: nat): Word
    requires at + 4 <= |memory|
  {
    memory[at] as int + 0x100 * memory[at + 1] as int
    + 0x1_0000 * memory[at + 2] as int + 0x100_0000 * memory[at + 3] as int
  }

  lemma WordReadsBack(memory: seq<Byte>, at: nat, w: Word)
    requires at + 4 <= |memory| && memory[at..at + 4] == Bytes(w)
    ensures WordAt(memory, at) == w
  {
    var bytes := Bytes(w);
    assert memory[at] == bytes[0] && memory[at + 1] == bytes[1];
    assert memory[at + 2] == bytes[2] && memory[at + 3] == bytes[3];
    BytesAddUp(w);
  }

  lemma BytesAddUp(w: Word)
    ensures w == w % 0x100 + 0x100 * (w / 0x100 % 0x100)
                 + 0x1_0000 * (w / 0x1_0000 % 0x100) + 0x100_0000 * (w / 0x100_0000)
  {
    assert w / 0x1_0000 == w / 0x100 / 0x100 && w / 0x100_0000 == w / 0x100 / 0x100 / 0x100;
  }

  lemma FourWords(a: Word, b: Word, c: Word, d: Word)
    ensures var bytes := Bytes(a) + Bytes(b) + Bytes(c) + Bytes(d);
      WordAt(bytes, 0) == a && WordAt(bytes, 4) == b && WordAt(bytes, 8) == c && WordAt(bytes, 12) == d
  {
    hide Bytes, WordAt;
    var bytes := Bytes(a) + Bytes(b) + Bytes(c) + Bytes(d);
    assert bytes[0..4] == Bytes(a) && bytes[4..8] == Bytes(b) && bytes[8..12] == Bytes(c) && bytes[12..16] == Bytes(d);
    WordReadsBack(bytes, 0, a);
    WordReadsBack(bytes, 4, b);
    WordReadsBack(bytes, 8, c);
    WordReadsBack(bytes, 12, d);
  }

  /** The descriptor of a binding names its address, its stride and how many whole
      strides its data holds. */
  lemma DescriptorReadsBack(address: nat, v: Span)
    requires Encodable(address, v)
    ensures var d := Descriptor(address, v);
      && WordAt(d, 0) + WordAt(d, 4) % 0x1_0000 * U32 == address
      && WordAt(d, 4) / 0x1_0000 == v.stride
      && WordAt(d, 8) == v.bytes / v.stride && WordAt(d, 12) == VERTEX_CONTROL
  {
    hide Bytes, WordAt;
    FourWords(address % U32, address / U32 + v.stride * 0x1_0000, v.bytes / v.stride, VERTEX_CONTROL);
    Fields(address / U32, v.stride);
  }

  lemma Fields(high: nat, stride: nat)
    requires high < 0x1_0000
    ensures (high + stride * 0x1_0000) % 0x1_0000 == high && (high + stride * 0x1_0000) / 0x1_0000 == stride
  {
  }

  /** A descriptor that no later one overlaps is in the finished table. */
  lemma {:induction false} RecordStands(rs: seq<Record>, bytes: nat, e: nat, i: nat)
    requires i < e <= |rs| && forall k | 0 <= k < |rs| :: InTable(rs[k], bytes)
    requires forall k | i < k < e :: rs[k].at + |rs[k].bytes| <= rs[i].at || rs[i].at + |rs[i].bytes| <= rs[k].at
    ensures TableContent(rs, bytes, e)[rs[i].at..rs[i].at + |rs[i].bytes|] == rs[i].bytes
    decreases e
  {
    hide Overwrite, InTable;
    RecordsInside(rs, bytes, i);
    RecordsInside(rs, bytes, e - 1);
    var before := TableContent(rs, bytes, e - 1);
    if i < e - 1 {
      RecordStands(rs, bytes, e - 1, i);
      OverwriteOutside(before, rs[i].at, |rs[i].bytes|, rs[e - 1].at, rs[e - 1].bytes);
    } else {
      Splice(before, rs[i].at, rs[i].bytes, 0, 0);
    }
  }

  lemma RecordsInside(rs: seq<Record>, bytes: nat, i: nat)
    requires i < |rs| && InTable(rs[i], bytes)
    ensures rs[i].at + |rs[i].bytes| <= bytes
  {
  }

  /** Whatever the hardware does with a binding's record, it reads the caller's data:
      the record leads to the data itself where that is aligned, and otherwise to a
      copy inside the allocation. */
  lemma VerticesAreRead(n: Needs, c: Contents, address: nat, memory: seq<Byte>, i: nat)
    requires LayoutOf(n).Some? && |memory| == LayoutOf(n).value.bytes
    requires ValidContents(n, c) && Encodes(n, address, |Spans(n)|) && Holds(n, c, address, memory)
    requires i < |Spans(n)| && Spans(n)[i].address != 0
    ensures var v, record := Spans(n)[i], View(n, memory, Table)[RECORD * i..RECORD * i + RECORD];
      var from := WordAt(record, 0) + WordAt(record, 4) % 0x1_0000 * U32;
      && WordAt(record, 4) / 0x1_0000 == v.stride && WordAt(record, 8) == v.bytes / v.stride
      && (!Unaligned(v) ==> from == v.address)
      && (Unaligned(v) ==>
            && address <= from && from + v.bytes <= address + |memory|
            && memory[from - address..from - address + v.bytes] == c.data[i])
  {
    hide LayoutOf, Encodable, Descriptor, WordAt;
    assert BindingHolds(n, c, address, memory, i) && BindingEncodes(address, Spans(n)[i], CopyAt(n, i));
    DescriptorReadsBack(Source(address, Spans(n)[i], CopyAt(n, i)), Spans(n)[i]);
    if Unaligned(Spans(n)[i]) { CopyIsPlaced(n, i); }
  }

  lemma CopyIsPlaced(n: Needs, i: nat)
    requires LayoutOf(n).Some? && HasPart(n, Copy(i))
    ensures Place(n, Copy(i)) == CopyAt(n, i)
  {
    hide LayoutOf;
  }
}
