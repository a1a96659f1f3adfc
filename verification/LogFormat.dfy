/** The record formatting of cts/ps5log.h: bounded appends into a buffer, one
    newline at the end whatever the fields hold. */
module LogFormat {
  import opened Words

  const INFO: string := "INFO"

  // ----- what a line holds

  /** Bytes that would break the framing become a blank, or an underscore where
      blanks separate fields. */
  function Clean(c: char, allowTab: bool): char {
    if c == '\n' || c == '\r' || (!allowTab && (c == '\t' || c == ' ')) then (if allowTab then ' ' else '_') else c
  }

  function CleanAll(s: string, allowTab: bool): string {
    if s == [] then [] else [Clean(s[0], allowTab)] + CleanAll(s[1..], allowTab)
  }

  function Digit(d: nat): char
    requires d < 10
  {
    '0' + d as char
  }

  function Decimal(n: nat): (s: string)
    ensures s != []
  {
    if n < 10 then [Digit(n)] else Decimal(n / 10) + [Digit(n % 10)]
  }

  /** The fields of a record, separated by tabs; an absent level is INFO. */
  function Content(number: nat, time: nat, level: string, text: string): string {
    Decimal(number) + "\t" + Decimal(time) + "\t"
    + CleanAll(if level == "" then INFO else level, false) + "\t" + CleanAll(text, true)
  }

  // ----- bounded appends

  /** How much of n bytes goes behind position pos, leaving the last byte free. */
  function Room(cap: nat, pos: nat, n: nat): nat {
    var room := if pos < cap then cap - 1 - pos else 0;
    if n > room then room else n
  }

  /** A line with as much of `more` behind it as there is room for. */
  function Fill(s: string, cap: nat, more: string): string { s + more[..Room(cap, |s|, |more|)] }

  /** The buffer holds the line up to pos, and nothing behind its capacity has
      been touched. */
  predicate Holds(before: seq<char>, out: seq<char>, cap: nat, pos: nat, s: string) {
    && |before| == |out| && cap <= |out| && pos == |s| <= |out|
    && out[..pos] == s && out[cap..] == before[cap..]
  }

  method AppendBytes(out: array<char>, cap: nat, pos: nat, src: string, ghost before: seq<char>, ghost s: string)
    returns (pos': nat)
    requires Holds(before, out[..], cap, pos, s)
    modifies out
    ensures Holds(before, out[..], cap, pos', Fill(s, cap, src))
  {
    var room := if pos < cap then cap - 1 - pos else 0;
    var n := if |src| > room then room else |src|;
    var i := 0;
    while i < n
      invariant i <= n && Holds(before, out[..], cap, pos + i, s + src[..i])
    {
      out[pos + i] := src[i];
      assert src[..i + 1] == src[..i] + [src[i]];
      i := i + 1;
    }
    pos' := pos + n;
  }

  lemma FillFill(s: string, cap: nat, a: string, b: string)
    ensures Fill(Fill(s, cap, a), cap, b) == Fill(s, cap, a + b)
  {
    var k := Room(cap, |s|, |a|);
    assert (a + b)[..Room(cap, |s|, |a + b|)] == a[..k] + b[..Room(cap, |s| + k, |b|)];
  }

  lemma FillNothing(s: string, cap: nat)
    ensures Fill(s, cap, "") == s
  {
  }

  lemma {:induction false} DecimalWidth(n: nat, width: nat)
    requires n < Power10(width) && width > 0
    ensures |Decimal(n)| <= width
    decreases width
  {
    if n >= 10 { DecimalWidth(n / 10, width - 1); }
  }

  function Power10(k: nat): nat { if k == 0 then 1 else 10 * Power10(k - 1) }

  lemma TwentyDigits(n: nat)
    requires n < U64
    ensures |Decimal(n)| <= 20
  {
    assert Power10(5) == 100000 && Power10(10) == 100000 * Power10(5);
    assert Power10(15) == 100000 * Power10(10) && Power10(20) == 100000 * Power10(15);
    DecimalWidth(n, 20);
  }

  method AppendU64(out: array<char>, cap: nat, pos: nat, value: nat, ghost before: seq<char>, ghost s: string)
    returns (pos': nat)
    requires Holds(before, out[..], cap, pos, s) && value < U64
    modifies out
    ensures Holds(before, out[..], cap, pos', Fill(s, cap, Decimal(value)))
  {
    var digits := WriteDigits(value);
    pos' := AppendBytes(out, cap, pos, digits, before, s);
  }

  /** The digits of a number that has some left to write. */
  function Leading(n: nat): (s: string)
    ensures n > 0 ==> s != []
    ensures n == 0 ==> s == []
  {
    if n == 0 then [] else Decimal(n)
  }

  lemma LastDigit(n: nat)
    ensures Decimal(n) == Leading(n / 10) + [Digit(n % 10)]
    ensures n > 0 ==> Leading(n) == Decimal(n)
  {
  }

  /** The digits, written from the end of a 21-byte scratch. */
  method WriteDigits(value: nat) returns (digits: string)
    requires value < U64
    ensures digits == Decimal(value)
  {
    hide Decimal, Digit, Leading;
    TwentyDigits(value);
    LastDigit(value);
    var scratch := new char[21];
    var n: nat, left: nat := 1, value / 10;
    scratch[20] := Digit(value % 10);
    while left > 0
      invariant 1 <= n <= 20
      invariant Decimal(value) == Leading(left) + scratch[21 - n..]
    {
      LastDigit(left);
      ghost var tail := scratch[21 - n..];
      scratch[20 - n] := Digit(left % 10);
      assert scratch[20 - n..] == [Digit(left % 10)] + tail;
      assert Leading(left / 10) + [Digit(left % 10)] + tail == Leading(left / 10) + ([Digit(left % 10)] + tail);
      n, left := n + 1, left / 10;
    }
    digits := scratch[21 - n..];
  }

  method Put(out: array<char>, cap: nat, pos: nat, c: char, ghost before: seq<char>, ghost line: string)
    requires Holds(before, out[..], cap, pos, line) && pos + 1 < cap
    modifies out
    ensures Holds(before, out[..], cap, pos + 1, line + [c])
  {
    out[pos] := c;
  }

  lemma FillFirst(line: string, cap: nat, c: char, rest: string)
    ensures |line| + 1 < cap ==> Fill(line, cap, [c] + rest) == Fill(line + [c], cap, rest)
    ensures |line| + 1 >= cap ==> Fill(line, cap, [c] + rest) == line
  {
    FillFill(line, cap, [c], rest);
  }

  method AppendSanitized(out: array<char>, cap: nat, pos: nat, src: string, allowTab: bool, ghost before: seq<char>,
      ghost s: string)
    returns (pos': nat)
    requires Holds(before, out[..], cap, pos, s)
    modifies out
    ensures Holds(before, out[..], cap, pos', Fill(s, cap, CleanAll(src, allowTab)))
  {
    hide Fill;
    pos' := pos;
    var i := 0;
    ghost var line := s;
    while i < |src|
      invariant i <= |src| && Holds(before, out[..], cap, pos', line)
      invariant Fill(line, cap, CleanAll(src[i..], allowTab)) == Fill(s, cap, CleanAll(src, allowTab))
    {
      assert src[i..][1..] == src[i + 1..];
      FillFirst(line, cap, Clean(src[i], allowTab), CleanAll(src[i + 1..], allowTab));
      var c := src[i];
      if c == '\n' || c == '\r' || (!allowTab && c == '\t') || (!allowTab && c == ' ') {
        c := if allowTab then ' ' else '_';
      }
      if pos' + 1 >= cap {
        return;
      }
      Put(out, cap, pos', c, before, line);
      pos', i, line := pos' + 1, i + 1, line + [c];
    }
    FillNothing(line, cap);
  }

  /** The line, cut to leave room for its newline and the terminator. */
  function Finished(s: string, cap: nat): string
    requires cap >= 2
  {
    (if |s| > cap - 2 then s[..cap - 2] else s) + "\n"
  }

  method FinishLine(out: array<char>, cap: nat, pos: nat, ghost before: seq<char>, ghost s: string) returns (pos': nat)
    requires Holds(before, out[..], cap, pos, s)
    modifies out
    ensures cap <= out.Length && out[cap..] == before[cap..]
    ensures cap == 0 ==> pos' == 0 && out[..] == old(out[..])
    ensures cap == 1 ==> pos' == 0 && out[0] == '\0'
    ensures cap >= 2 ==> Holds(before, out[..], cap, pos', Finished(s, cap)) && pos' < cap && out[pos'] == '\0'
  {
    if cap == 0 {
      return 0;
    }
    if cap == 1 {
      out[0] := '\0';
      return 0;
    }
    pos' := if pos > cap - 2 then cap - 2 else pos;
    out[pos'] := '\n';
    pos' := pos' + 1;
    out[pos'] := '\0';
  }

  // ----- whole lines

  /** A line of this content in a buffer of this capacity. */
  function LineOf(content: string, cap: nat): (line: string)
    requires cap >= 2
    ensures 0 < |line| < cap
  {
    (if |content| > cap - 2 then content[..cap - 2] else content) + "\n"
  }

  lemma FinishedIsLine(content: string, cap: nat)
    requires cap >= 2
    ensures Finished(Fill("", cap, content), cap) == LineOf(content, cap)
  {
    assert "" + content[..Room(cap, 0, |content|)] == content[..Room(cap, 0, |content|)];
  }

  /** What a formatter leaves in its buffer. */
  predicate Formatted(before: seq<char>, out: seq<char>, cap: nat, n: nat, content: string) {
    && |out| == |before| && cap <= |out| && out[cap..] == before[cap..]
    && (cap < 2 ==> n == 0)
    && (cap >= 2 ==> n == |LineOf(content, cap)| && out[..n] == LineOf(content, cap) && out[n] == '\0')
  }

  /** A line in the making: all of the content so far that there is room for. */
  predicate Making(before: seq<char>, out: seq<char>, cap: nat, pos: nat, content: string) {
    Holds(before, out, cap, pos, Fill("", cap, content))
  }

  method Text(out: array<char>, cap: nat, pos: nat, src: string, ghost before: seq<char>, ghost content: string)
    returns (pos': nat)
    requires Making(before, out[..], cap, pos, content)
    modifies out
    ensures Making(before, out[..], cap, pos', content + src)
  {
    FillFill("", cap, content, src);
    pos' := AppendBytes(out, cap, pos, src, before, Fill("", cap, content));
  }

  method Number(out: array<char>, cap: nat, pos: nat, value: nat, ghost before: seq<char>, ghost content: string)
    returns (pos': nat)
    requires Making(before, out[..], cap, pos, content) && value < U64
    modifies out
    ensures Making(before, out[..], cap, pos', content + Decimal(value))
  {
    FillFill("", cap, content, Decimal(value));
    pos' := AppendU64(out, cap, pos, value, before, Fill("", cap, content));
  }

  method Sanitized(out: array<char>, cap: nat, pos: nat, src: string, allowTab: bool, ghost before: seq<char>,
      ghost content: string)
    returns (pos': nat)
    requires Making(before, out[..], cap, pos, content)
    modifies out
    ensures Making(before, out[..], cap, pos', content + CleanAll(src, allowTab))
  {
    FillFill("", cap, content, CleanAll(src, allowTab));
    pos' := AppendSanitized(out, cap, pos, src, allowTab, before, Fill("", cap, content));
  }

  method Finish(out: array<char>, cap: nat, pos: nat, ghost before: seq<char>, ghost content: string) returns (n: nat)
    requires Making(before, out[..], cap, pos, content)
    modifies out
    ensures Formatted(before, out[..], cap, n, content)
  {
    if cap >= 2 { FinishedIsLine(content, cap); }
    n := FinishLine(out, cap, pos, before, Fill("", cap, content));
  }

  method FormatRecord(out: array<char>, cap: nat, number: nat, time: nat, level: string, text: string) returns (n: nat)
    requires cap <= out.Length && number < U64 && time < U64
    modifies out
    ensures Formatted(old(out[..]), out[..], cap, n, Content(number, time, level, text))
  {
    hide Making, Formatted, Decimal, CleanAll;
    ghost var before := out[..];
    StartMaking(before, cap);
    if cap == 0 {
      NothingFormatted(before, Content(number, time, level, text));
      return 0;
    }
    ghost var c := Decimal(number) + "\t" + Decimal(time) + "\t";
    var pos := Number(out, cap, 0, number, before, "");
    assert "" + Decimal(number) == Decimal(number);
    pos := Text(out, cap, pos, "\t", before, Decimal(number));
    pos := Number(out, cap, pos, time, before, Decimal(number) + "\t");
    pos := Text(out, cap, pos, "\t", before, Decimal(number) + "\t" + Decimal(time));
    var shown := if level == "" then INFO else level;
    pos := Sanitized(out, cap, pos, shown, false, before, c);
    pos := Text(out, cap, pos, "\t", before, c + CleanAll(shown, false));
    pos := Sanitized(out, cap, pos, text, true, before, c + CleanAll(shown, false) + "\t");
    n := Finish(out, cap, pos, before, Content(number, time, level, text));
  }

  lemma StartMaking(before: seq<char>, cap: nat)
    requires cap <= |before|
    ensures Making(before, before, cap, 0, "")
  {
  }

  lemma NothingFormatted(before: seq<char>, content: string)
    ensures Formatted(before, before, 0, 0, content)
  {
  }

  // ----- the other two lines

  function HexDigit(d: nat): char
    requires d < 16
  {
    "0123456789abcdef"[d]
  }

  function Hex(n: nat): (s: string)
    ensures s != []
  {
    if n < 16 then [HexDigit(n)] else Hex(n / 16) + [HexDigit(n % 16)]
  }

  datatype Hello = Hello(title: string, app: string, boot: nat, tag: string)

  function HelloHead(h: Hello): string {
    "HELLO ps5log/1 title=" + CleanAll(if h.title == "" then "unknown" else h.title, false)
    + " app=" + CleanAll(if h.app == "" then "unknown" else h.app, false) + " boot=" + "0x" + Hex(h.boot)
  }

  function HelloTag(tag: string): string { if tag == "" then "" else " tag=" + CleanAll(tag, false) }

  function HelloNext(resume: bool, next: nat): string { if resume then " resume=1 next_seq=" + Decimal(next) else "" }

  function HelloContent(h: Hello, resume: bool, next: nat): string {
    HelloHead(h) + HelloTag(h.tag) + HelloNext(resume, next)
  }

  function ByeContent(number: nat, reason: string): string {
    "BYE seq=" + Decimal(number) + " reason=" + CleanAll(if reason == "" then "closed" else reason, false)
  }

  function Power16(k: nat): nat { if k == 0 then 1 else 16 * Power16(k - 1) }

  lemma {:induction false} HexWidth(n: nat, width: nat)
    requires n < Power16(width) && width > 0
    ensures |Hex(n)| <= width
    decreases width
  {
    if n >= 16 { HexWidth(n / 16, width - 1); }
  }

  lemma SixteenDigits(n: nat)
    requires n < U64
    ensures |Hex(n)| <= 16
  {
    assert Power16(4) == 0x1_0000 && Power16(8) == 0x1_0000 * Power16(4);
    assert Power16(12) == 0x1_0000 * Power16(8) && Power16(16) == 0x1_0000 * Power16(12);
    HexWidth(n, 16);
  }

  function LeadingHex(n: nat): (s: string)
    ensures n > 0 ==> s != []
    ensures n == 0 ==> s == []
  {
    if n == 0 then [] else Hex(n)
  }

  lemma LastHexDigit(n: nat)
    ensures Hex(n) == LeadingHex(n / 16) + [HexDigit(n % 16)]
    ensures n > 0 ==> LeadingHex(n) == Hex(n)
  {
    hide HexDigit;
  }

  method WriteHexDigits(value: nat) returns (digits: string)
    requires value < U64
    ensures digits == Hex(value)
  {
    hide Hex, HexDigit, LeadingHex;
    SixteenDigits(value);
    LastHexDigit(value);
    var scratch := new char[16];
    var n: nat, left: nat := 1, value / 16;
    scratch[15] := HexDigit(value % 16);
    while left > 0
      invariant 1 <= n <= 16
      invariant Hex(value) == LeadingHex(left) + scratch[16 - n..]
    {
      LastHexDigit(left);
      ghost var tail := scratch[16 - n..];
      scratch[15 - n] := HexDigit(left % 16);
      assert scratch[15 - n..] == [HexDigit(left % 16)] + tail;
      ghost var front, digit := LeadingHex(left / 16), HexDigit(left % 16);
      assert front + [digit] + tail == front + ([digit] + tail);
      n, left := n + 1, left / 16;
    }
    digits := scratch[16 - n..];
  }

  method PutHelloHead(out: array<char>, cap: nat, h: Hello, ghost before: seq<char>) returns (pos: nat)
    requires Making(before, out[..], cap, 0, "") && h.boot < U64
    modifies out
    ensures Making(before, out[..], cap, pos, HelloHead(h))
  {
    hide Making, CleanAll, Hex;
    var title, app := if h.title == "" then "unknown" else h.title, if h.app == "" then "unknown" else h.app;
    ghost var c := "HELLO ps5log/1 title=";
    pos := Text(out, cap, 0, "HELLO ps5log/1 title=", before, "");
    assert "" + c == c;
    pos := Sanitized(out, cap, pos, title, false, before, c);
    c := c + CleanAll(title, false);
    pos := Text(out, cap, pos, " app=", before, c);
    c := c + " app=";
    pos := Sanitized(out, cap, pos, app, false, before, c);
    c := c + CleanAll(app, false);
    pos := Text(out, cap, pos, " boot=", before, c);
    c := c + " boot=";
    pos := Text(out, cap, pos, "0x", before, c);
    var digits := WriteHexDigits(h.boot);
    pos := Text(out, cap, pos, digits, before, c + "0x");
  }

  method PutHelloTag(out: array<char>, cap: nat, pos: nat, tag: string, ghost before: seq<char>, ghost c: string)
    returns (pos': nat)
    requires Making(before, out[..], cap, pos, c)
    modifies out
    ensures Making(before, out[..], cap, pos', c + HelloTag(tag))
  {
    hide Making, CleanAll;
    pos' := pos;
    assert c + "" == c;
    if tag != "" {
      pos' := Text(out, cap, pos', " tag=", before, c);
      pos' := Sanitized(out, cap, pos', tag, false, before, c + " tag=");
      assert c + " tag=" + CleanAll(tag, false) == c + (" tag=" + CleanAll(tag, false));
    }
  }

  method PutHelloNext(out: array<char>, cap: nat, pos: nat, resume: bool, next: nat, ghost before: seq<char>,
      ghost c: string)
    returns (pos': nat)
    requires Making(before, out[..], cap, pos, c) && next < U64
    modifies out
    ensures Making(before, out[..], cap, pos', c + HelloNext(resume, next))
  {
    hide Making, Decimal;
    pos' := pos;
    assert c + "" == c;
    if resume {
      pos' := Text(out, cap, pos', " resume=1 next_seq=", before, c);
      pos' := Number(out, cap, pos', next, before, c + " resume=1 next_seq=");
      assert c + " resume=1 next_seq=" + Decimal(next) == c + (" resume=1 next_seq=" + Decimal(next));
    }
  }

  method FormatHello(out: array<char>, cap: nat, h: Hello, resume: bool, next: nat) returns (n: nat)
    requires cap <= out.Length && h.boot < U64 && next < U64
    modifies out
    ensures Formatted(old(out[..]), out[..], cap, n, HelloContent(h, resume, next))
  {
    hide Making, Formatted, HelloHead, HelloTag, HelloNext;
    ghost var before := out[..];
    StartMaking(before, cap);
    if cap == 0 {
      NothingFormatted(before, HelloContent(h, resume, next));
      return 0;
    }
    var pos := PutHelloHead(out, cap, h, before);
    pos := PutHelloTag(out, cap, pos, h.tag, before, HelloHead(h));
    pos := PutHelloNext(out, cap, pos, resume, next, before, HelloHead(h) + HelloTag(h.tag));
    n := Finish(out, cap, pos, before, HelloContent(h, resume, next));
  }

  method FormatBye(out: array<char>, cap: nat, number: nat, reason: string) returns (n: nat)
    requires 0 < cap <= out.Length && number < U64
    modifies out
    ensures Formatted(old(out[..]), out[..], cap, n, ByeContent(number, reason))
  {
    hide Making, Formatted, Decimal, CleanAll;
    ghost var before := out[..];
    StartMaking(before, cap);
    var shown := if reason == "" then "closed" else reason;
    ghost var c := "BYE seq=" + Decimal(number);
    var pos := Text(out, cap, 0, "BYE seq=", before, "");
    assert "" + "BYE seq=" == "BYE seq=";
    pos := Number(out, cap, pos, number, before, "BYE seq=");
    pos := Text(out, cap, pos, " reason=", before, c);
    pos := Sanitized(out, cap, pos, shown, false, before, c + " reason=");
    n := Finish(out, cap, pos, before, ByeContent(number, reason));
  }
}
