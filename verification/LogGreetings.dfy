/** Reading greetings and goodbyes back, word by word (cts/ps5log.h). */
module LogGreetings {
  import opened LogFormat
  import opened LogRecords
  import opened Words

  // ----- words separated by blanks

  function Split(s: string): seq<string>
    decreases |s|
  {
    if ' ' !in s then [s] else [Before(s, ' ')] + Split(After(s, ' '))
  }

  function Join(words: seq<string>): string
    requires words != []
  {
    if |words| == 1 then words[0] else words[0] + [' '] + Join(words[1..])
  }

  lemma {:induction false} JoinSplits(words: seq<string>)
    requires words != [] && forall i | 0 <= i < |words| :: ' ' !in words[i]
    ensures Split(Join(words)) == words
    decreases |words|
  {
    if |words| == 1 {
      assert words == [words[0]];
    } else {
      JoinSplits(words[1..]);
      CutAt(words[0], ' ', Join(words[1..]));
      assert words == [words[0]] + words[1..];
    }
  }

  // ----- hexadecimal numbers

  function HexValue(c: char): Option<nat> {
    if '0' <= c <= '9' then Some(c as nat - '0' as nat)
    else if 'a' <= c <= 'f' then Some(c as nat - 'a' as nat + 10)
    else None
  }

  function ParseHex(s: string): Option<nat> {
    if s == [] || HexValue(s[|s| - 1]).None? then None
    else if |s| == 1 then HexValue(s[0])
    else
      var front := ParseHex(s[..|s| - 1]);
      if front.None? then None else Some(16 * front.value + HexValue(s[|s| - 1]).value)
  }

  lemma HexDigitParses(d: nat)
    requires d < 16
    ensures HexValue(HexDigit(d)) == Some(d)
  {
  }

  lemma {:induction false} HexParses(n: nat)
    ensures ParseHex(Hex(n)) == Some(n)
  {
    hide HexDigit, HexValue;
    HexDigitParses(n % 16);
    var s := Hex(n);
    if n >= 16 {
      HexParses(n / 16);
      assert s[..|s| - 1] == Hex(n / 16) && s[|s| - 1] == HexDigit(n % 16);
    } else {
      assert s == [HexDigit(n)] && n % 16 == n;
    }
  }

  lemma {:induction false} NoBlankInHex(n: nat)
    ensures ' ' !in Hex(n)
  {
    if n >= 16 { NoBlankInHex(n / 16); }
  }

  lemma {:induction false} NoBlankInDecimal(n: nat)
    ensures ' ' !in Decimal(n)
  {
    if n >= 10 { NoBlankInDecimal(n / 10); }
  }

  // ----- cleaned text

  /** What becomes of each byte: line breaks, and blanks and tabs in a word, are
      replaced; every other byte is kept. */
  lemma {:induction false} CleanKeeps(s: string, allowTab: bool, i: nat)
    requires i < |s|
    ensures |CleanAll(s, allowTab)| == |s|
    ensures var c, d := s[i], CleanAll(s, allowTab)[i];
      && (c == '\n' || c == '\r' ==> d == if allowTab then ' ' else '_')
      && (c == '\t' ==> d == if allowTab then '\t' else '_')
      && (c == ' ' ==> d == if allowTab then ' ' else '_')
      && (c != '\n' && c != '\r' && c != '\t' && c != ' ' ==> d == c)
    decreases |s|
  {
    CleanHolds(s, allowTab);
    if i > 0 { CleanKeeps(s[1..], allowTab, i - 1); }
  }

  // ----- greetings

  function Shown(s: string, otherwise: string): string { CleanAll(if s == "" then otherwise else s, false) }

  function HeadWords(h: Hello): (words: seq<string>)
    ensures |words| == 5
  {
    ["HELLO", "ps5log/1", "title=" + Shown(h.title, "unknown"), "app=" + Shown(h.app, "unknown"),
     "boot=0x" + Hex(h.boot)]
  }

  /** What a greeting says: title, application and boot token, a tag if there is one,
      and on a resumed connection the number of the next record. */
  function HelloWords(h: Hello, resume: bool, next: nat): (words: seq<string>)
    ensures words != []
  {
    HeadWords(h) + (if h.tag == "" then [] else ["tag=" + CleanAll(h.tag, false)])
    + (if resume then ["resume=1", "next_seq=" + Decimal(next)] else [])
  }

  lemma JoinOne(word: string)
    ensures Join([word]) == word
  {
  }

  lemma JoinFirst(word: string, words: seq<string>)
    requires words != []
    ensures Join([word] + words) == word + [' '] + Join(words)
  {
    assert ([word] + words)[1..] == words;
  }

  lemma {:induction false} JoinBoth(a: seq<string>, b: seq<string>)
    requires a != [] && b != []
    ensures Join(a + b) == Join(a) + [' '] + Join(b)
    decreases |a|
  {
    if |a| == 1 {
      assert a == [a[0]];
      JoinFirst(a[0], b);
    } else {
      JoinBoth(a[1..], b);
      assert a + b == [a[0]] + (a[1..] + b);
      JoinFirst(a[0], a[1..] + b);
      assert a == [a[0]] + a[1..];
      JoinFirst(a[0], a[1..]);
    }
  }

  lemma JoinTwo(a: string, b: string)
    ensures Join([a, b]) == a + [' '] + b
  {
    assert [a, b] == [a] + [b];
    JoinFirst(a, [b]);
    JoinOne(b);
  }

  lemma HeadIsJoined(h: Hello)
    ensures HelloHead(h) == Join(HeadWords(h))
  {
    hide CleanAll, Hex, Join;
    var t, a, b := Shown(h.title, "unknown"), Shown(h.app, "unknown"), Hex(h.boot);
    JoinTwo("HELLO", "ps5log/1");
    JoinTwo("title=" + t, "app=" + a);
    JoinOne("boot=0x" + b);
    var one, two, three := ["HELLO", "ps5log/1"], ["title=" + t, "app=" + a], ["boot=0x" + b];
    JoinBoth(one, two);
    JoinBoth(one + two, three);
    assert HeadWords(h) == one + two + three;
    assert "HELLO" + [' '] + "ps5log/1" + [' '] + "title=" == "HELLO ps5log/1 title=";
    assert [' '] + "app=" == " app=" && [' '] + "boot=0x" == " boot=" + "0x";
  }

  lemma TagIsJoined(head: seq<string>, tag: string)
    requires head != []
    ensures Join(head) + HelloTag(tag) == Join(head + if tag == "" then [] else ["tag=" + CleanAll(tag, false)])
  {
    hide CleanAll, Join;
    if tag == "" {
      assert head + [] == head && Join(head) + "" == Join(head);
    } else {
      var word := CleanAll(tag, false);
      JoinOne("tag=" + word);
      JoinBoth(head, ["tag=" + word]);
      Regrouped(Join(head), "tag=", word);
      assert [' '] + "tag=" == " tag=";
    }
  }

  lemma Regrouped(front: string, key: string, word: string)
    ensures front + [' '] + (key + word) == front + (([' '] + key) + word)
  {
  }

  lemma ResumeIsJoined(head: seq<string>, resume: bool, next: nat)
    requires head != []
    ensures Join(head) + HelloNext(resume, next)
            == Join(head + if resume then ["resume=1", "next_seq=" + Decimal(next)] else [])
  {
    hide Decimal, Join;
    if resume {
      var d := Decimal(next);
      JoinTwo("resume=1", "next_seq=" + d);
      JoinBoth(head, ["resume=1", "next_seq=" + d]);
      assert "resume=1" + [' '] + ("next_seq=" + d) == "resume=1 next_seq=" + d by {
        assert "resume=1" + [' '] + "next_seq=" == "resume=1 next_seq=";
      }
      Regrouped(Join(head), "resume=1 next_seq=", d);
      assert [' '] + "resume=1 next_seq=" == " resume=1 next_seq=";
    } else {
      assert head + [] == head && Join(head) + "" == Join(head);
    }
  }

  lemma GreetingIsJoined(h: Hello, resume: bool, next: nat)
    ensures HelloContent(h, resume, next) == Join(HelloWords(h, resume, next))
  {
    hide CleanAll, Decimal, Join, HelloHead, HelloTag, HelloNext;
    HeadIsJoined(h);
    var head := HeadWords(h);
    var tagged := head + if h.tag == "" then [] else ["tag=" + CleanAll(h.tag, false)];
    TagIsJoined(head, h.tag);
    ResumeIsJoined(tagged, resume, next);
  }

  lemma NoBlanks(h: Hello, resume: bool, next: nat)
    ensures forall i | 0 <= i < |HelloWords(h, resume, next)| :: ' ' !in HelloWords(h, resume, next)[i]
  {
    hide CleanAll, Decimal, Hex;
    CleanHolds(if h.title == "" then "unknown" else h.title, false);
    CleanHolds(if h.app == "" then "unknown" else h.app, false);
    CleanHolds(h.tag, false);
    NoBlankInHex(h.boot);
    NoBlankInDecimal(next);
  }

  /** A greeting that was not cut is read back word by word: its words are the ones
      meant, and their numbers are the boot token and the next record's. */
  lemma GreetingReadsBack(cap: nat, h: Hello, resume: bool, next: nat)
    requires |HelloContent(h, resume, next)| + 2 <= cap
    ensures Split(Body(LineOf(HelloContent(h, resume, next), cap))) == HelloWords(h, resume, next)
    ensures ParseHex(Hex(h.boot)) == Some(h.boot) && ParseDecimal(Decimal(next)) == Some(next)
  {
    hide HelloContent, HelloWords, Join, Split;
    assert Body(LineOf(HelloContent(h, resume, next), cap)) == HelloContent(h, resume, next);
    GreetingIsJoined(h, resume, next);
    NoBlanks(h, resume, next);
    JoinSplits(HelloWords(h, resume, next));
    HexParses(h.boot);
    DecimalParses(next);
  }

  lemma ByeRegrouped(digits: string, why: string)
    ensures "BYE" + [' '] + (("seq=" + digits) + [' '] + ("reason=" + why)) == "BYE seq=" + digits + " reason=" + why
  {
    assert "BYE" + [' '] + "seq=" == "BYE seq=" && [' '] + "reason=" == " reason=";
  }

  /** The same for a goodbye: the last number and the reason. */
  lemma GoodbyeReadsBack(cap: nat, number: nat, reason: string)
    requires |ByeContent(number, reason)| + 2 <= cap
    ensures Split(Body(LineOf(ByeContent(number, reason), cap)))
            == ["BYE", "seq=" + Decimal(number), "reason=" + Shown(reason, "closed")]
    ensures ParseDecimal(Decimal(number)) == Some(number)
  {
    hide CleanAll, Decimal, Join, Split;
    var n, why := "seq=" + Decimal(number), "reason=" + Shown(reason, "closed");
    assert Body(LineOf(ByeContent(number, reason), cap)) == ByeContent(number, reason);
    assert ["BYE", n, why] == ["BYE"] + [n, why];
    JoinTwo(n, why);
    JoinFirst("BYE", [n, why]);
    ByeRegrouped(Decimal(number), Shown(reason, "closed"));
    assert ByeContent(number, reason) == Join(["BYE", n, why]);
    CleanHolds(if reason == "" then "closed" else reason, false);
    NoBlankInDecimal(number);
    JoinSplits(["BYE", n, why]);
    DecimalParses(number);
  }
}
