/** Decimal numbers inside the ids the system generates, and why distinct inputs give
    distinct ids. */
module Identifiers {
  import opened Common

  predicate IsDigit(c: char) { '0' <= c <= '9' }

  predicate AllDigits(s: string) {
    s == "" || (IsDigit(s[|s| - 1]) && AllDigits(s[..|s| - 1]))
  }

  function Digit(n: nat): char
    requires n < 10
  {
    '0' + n as char
  }

  function Decimal(n: nat): (s: string)
    ensures s != ""
  {
    if n < 10 then [Digit(n)] else Decimal(n / 10) + [Digit(n % 10)]
  }

  /** A number with its sign. */
  function Signed(n: int): string {
    if n < 0 then "-" + Decimal(-n) else Decimal(n)
  }

  /** `padStart(width, '0')` of a decimal number, which is also the format `:0<width>d`. */
  function Padded(n: nat, width: nat): string {
    Zeros(width - |Decimal(n)|) + Decimal(n)
  }

  function Zeros(k: int): string
    decreases k
  {
    if k <= 0 then "" else "0" + Zeros(k - 1)
  }

  /** The number a string of digits denotes. */
  function Value(s: string): nat
    requires AllDigits(s)
  {
    if s == "" then 0 else 10 * Value(s[..|s| - 1]) + (s[|s| - 1] - '0') as nat
  }

  lemma {:induction false} DecimalValue(n: nat)
    ensures AllDigits(Decimal(n)) && Value(Decimal(n)) == n
  {
    if n < 10 {
      assert Decimal(n)[..0] == "";
    } else {
      DecimalValue(n / 10);
      assert Decimal(n)[..|Decimal(n)| - 1] == Decimal(n / 10);
    }
  }

  lemma {:induction false} ZerosInFront(k: int, s: string)
    requires AllDigits(s)
    ensures AllDigits(Zeros(k) + s) && Value(Zeros(k) + s) == Value(s)
    decreases |s|, k
  {
    var z := Zeros(k) + s;
    if s != "" {
      ZerosInFront(k, s[..|s| - 1]);
      assert z[..|z| - 1] == Zeros(k) + s[..|s| - 1];
    } else if k > 0 {
      ZerosInFront(k - 1, "");
      OnlyZeros(k);
      assert z == Zeros(k) && z[..|z| - 1] == Zeros(k - 1) + "";
    }
  }

  lemma {:induction false} OnlyZeros(k: int)
    ensures |Zeros(k)| == Max(k, 0) && forall i :: 0 <= i < |Zeros(k)| ==> Zeros(k)[i] == '0'
    ensures k > 0 ==> Zeros(k)[..|Zeros(k)| - 1] == Zeros(k - 1)
    decreases k
  {
    if k > 0 { OnlyZeros(k - 1); }
  }

  /** Padding fills up to the width and does not change the number, so padded numbers differ
      when the numbers do. */
  lemma {:induction false} PaddedValue(n: nat, width: nat)
    ensures AllDigits(Padded(n, width)) && Value(Padded(n, width)) == n
    ensures |Padded(n, width)| == Max(width, |Decimal(n)|) > 0
  {
    DecimalValue(n);
    OnlyZeros(width - |Decimal(n)|);
    ZerosInFront(width - |Decimal(n)|, Decimal(n));
  }

  lemma {:induction false} OnlyDigits(s: string)
    requires AllDigits(s)
    ensures forall i :: 0 <= i < |s| ==> IsDigit(s[i])
  {
    if s != "" { OnlyDigits(s[..|s| - 1]); }
  }

  /** A string is cut in one way only at the last occurrence of a separator. */
  lemma {:induction false} LastCut(a: string, b: string, a': string, b': string, c: char)
    requires a + [c] + b == a' + [c] + b'
    requires c !in b && c !in b'
    ensures a == a' && b == b'
  {
    var s, s' := a + [c] + b, a' + [c] + b';
    assert s[|a|] == c && s'[|a'|] == c;
    assert forall k :: |a| < k < |s| ==> s[k] == b[k - |a| - 1];
    assert forall k :: |a'| < k < |s'| ==> s'[k] == b'[k - |a'| - 1];
    assert |a| == |a'|;
    assert a == s[..|a|] && a' == s'[..|a|];
    assert b == s[|a| + 1..] && b' == s'[|a| + 1..];
  }

  // ── Ids of incoming messages ────────────────────────────────────────────

  function MessageId(session: string, timestamp: int, index: nat): string {
    "m_" + session + "_" + Signed(timestamp) + "_" + Padded(index, 3)
  }

  lemma {:induction false} SignedIsPlain(n: int)
    ensures '_' !in Signed(n)
  {
    DecimalValue(if n < 0 then -n else n);
    OnlyDigits(Decimal(if n < 0 then -n else n));
  }

  lemma {:induction false} SignedValue(n: int, m: int)
    requires Signed(n) == Signed(m)
    ensures n == m
  {
    DecimalValue(if n < 0 then -n else n);
    DecimalValue(if m < 0 then -m else m);
    OnlyDigits(Decimal(if n < 0 then -n else n));
    OnlyDigits(Decimal(if m < 0 then -m else m));
    if n < 0 && m < 0 {
      assert Decimal(-n) == Signed(n)[1..] && Decimal(-m) == Signed(m)[1..];
    } else {
      assert Signed(n)[0] == Signed(m)[0];
    }
  }

  /** Two messages get the same id exactly when session, millisecond and position in their
      request all agree, so a repeated request repeats its ids, and nothing else does
      except a second message sent in the same position of another request with the same
      timestamp. */
  lemma {:induction false} MessageIdsCollideIff(s: string, t: int, i: nat, s': string, t': int, i': nat)
    ensures MessageId(s, t, i) == MessageId(s', t', i') <==> s == s' && t == t' && i == i'
  {
    if MessageId(s, t, i) == MessageId(s', t', i') {
      PaddedValue(i, 3);
      PaddedValue(i', 3);
      OnlyDigits(Padded(i, 3));
      OnlyDigits(Padded(i', 3));
      SignedIsPlain(t);
      SignedIsPlain(t');
      var head, head' := "m_" + s, "m_" + s';
      LastCut(head + ['_'] + Signed(t), Padded(i, 3), head' + ['_'] + Signed(t'), Padded(i', 3), '_');
      LastCut(head, Signed(t), head', Signed(t'), '_');
      assert s == head[2..] && s' == head'[2..];
      SignedValue(t, t');
    }
  }

  // ── Ids of novel paragraphs ─────────────────────────────────────────────

  function ParagraphId(book: string, chapter: nat, paragraph: nat): string {
    "asoiaf-" + book + "-ch" + Padded(chapter, 2) + "-p" + Padded(paragraph, 3)
  }

  /** Paragraph ids are pairwise distinct, whatever the book abbreviations contain. */
  lemma {:induction false} ParagraphIdsDiffer(b: string, c: nat, p: nat, b': string, c': nat, p': nat)
    ensures ParagraphId(b, c, p) == ParagraphId(b', c', p') <==> b == b' && c == c' && p == p'
  {
    if ParagraphId(b, c, p) == ParagraphId(b', c', p') {
      var x, x', y, y' := Padded(c, 2), Padded(c', 2), Padded(p, 3), Padded(p', 3);
      PaddedValue(c, 2);
      PaddedValue(c', 2);
      PaddedValue(p, 3);
      PaddedValue(p', 3);
      OnlyDigits(x);
      OnlyDigits(x');
      OnlyDigits(y);
      OnlyDigits(y');
      var head, head' := "asoiaf-" + b + "-c", "asoiaf-" + b' + "-c";
      CutParagraphId(b, x, y);
      CutParagraphId(b', x', y');
      LastCut(head + ['h'] + (x + "-"), y, head' + ['h'] + (x' + "-"), y', 'p');
      LastCut(head, x + "-", head', x' + "-", 'h');
      assert x == (x + "-")[..|x|] && x' == (x' + "-")[..|x|];
      assert b == head[7..|head| - 2] && b' == head'[7..|head| - 2];
    }
  }

  lemma {:induction false} CutParagraphId(b: string, x: string, y: string)
    ensures "asoiaf-" + b + "-ch" + x + "-p" + y == ("asoiaf-" + b + "-c" + ['h'] + (x + "-")) + ['p'] + y
  {
  }

  // ── Counters of daily-log entries ───────────────────────────────────────

  /** `<prefix>_<date>_<seq>` with the sequence number padded to eight digits. */
  function EntryId(stem: string, seqNumber: nat): string {
    stem + "_" + Padded(seqNumber, 8)
  }

  /** How many digits the string ends in. */
  function DigitTail(s: string): (k: nat)
    ensures k <= |s|
  {
    if s == "" || !IsDigit(s[|s| - 1]) then 0 else 1 + DigitTail(s[..|s| - 1])
  }

  lemma {:induction false} TailIsDigits(s: string)
    ensures AllDigits(s[|s| - DigitTail(s)..])
    ensures DigitTail(s) < |s| ==> !IsDigit(s[|s| - DigitTail(s) - 1])
  {
    if s != "" && IsDigit(s[|s| - 1]) {
      var init := s[..|s| - 1];
      TailIsDigits(init);
      var tail := s[|s| - DigitTail(s)..];
      assert tail[..|tail| - 1] == init[|init| - DigitTail(init)..];
    }
  }

  /** The number after the last underscore, if the id ends in `_` and digits. */
  function EntryCounter(id: string): Option<nat> {
    var k := DigitTail(id);
    TailIsDigits(id);
    if 0 < k < |id| && id[|id| - k - 1] == '_' then Some(Value(id[|id| - k..])) else None
  }

  lemma {:induction false} CounterOf(stem: string, digits: string)
    requires digits != "" && AllDigits(digits)
    ensures EntryCounter(stem + "_" + digits) == Some(Value(digits))
  {
    DigitTailOf(stem + "_", digits);
    var id := stem + "_" + digits;
    assert id[|id| - |digits|..] == digits;
  }

  /** Which ids have a counter, and which: those that end in an underscore and digits. */
  lemma {:induction false} EntryCounterIs(id: string, n: nat)
    ensures EntryCounter(id) == Some(n) <==>
      exists stem, digits :: digits != "" && AllDigits(digits) && id == stem + "_" + digits && Value(digits) == n
  {
    if EntryCounter(id) == Some(n) {
      var k := DigitTail(id);
      TailIsDigits(id);
      assert id == id[..|id| - k - 1] + "_" + id[|id| - k..];
    }
    if stem, digits :| digits != "" && AllDigits(digits) && id == stem + "_" + digits && Value(digits) == n {
      CounterOf(stem, digits);
    }
  }

  lemma {:induction false} DigitTailOf(stem: string, digits: string)
    requires AllDigits(digits)
    requires stem != "" && !IsDigit(stem[|stem| - 1])
    ensures DigitTail(stem + digits) == |digits|
    decreases |digits|
  {
    var s := stem + digits;
    if digits == "" {
      assert s == stem;
    } else {
      DigitTailOf(stem, digits[..|digits| - 1]);
      assert s[..|s| - 1] == stem + digits[..|digits| - 1];
    }
  }

  /** The counter of a generated entry id is the number it was generated from. */
  lemma {:induction false} CounterRoundTrip(stem: string, n: nat)
    ensures EntryCounter(EntryId(stem, n)) == Some(n)
  {
    PaddedValue(n, 8);
    CounterOf(stem, Padded(n, 8));
  }
}
