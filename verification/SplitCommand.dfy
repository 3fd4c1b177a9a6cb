/** `splitCommand`: an argv string cut into arguments without a shell. */
module SplitCommand {
  import opened Common

  predicate Bare(c: char) {
    !IsSpace(c) && c != '"' && c != '\''
  }

  /** The first index from i on that holds c; the length if none does. */
  function Find(s: string, i: nat, c: char): nat
    requires i <= |s|
    ensures i <= Find(s, i, c) <= |s|
    ensures Find(s, i, c) < |s| ==> s[Find(s, i, c)] == c
    decreases |s| - i
  {
    if i == |s| || s[i] == c then i else Find(s, i + 1, c)
  }

  /** The end of the run of bare characters starting at i. */
  function BareEnd(s: string, i: nat): nat
    requires i <= |s|
    ensures i <= BareEnd(s, i) <= |s|
    decreases |s| - i
  {
    if i < |s| && Bare(s[i]) then BareEnd(s, i + 1) else i
  }

  /** A match of the expression at i: the text it contributes and where it ends. A quote
      without its partner matches nothing. */
  datatype Match = Match(piece: string, end: nat)

  function MatchAt(s: string, i: nat): (r: Option<Match>)
    requires i < |s|
    ensures r.Some? ==> i < r.value.end <= |s|
  {
    if s[i] == '"' || s[i] == '\'' then
      var close := Find(s, i + 1, s[i]);
      if close < |s| then Some(Match(s[i + 1..close], close + 1)) else None
    else if Bare(s[i]) then Some(Match(s[i..BareEnd(s, i)], BareEnd(s, i)))
    else None
  }

  /** Appending to the last argument if the match touches the previous one. */
  function Accept(output: seq<string>, piece: string, touches: bool): seq<string> {
    if touches && |output| > 0 then output[|output| - 1 := output[|output| - 1] + piece] else output + [piece]
  }

  /** One match as the loop sees it: its text, and whether it starts where the last one ended. */
  datatype Found = Found(piece: string, touches: bool)

  /** All matches from i on, with `touching` saying whether a match just ended at i. */
  function Matches(s: string, i: nat, touching: bool): seq<Found>
    requires i <= |s|
    decreases |s| - i
  {
    if i == |s| then []
    else
      var m := MatchAt(s, i);
      if m.None? then Matches(s, i + 1, false)
      else [Found(m.value.piece, touching)] + Matches(s, m.value.end, true)
  }

  function Glue(found: seq<Found>, output: seq<string>): seq<string> {
    if found == [] then output
    else Glue(found[1..], Accept(output, found[0].piece, found[0].touches))
  }

  function Words(s: string): seq<string> {
    Glue(Matches(s, 0, false), [])
  }

  method SplitCommand(raw: string) returns (r: seq<string>)
    ensures r == NonEmpty(Words(raw))
    ensures forall i :: 0 <= i < |r| ==> r[i] != ""
  {
    var output: seq<string> := [];
    var previousEnd := -1;
    var at := 0;
    while at < |raw|
      invariant 0 <= at <= |raw|
      invariant previousEnd <= at
      invariant Glue(Matches(raw, at, previousEnd == at), output) == Words(raw)
      decreases |raw| - at
    {
      var m := MatchAt(raw, at);
      if m.None? {
        at := at + 1;
      } else {
        if at == previousEnd && |output| > 0 {
          output := output[|output| - 1 := output[|output| - 1] + m.value.piece];
        } else {
          output := output + [m.value.piece];
        }
        previousEnd := m.value.end;
        at := m.value.end;
      }
    }
    r := NonEmpty(output);
    NonEmptySpec(output);
  }

  lemma {:induction false} NonEmptySpec(args: seq<string>)
    ensures forall i :: 0 <= i < |NonEmpty(args)| ==> NonEmpty(args)[i] != ""
    ensures (forall i :: 0 <= i < |args| ==> args[i] != "") ==> NonEmpty(args) == args
  {
    if args != [] {
      NonEmptySpec(args[1..]);
      if forall i :: 0 <= i < |args| ==> args[i] != "" {
        assert forall i :: 0 <= i < |args[1..]| ==> args[1..][i] == args[i + 1];
        assert args == [args[0]] + args[1..];
      }
    }
  }

  // ── Round trip ──────────────────────────────────────────────────────────

  /** A piece of a written argument: text in double quotes, in single quotes, or bare. */
  datatype Piece = Double(text: string) | Single(text: string) | Plain(text: string)

  /** A written argument: one or more pieces that touch. */
  datatype Written = One(piece: Piece) | Glued(piece: Piece, rest: Written)

  predicate Writable(p: Piece) {
    match p
    case Double(t) => '"' !in t
    case Single(t) => '\'' !in t
    case Plain(t) => t != "" && forall k :: 0 <= k < |t| ==> Bare(t[k])
  }

  function RenderPiece(p: Piece): string {
    match p
    case Double(t) => "\"" + t + "\""
    case Single(t) => "'" + t + "'"
    case Plain(t) => t
  }

  function Render(w: Written): string {
    match w
    case One(p) => RenderPiece(p)
    case Glued(p, rest) => RenderPiece(p) + Render(rest)
  }

  function TextOf(w: Written): string {
    match w
    case One(p) => p.text
    case Glued(p, rest) => p.text + TextOf(rest)
  }

  /** Every piece can be written, and no two bare pieces touch (they would be one). */
  predicate WellWritten(w: Written) {
    && Writable(w.piece)
    && (w.Glued? ==> !(w.piece.Plain? && w.rest.piece.Plain?) && WellWritten(w.rest))
  }

  /** Arguments written piece by piece and joined with single spaces. */
  function RenderLine(args: seq<Written>): string {
    if args == [] then ""
    else if |args| == 1 then Render(args[0])
    else Render(args[0]) + " " + RenderLine(args[1..])
  }

  function Values(args: seq<Written>): seq<string> {
    seq(|args|, i requires 0 <= i < |args| => TextOf(args[i]))
  }

  lemma {:induction false} FindSkips(s: string, i: nat, j: nat, c: char)
    requires i <= j < |s| && s[j] == c && forall k :: i <= k < j ==> s[k] != c
    ensures Find(s, i, c) == j
    decreases j - i
  {
    if i < j { FindSkips(s, i + 1, j, c); }
  }

  lemma {:induction false} BareEndSkips(s: string, i: nat, j: nat)
    requires i <= j <= |s| && (forall k :: i <= k < j ==> Bare(s[k])) && (j < |s| ==> !Bare(s[j]))
    ensures BareEnd(s, i) == j
    decreases j - i
  {
    if i < j { BareEndSkips(s, i + 1, j); }
  }

  /** At position i the line continues with `text`. */
  ghost predicate ContinuesWith(s: string, i: nat, text: string) {
    i + |text| <= |s| && s[i..i + |text|] == text
  }

  lemma {:induction false} CharsOf(s: string, i: nat, text: string)
    requires ContinuesWith(s, i, text)
    ensures forall k :: 0 <= k < |text| ==> s[i + k] == text[k]
  {
    forall k | 0 <= k < |text| ensures s[i + k] == text[k] {
      assert s[i..i + |text|][k] == s[i + k];
    }
  }

  /** What matches at a place, from the line alone: a quote with a later partner matches up to
      the first one and contributes what is between; a bare character matches with all bare
      characters that follow; white space and a quote without a partner match nothing. */
  lemma {:induction false} MatchAtIs(s: string, i: nat)
    requires i < |s|
    ensures s[i] == '"' || s[i] == '\'' ==>
      (MatchAt(s, i).None? <==> forall k :: i < k < |s| ==> s[k] != s[i])
    ensures (s[i] == '"' || s[i] == '\'') && MatchAt(s, i).Some? ==>
      var m := MatchAt(s, i).value;
      && i + 2 <= m.end <= |s| && s[m.end - 1] == s[i] && m.piece == s[i + 1..m.end - 1] && s[i] !in m.piece
    ensures IsSpace(s[i]) ==> MatchAt(s, i).None?
    ensures Bare(s[i]) ==> MatchAt(s, i).Some?
    ensures Bare(s[i]) && MatchAt(s, i).Some? ==>
      var m := MatchAt(s, i).value;
      && i < m.end <= |s| && m.piece == s[i..m.end]
      && (forall k :: i <= k < m.end ==> Bare(s[k])) && (m.end < |s| ==> !Bare(s[m.end]))
  {
    FindIs(s, i + 1, s[i]);
    BareEndIs(s, i);
  }

  lemma {:induction false} FindIs(s: string, i: nat, c: char)
    requires i <= |s|
    ensures forall k :: i <= k < Find(s, i, c) ==> s[k] != c
    decreases |s| - i
  {
    if i < |s| && s[i] != c { FindIs(s, i + 1, c); }
  }

  lemma {:induction false} BareEndIs(s: string, i: nat)
    requires i <= |s|
    ensures forall k :: i <= k < BareEnd(s, i) ==> Bare(s[k])
    ensures BareEnd(s, i) < |s| ==> !Bare(s[BareEnd(s, i)])
    decreases |s| - i
  {
    if i < |s| && Bare(s[i]) { BareEndIs(s, i + 1); }
  }

  /** One written piece is one match, contributing its text. */
  lemma {:induction false} PieceMatches(s: string, i: nat, p: Piece)
    requires Writable(p) && ContinuesWith(s, i, RenderPiece(p))
    requires p.Plain? && i + |RenderPiece(p)| < |s| ==> !Bare(s[i + |RenderPiece(p)|])
    ensures i < |s| && MatchAt(s, i) == Some(Match(p.text, i + |RenderPiece(p)|))
  {
    CharsOf(s, i, RenderPiece(p));
    var r, t := RenderPiece(p), p.text;
    match p {
      case Plain(_) =>
        assert s[i + 0] == r[0];
        forall k | i <= k < i + |t| ensures Bare(s[k]) { assert s[i + (k - i)] == r[k - i]; }
        BareEndSkips(s, i, i + |t|);
      case Double(_) =>
        QuotedMatches(s, i, t, '"');
      case Single(_) =>
        QuotedMatches(s, i, t, '\'');
    }
  }

  lemma {:induction false} QuotedMatches(s: string, i: nat, t: string, q: char)
    requires q == '"' || q == '\''
    requires q !in t && ContinuesWith(s, i, [q] + t + [q])
    ensures i < |s| && MatchAt(s, i) == Some(Match(t, i + |t| + 2))
  {
    var r := [q] + t + [q];
    CharsOf(s, i, r);
    assert s[i + 0] == r[0] == q;
    assert s[i + (|t| + 1)] == r[|t| + 1] == q;
    forall k | i + 1 <= k < i + 1 + |t| ensures s[k] != q && s[k] == t[k - i - 1] {
      assert s[i + (k - i)] == r[k - i] == t[k - i - 1];
    }
    FindSkips(s, i + 1, i + 1 + |t|, q);
    assert s[i + 1..i + 1 + |t|] == t;
  }

  lemma {:induction false} ContinuesSplit(s: string, i: nat, a: string, b: string)
    requires ContinuesWith(s, i, a + b)
    ensures ContinuesWith(s, i, a) && ContinuesWith(s, i + |a|, b)
  {
    assert s[i..i + |a|] == s[i..i + |a + b|][..|a|];
    assert s[i + |a|..i + |a| + |b|] == s[i..i + |a + b|][|a|..];
  }

  lemma {:induction false} FirstChar(s: string, i: nat, w: Written)
    requires !w.piece.Plain? && ContinuesWith(s, i, Render(w))
    ensures i < |s| && !Bare(s[i])
  {
    CharsOf(s, i, Render(w));
    assert s[i + 0] == Render(w)[0];
  }

  /** The matches a written argument is cut into. */
  function FoundIn(w: Written, touching: bool): (r: seq<Found>)
    decreases w
  {
    [Found(w.piece.text, touching)] + (if w.One? then [] else FoundIn(w.rest, true))
  }

  lemma {:induction false} MatchScans(s: string, i: nat, m: Match, touching: bool)
    requires i < |s| && MatchAt(s, i) == Some(m)
    ensures Matches(s, i, touching) == [Found(m.piece, touching)] + Matches(s, m.end, true)
  {
  }

  /** From i to end the line is cut into matches that contribute the texts of w's pieces. */
  ghost predicate Hops(s: string, i: nat, w: Written, end: nat)
    decreases w
  {
    var next := i + |RenderPiece(w.piece)|;
    && i < |s|
    && MatchAt(s, i) == Some(Match(w.piece.text, next))
    && (if w.One? then next == end else Hops(s, next, w.rest, end))
  }

  lemma {:induction false} ArgumentHops(s: string, i: nat, w: Written, end: nat)
    requires WellWritten(w) && ContinuesWith(s, i, Render(w)) && end == i + |Render(w)|
    requires end < |s| ==> s[end] == ' '
    ensures Hops(s, i, w, end)
    decreases w
  {
    if w.Glued? {
      var next := i + |RenderPiece(w.piece)|;
      ContinuesSplit(s, i, RenderPiece(w.piece), Render(w.rest));
      if w.piece.Plain? { FirstChar(s, next, w.rest); }
      ArgumentHops(s, next, w.rest, end);
    }
    PieceMatches(s, i, w.piece);
  }

  lemma {:induction false} HopsScan(s: string, i: nat, w: Written, end: nat, touching: bool)
    requires Hops(s, i, w, end)
    ensures i <= end <= |s| && Matches(s, i, touching) == FoundIn(w, touching) + Matches(s, end, true)
    decreases w
  {
    hide MatchAt;
    var m := MatchAt(s, i).value;
    MatchScans(s, i, m, touching);
    if w.Glued? {
      HopsScan(s, m.end, w.rest, end, true);
      AppendAssociates([Found(m.piece, touching)], FoundIn(w.rest, true), Matches(s, end, true));
    }
  }

  function FoundInLine(args: seq<Written>): seq<Found> {
    if args == [] then [] else FoundIn(args[0], false) + FoundInLine(args[1..])
  }

  lemma {:induction false} LineHead(s: string, i: nat, first: string, rest: string)
    requires i <= |s| && s[i..] == first + " " + rest
    ensures ContinuesWith(s, i, first)
    ensures i + |first| < |s| && s[i + |first|] == ' '
    ensures s[i + |first| + 1..] == rest
  {
    var t := s[i..];
    assert s[i..i + |first|] == t[..|first|];
    assert s[i + |first|] == t[|first|];
    assert s[i + |first| + 1..] == t[|first| + 1..];
  }

  lemma {:induction false} SpaceSkips(s: string, i: nat, touching: bool)
    requires i < |s| && s[i] == ' '
    ensures Matches(s, i, touching) == Matches(s, i + 1, false)
  {
  }

  /** From i to its end the line is cut into the arguments, one space apart. */
  ghost predicate LineHops(s: string, i: nat, args: seq<Written>)
    decreases |args|
  {
    if args == [] then i == |s|
    else
      var end := i + |Render(args[0])|;
      && Hops(s, i, args[0], end)
      && (if |args| == 1 then end == |s| else end < |s| && s[end] == ' ' && LineHops(s, end + 1, args[1..]))
  }

  lemma {:induction false} LastArgument(s: string, i: nat, w: Written)
    requires WellWritten(w) && i <= |s| && s[i..] == Render(w)
    ensures Hops(s, i, w, |s|)
  {
    assert s[i..i + |Render(w)|] == s[i..];
    ArgumentHops(s, i, w, |s|);
  }

  lemma {:induction false} NextArgument(s: string, i: nat, w: Written, end: nat, rest: string)
    requires WellWritten(w) && end == i + |Render(w)|
    requires i <= |s| && s[i..] == Render(w) + " " + rest
    ensures end < |s| && s[end] == ' ' && Hops(s, i, w, end) && s[end + 1..] == rest
  {
    LineHead(s, i, Render(w), rest);
    ArgumentHops(s, i, w, end);
  }

  lemma {:induction false} LineIsHops(s: string, i: nat, args: seq<Written>)
    requires forall k :: 0 <= k < |args| ==> WellWritten(args[k])
    requires i <= |s| && s[i..] == RenderLine(args)
    ensures LineHops(s, i, args)
    decreases |args|
  {
    if |args| == 1 {
      LastArgument(s, i, args[0]);
    } else if args != [] {
      var end := i + |Render(args[0])|;
      NextArgument(s, i, args[0], end, RenderLine(args[1..]));
      LineIsHops(s, end + 1, args[1..]);
    }
  }

  lemma {:induction false} LineScans(s: string, i: nat, args: seq<Written>)
    requires LineHops(s, i, args)
    ensures i <= |s| && Matches(s, i, false) == FoundInLine(args)
    decreases |args|
  {
    hide MatchAt;
    if args != [] {
      var end := i + |Render(args[0])|;
      HopsScan(s, i, args[0], end, false);
      if |args| == 1 {
        assert FoundInLine(args[1..]) == [];
      } else {
        SpaceSkips(s, end, true);
        LineScans(s, end + 1, args[1..]);
      }
    }
  }

  lemma {:induction false} GlueInTurn(a: seq<Found>, b: seq<Found>, output: seq<string>)
    ensures Glue(a + b, output) == Glue(b, Glue(a, output))
    decreases |a|
  {
    if a == [] {
      assert a + b == b;
    } else {
      assert (a + b)[0] == a[0] && (a + b)[1..] == a[1..] + b;
      GlueInTurn(a[1..], b, Accept(output, a[0].piece, a[0].touches));
    }
  }

  lemma {:induction false} AcceptTwice(output: seq<string>, a: string, b: string, touching: bool)
    ensures Accept(Accept(output, a, touching), b, true) == Accept(output, a + b, touching)
  {
    if touching && |output| > 0 {
      AppendAssociates(output[|output| - 1], a, b);
    }
  }

  /** The pieces of one argument are glued into one value. */
  lemma {:induction false} ArgumentGlues(w: Written, touching: bool, output: seq<string>)
    ensures Glue(FoundIn(w, touching), output) == Accept(output, TextOf(w), touching)
    decreases w
  {
    var found, first := FoundIn(w, touching), Accept(output, w.piece.text, touching);
    if w.One? {
      assert found[1..] == [];
    } else {
      assert found[1..] == FoundIn(w.rest, true);
      ArgumentGlues(w.rest, true, first);
      AcceptTwice(output, w.piece.text, TextOf(w.rest), touching);
    }
  }

  lemma {:induction false} LineGlues(args: seq<Written>, output: seq<string>)
    ensures Glue(FoundInLine(args), output) == output + Values(args)
    decreases |args|
  {
    if args != [] {
      var value := [TextOf(args[0])];
      GlueInTurn(FoundIn(args[0], false), FoundInLine(args[1..]), output);
      ArgumentGlues(args[0], false, output);
      LineGlues(args[1..], output + value);
      assert Values(args) == value + Values(args[1..]);
      AppendAssociates(output, value, Values(args[1..]));
    }
  }

  /** Round trip: arguments written as any mixture of double-quoted, single-quoted and bare
      pieces, joined with single spaces, split back into their values; an argument whose
      value is empty is the only kind that is lost. */
  lemma {:induction false} WrittenLineRoundTrip(args: seq<Written>)
    requires forall k :: 0 <= k < |args| ==> WellWritten(args[k])
    ensures NonEmpty(Words(RenderLine(args))) == NonEmpty(Values(args))
    ensures (forall k :: 0 <= k < |args| ==> TextOf(args[k]) != "") ==>
      NonEmpty(Words(RenderLine(args))) == Values(args)
  {
    var s := RenderLine(args);
    assert s[0..] == s;
    LineIsHops(s, 0, args);
    LineScans(s, 0, args);
    LineGlues(args, []);
    assert [] + Values(args) == Values(args);
    NonEmptySpec(Values(args));
  }

  // ── Quoting any argument ────────────────────────────────────────────────

  function QuoteChar(c: char): Piece {
    if c == '"' then Single([c]) else Double([c])
  }

  /** Double quotes in single quotes, every other character in double quotes. */
  function Quote(arg: string): Written
    requires arg != ""
  {
    if |arg| == 1 then One(QuoteChar(arg[0])) else Glued(QuoteChar(arg[0]), Quote(arg[1..]))
  }

  lemma {:induction false} QuoteIsWellWritten(arg: string)
    requires arg != ""
    ensures TextOf(Quote(arg)) == arg && WellWritten(Quote(arg)) && !Quote(arg).piece.Plain?
  {
    if |arg| == 1 {
      assert arg == [arg[0]];
    } else {
      QuoteIsWellWritten(arg[1..]);
      assert arg == [arg[0]] + arg[1..];
    }
  }

  function QuoteAll(args: seq<string>): seq<Written>
    requires forall k :: 0 <= k < |args| ==> args[k] != ""
  {
    seq(|args|, i requires 0 <= i < |args| => Quote(args[i]))
  }

  /** For every list of non-empty arguments, whatever quotes and spaces they contain,
      quoting each, joining with spaces and splitting gives the list back. */
  lemma {:induction false} ArgvRoundTrip(args: seq<string>)
    requires forall k :: 0 <= k < |args| ==> args[k] != ""
    ensures NonEmpty(Words(RenderLine(QuoteAll(args)))) == args
  {
    forall k | 0 <= k < |args| ensures WellWritten(Quote(args[k])) && TextOf(Quote(args[k])) == args[k] {
      QuoteIsWellWritten(args[k]);
    }
    WrittenLineRoundTrip(QuoteAll(args));
    assert Values(QuoteAll(args)) == args;
  }
}
