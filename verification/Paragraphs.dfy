/** Grouping the short paragraphs of a chapter into chunks of a minimum size. */
module Paragraphs {
  import opened Common
  import opened Identifiers

  datatype Paragraph = Paragraph(id: string, chapter: nat, name: string, number: nat, text: string)

  const BREAK: string := "\n\n"

  function Texts(ps: seq<Paragraph>): seq<string> {
    seq(|ps|, i requires 0 <= i < |ps| => ps[i].text)
  }

  function Size(ps: seq<Paragraph>): nat {
    if ps == [] then 0 else Size(ps[..|ps| - 1]) + |ps[|ps| - 1].text|
  }

  /** A chunk: the only paragraph of its group, or one that takes the first number. */
  function Merge(group: seq<Paragraph>, book: string, chapter: nat): Paragraph
    requires group != []
  {
    if |group| == 1 then group[0]
    else Paragraph(ParagraphId(book, chapter, group[0].number), group[0].chapter, group[0].name,
                   group[0].number, Join(Texts(group), BREAK))
  }

  predicate AllNonEmpty(groups: seq<seq<Paragraph>>) {
    forall k :: 0 <= k < |groups| ==> |groups[k]| > 0
  }

  function MergeEach(groups: seq<seq<Paragraph>>, book: string, chapter: nat): seq<Paragraph>
    requires AllNonEmpty(groups)
  {
    seq(|groups|, i requires 0 <= i < |groups| => Merge(groups[i], book, chapter))
  }

  /** Every group reaches the minimum only with its last paragraph. */
  ghost predicate Tight(groups: seq<seq<Paragraph>>, minSize: int)
    requires AllNonEmpty(groups)
  {
    forall k :: 0 <= k < |groups| ==> |groups[k]| == 1 || Size(groups[k][..|groups[k]| - 1]) < minSize
  }

  ghost predicate AllReach(groups: seq<seq<Paragraph>>, minSize: int) {
    forall k :: 0 <= k < |groups| ==> Size(groups[k]) >= minSize
  }

  /** The cut the loop makes: every group but the last reaches the minimum, and does so only
      with its last paragraph. */
  ghost predicate IsGrouping(groups: seq<seq<Paragraph>>, ps: seq<Paragraph>, minSize: int) {
    && Concat(groups) == ps
    && AllNonEmpty(groups)
    && (groups != [] ==> AllReach(groups[..|groups| - 1], minSize))
    && Tight(groups, minSize)
  }

  /** The chunks are the merged groups of such a cut. */
  ghost predicate IsChunking(grouped: seq<Paragraph>, ps: seq<Paragraph>, minSize: int, book: string, chapter: nat) {
    exists groups :: IsGrouping(groups, ps, minSize) && grouped == MergeEach(groups, book, chapter)
  }

  /** The closed groups and the open one after i paragraphs. */
  ghost predicate Cut(groups: seq<seq<Paragraph>>, open: seq<Paragraph>, ps: seq<Paragraph>, i: nat, minSize: int)
    requires i <= |ps|
  {
    && Concat(groups) + open == ps[..i]
    && AllNonEmpty(groups) && Tight(groups, minSize)
    && (if i == |ps| then open == [] && groups != [] && AllReach(groups[..|groups| - 1], minSize)
        else AllReach(groups, minSize) && (open == [] || Size(open) < minSize))
  }

  lemma {:induction false} CutIsGrouping(groups: seq<seq<Paragraph>>, ps: seq<Paragraph>, minSize: int)
    requires Cut(groups, [], ps, |ps|, minSize)
    ensures IsGrouping(groups, ps, minSize)
  {
    assert ps[..|ps|] == ps;
    assert Concat(groups) + [] == Concat(groups);
  }

  lemma {:induction false} MergeOneMore(groups: seq<seq<Paragraph>>, group: seq<Paragraph>, book: string, chapter: nat)
    requires AllNonEmpty(groups) && group != []
    ensures AllNonEmpty(groups + [group])
    ensures MergeEach(groups + [group], book, chapter) == MergeEach(groups, book, chapter) + [Merge(group, book, chapter)]
  {
  }

  method GroupShortParagraphs(ps: seq<Paragraph>, minSize: int, book: string, chapter: nat)
    returns (grouped: seq<Paragraph>)
    ensures IsChunking(grouped, ps, minSize, book, chapter)
  {
    grouped := [];
    ghost var groups: seq<seq<Paragraph>> := [];
    if ps == [] {
      assert IsGrouping(groups, ps, minSize) && MergeEach(groups, book, chapter) == [];
      return;
    }
    var currentGroup: seq<Paragraph> := [];
    var currentSize := 0;
    for i := 0 to |ps|
      invariant Cut(groups, currentGroup, ps, i, minSize)
      invariant currentSize == Size(currentGroup)
      invariant grouped == MergeEach(groups, book, chapter)
    {
      OneMore(currentGroup, ps[i], Concat(groups), ps, i);
      currentGroup := currentGroup + [ps[i]];
      currentSize := currentSize + |ps[i].text|;
      if currentSize >= minSize || i == |ps| - 1 {
        CloseGroup(groups, currentGroup, minSize);
        MergeOneMore(groups, currentGroup, book, chapter);
        grouped := grouped + [Merge(currentGroup, book, chapter)];
        groups := groups + [currentGroup];
        currentGroup, currentSize := [], 0;
        assert Concat(groups) + currentGroup == Concat(groups);
      }
    }
    CutIsGrouping(groups, ps, minSize);
  }

  lemma {:induction false} OneMore(group: seq<Paragraph>, p: Paragraph, done: seq<Paragraph>, ps: seq<Paragraph>, i: nat)
    requires i < |ps| && ps[i] == p && done + group == ps[..i]
    ensures done + (group + [p]) == ps[..i + 1]
    ensures (group + [p])[..|group + [p]| - 1] == group
    ensures Size(group + [p]) == Size(group) + |p.text|
  {
    assert (group + [p])[..|group + [p]| - 1] == group;
    assert ps[..i + 1] == ps[..i] + [p];
    AppendAssociates(done, group, [p]);
  }

  lemma {:induction false} CloseGroup(groups: seq<seq<Paragraph>>, group: seq<Paragraph>, minSize: int)
    requires AllNonEmpty(groups) && Tight(groups, minSize) && AllReach(groups, minSize)
    requires group != [] && (|group| == 1 || Size(group[..|group| - 1]) < minSize)
    ensures var closed := groups + [group];
      && Concat(closed) == Concat(groups) + group
      && AllNonEmpty(closed) && Tight(closed, minSize)
      && closed[..|closed| - 1] == groups
      && (Size(group) >= minSize ==> AllReach(closed, minSize))
  {
    var closed := groups + [group];
    ConcatSnoc(groups, group);
    forall k | 0 <= k < |closed|
      ensures |closed[k]| > 0
      ensures |closed[k]| == 1 || Size(closed[k][..|closed[k]| - 1]) < minSize
      ensures k < |groups| ==> Size(closed[k]) >= minSize
    {
      if k < |groups| { assert closed[k] == groups[k]; } else { assert closed[k] == group; }
    }
  }

  lemma {:induction false} JoinAppends(a: seq<string>, b: seq<string>)
    requires a != [] && b != []
    ensures Join(a + b, BREAK) == Join(a, BREAK) + BREAK + Join(b, BREAK)
    decreases |a|
  {
    assert (a + b)[1..] == a[1..] + b;
    if |a| > 1 { JoinAppends(a[1..], b); }
  }

  lemma {:induction false} ConcatTexts(groups: seq<seq<Paragraph>>)
    requires groups != []
    ensures Texts(Concat(groups)) == Texts(groups[0]) + Texts(Concat(groups[1..]))
  {
  }

  lemma {:induction false} MergedTextUnchanged(groups: seq<seq<Paragraph>>, book: string, chapter: nat)
    requires AllNonEmpty(groups)
    ensures Join(Texts(MergeEach(groups, book, chapter)), BREAK) == Join(Texts(Concat(groups)), BREAK)
    decreases |groups|
  {
    if groups != [] {
      var first, rest := groups[0], groups[1..];
      var merged := Texts(MergeEach(groups, book, chapter));
      MergedTextUnchanged(rest, book, chapter);
      ConcatTexts(groups);
      assert merged[1..] == Texts(MergeEach(rest, book, chapter));
      assert merged[0] == Join(Texts(first), BREAK);
      if rest == [] {
        assert Texts(first) + Texts(Concat(rest)) == Texts(first);
      } else {
        assert Concat(rest) == rest[0] + Concat(rest[1..]) && rest[0] != [];
        JoinAppends(Texts(first), Texts(Concat(rest)));
      }
    }
  }

  lemma {:induction false} SizeFromFront(ps: seq<Paragraph>)
    requires ps != []
    ensures Size(ps) == |ps[0].text| + Size(ps[1..])
    decreases |ps|
  {
    if |ps| > 1 {
      var init := ps[..|ps| - 1];
      SizeFromFront(init);
      assert init[1..] == ps[1..][..|ps| - 2];
    }
  }

  lemma {:induction false} JoinedIsAsLong(ps: seq<Paragraph>)
    ensures |Join(Texts(ps), BREAK)| >= Size(ps)
    decreases |ps|
  {
    if ps != [] {
      JoinedIsAsLong(ps[1..]);
      SizeFromFront(ps);
      assert Texts(ps)[1..] == Texts(ps[1..]);
    }
  }

  lemma {:induction false} MergedIsAsLong(group: seq<Paragraph>, book: string, chapter: nat)
    requires group != []
    ensures |Merge(group, book, chapter).text| >= Size(group)
  {
    JoinedIsAsLong(group);
  }

  /** Grouping leaves the text joined by blank lines unchanged, and every chunk but the
      last is long enough. */
  lemma {:induction false} GroupedText(grouped: seq<Paragraph>, ps: seq<Paragraph>, minSize: int, book: string, chapter: nat)
    requires IsChunking(grouped, ps, minSize, book, chapter)
    ensures Join(Texts(grouped), BREAK) == Join(Texts(ps), BREAK)
    ensures forall k :: 0 <= k < |grouped| - 1 ==> |grouped[k].text| >= minSize
  {
    var groups :| IsGrouping(groups, ps, minSize) && grouped == MergeEach(groups, book, chapter);
    MergedTextUnchanged(groups, book, chapter);
    forall k | 0 <= k < |groups| - 1 ensures |Merge(groups[k], book, chapter).text| >= minSize {
      assert groups[..|groups| - 1][k] == groups[k];
      MergedIsAsLong(groups[k], book, chapter);
    }
  }

  /** The grouping is the only one of its kind: it is decided by the paragraphs and the
      minimum size. */
  lemma {:induction false} GroupingUnique(a: seq<seq<Paragraph>>, b: seq<seq<Paragraph>>, ps: seq<Paragraph>, minSize: int)
    requires IsGrouping(a, ps, minSize) && IsGrouping(b, ps, minSize)
    ensures a == b
    decreases |a|
  {
    if a == [] || b == [] {
      assert Concat(a) == Concat(b);
    } else {
      FirstGroupFits(a, b, ps, minSize);
      FirstGroupFits(b, a, ps, minSize);
      assert a[0] == ps[..|a[0]|] && b[0] == ps[..|b[0]|];
      var rest := ps[|a[0]|..];
      GroupingTail(a, ps, minSize);
      GroupingTail(b, ps, minSize);
      GroupingUnique(a[1..], b[1..], rest, minSize);
      assert a == [a[0]] + a[1..] && b == [b[0]] + b[1..];
    }
  }

  /** So the chunks are decided too. */
  lemma {:induction false} ChunkingUnique(a: seq<Paragraph>, b: seq<Paragraph>, ps: seq<Paragraph>, minSize: int, book: string, chapter: nat)
    requires IsChunking(a, ps, minSize, book, chapter) && IsChunking(b, ps, minSize, book, chapter)
    ensures a == b
  {
    var f :| IsGrouping(f, ps, minSize) && a == MergeEach(f, book, chapter);
    var g :| IsGrouping(g, ps, minSize) && b == MergeEach(g, book, chapter);
    GroupingUnique(f, g, ps, minSize);
  }

  lemma {:induction false} GroupingTail(a: seq<seq<Paragraph>>, ps: seq<Paragraph>, minSize: int)
    requires IsGrouping(a, ps, minSize) && a != []
    ensures ps == a[0] + Concat(a[1..]) && IsGrouping(a[1..], ps[|a[0]|..], minSize)
  {
    var t := a[1..];
    assert ps[|a[0]|..] == Concat(t);
    forall k | 0 <= k < |t|
      ensures t[k] == a[k + 1]
      ensures k < |t| - 1 ==> Size(t[k]) >= minSize
    {
      if k < |t| - 1 { assert a[..|a| - 1][k + 1] == t[k]; }
    }
  }

  lemma {:induction false} SizeMonotone(ps: seq<Paragraph>, k: nat)
    requires k <= |ps|
    ensures Size(ps[..k]) <= Size(ps)
    decreases |ps|
  {
    if k == |ps| {
      assert ps[..k] == ps;
    } else {
      var init := ps[..|ps| - 1];
      SizeMonotone(init, k);
      assert init[..k] == ps[..k];
    }
  }

  /** The first group of one grouping is no longer than that of another. */
  lemma {:induction false} FirstGroupFits(a: seq<seq<Paragraph>>, b: seq<seq<Paragraph>>, ps: seq<Paragraph>, minSize: int)
    requires IsGrouping(a, ps, minSize) && IsGrouping(b, ps, minSize)
    requires a != [] && b != []
    ensures |a[0]| <= |b[0]|
  {
    GroupingTail(a, ps, minSize);
    GroupingTail(b, ps, minSize);
    if |b[0]| < |a[0]| {
      var init := a[0][..|a[0]| - 1];
      assert init[..|b[0]|] == ps[..|b[0]|] == b[0];
      SizeMonotone(init, |b[0]|);
    }
  }

  // ── Ids ─────────────────────────────────────────────────────────────────

  /** The paragraphs of one chapter as the splitter makes them. */
  ghost predicate FreshlySplit(ps: seq<Paragraph>, book: string, chapter: nat) {
    forall i :: 0 <= i < |ps| ==>
      ps[i].number == i + 1 && ps[i].id == ParagraphId(book, chapter, i + 1)
  }

  lemma OneText(text: string)
    ensures NonEmpty([text]) == if text == "" then [] else [text]
  {
    assert [text][1..] == [];
  }

  /** The kept texts, numbered in order; `raw` holds the trimmed pieces. */
  method NumberParagraphs(raw: seq<string>, book: string, chapter: nat, name: string) returns (ps: seq<Paragraph>)
    ensures FreshlySplit(ps, book, chapter)
    ensures Texts(ps) == NonEmpty(raw)
    ensures forall p :: p in ps ==> p.chapter == chapter && p.name == name
  {
    ps := [];
    var paragraphNumber := 1;
    for i := 0 to |raw|
      invariant paragraphNumber == |ps| + 1
      invariant FreshlySplit(ps, book, chapter)
      invariant Texts(ps) == NonEmpty(raw[..i])
      invariant forall p :: p in ps ==> p.chapter == chapter && p.name == name
    {
      assert raw[..i + 1] == raw[..i] + [raw[i]];
      NonEmptyAppend(raw[..i], [raw[i]]);
      OneText(raw[i]);
      if raw[i] != "" {
        ghost var before := ps;
        ps := ps + [Paragraph(ParagraphId(book, chapter, paragraphNumber), chapter, name, paragraphNumber, raw[i])];
        assert Texts(ps) == Texts(before) + [raw[i]];
        paragraphNumber := paragraphNumber + 1;
      }
    }
    assert raw[..|raw|] == raw;
  }

  lemma {:induction false} ChunkNumbers(groups: seq<seq<Paragraph>>, ps: seq<Paragraph>, minSize: int, book: string, chapter: nat, k: nat)
    requires IsGrouping(groups, ps, minSize) && FreshlySplit(ps, book, chapter) && k < |groups|
    ensures var chunk := Merge(groups[k], book, chapter);
      && chunk.id == ParagraphId(book, chapter, chunk.number)
      && chunk.number == |Concat(groups[..k])| + 1
  {
    GroupStart(groups, k);
    assert groups[k][0] == ps[|Concat(groups[..k])|];
  }

  /** After grouping, every chunk still carries the id of its own number, numbers increase,
      and no two chunks share an id. */
  lemma {:induction false} GroupedIdsDistinct(grouped: seq<Paragraph>, ps: seq<Paragraph>, minSize: int, book: string, chapter: nat)
    requires IsChunking(grouped, ps, minSize, book, chapter) && FreshlySplit(ps, book, chapter)
    ensures forall k :: 0 <= k < |grouped| ==> grouped[k].id == ParagraphId(book, chapter, grouped[k].number)
    ensures forall j, k :: 0 <= j < k < |grouped| ==>
      grouped[j].number < grouped[k].number && grouped[j].id != grouped[k].id
  {
    var groups :| IsGrouping(groups, ps, minSize) && grouped == MergeEach(groups, book, chapter);
    forall k | 0 <= k < |grouped| ensures grouped[k].id == ParagraphId(book, chapter, grouped[k].number) {
      ChunkNumbers(groups, ps, minSize, book, chapter, k);
    }
    forall j, k | 0 <= j < k < |grouped|
      ensures grouped[j].number < grouped[k].number && grouped[j].id != grouped[k].id
    {
      ChunkNumbers(groups, ps, minSize, book, chapter, j);
      ChunkNumbers(groups, ps, minSize, book, chapter, k);
      PrefixGrows(groups, j, k);
      ParagraphIdsDiffer(book, chapter, grouped[j].number, book, chapter, grouped[k].number);
    }
  }

  lemma {:induction false} MemberOfGroup(groups: seq<seq<Paragraph>>, k: nat)
    requires k < |groups| && groups[k] != []
    ensures groups[k][0] in Concat(groups)
  {
    GroupStart(groups, k);
  }

  /** The chunks stay in their chapter, under its name. */
  lemma {:induction false} GroupedStayInChapter(grouped: seq<Paragraph>, ps: seq<Paragraph>, minSize: int, book: string, chapter: nat, name: string)
    requires IsChunking(grouped, ps, minSize, book, chapter)
    requires forall p :: p in ps ==> p.chapter == chapter && p.name == name
    ensures forall c :: c in grouped ==> c.chapter == chapter && c.name == name
  {
    var groups :| IsGrouping(groups, ps, minSize) && grouped == MergeEach(groups, book, chapter);
    forall k | 0 <= k < |grouped| ensures grouped[k].chapter == chapter && grouped[k].name == name {
      MemberOfGroup(groups, k);
    }
  }

  lemma {:induction false} GroupStart(groups: seq<seq<Paragraph>>, k: nat)
    requires k < |groups| && groups[k] != []
    ensures |Concat(groups[..k])| < |Concat(groups)|
    ensures Concat(groups)[|Concat(groups[..k])|] == groups[k][0]
  {
    if k > 0 {
      GroupStart(groups[1..], k - 1);
      assert groups[..k][1..] == groups[1..][..k - 1];
    }
  }

  lemma {:induction false} PrefixGrows(groups: seq<seq<Paragraph>>, j: nat, k: nat)
    requires j < k <= |groups| && AllNonEmpty(groups)
    ensures |Concat(groups[..j])| < |Concat(groups[..k])|
    decreases k
  {
    assert groups[..k] == groups[..k - 1] + [groups[k - 1]];
    ConcatSnoc(groups[..k - 1], groups[k - 1]);
    if j < k - 1 { PrefixGrows(groups, j, k - 1); }
  }
}
