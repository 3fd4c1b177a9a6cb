/** The id-monotonicity check of the consistency script: one markdown file's entry ids. */
module Monotonicity {
  import opened Common
  import opened Identifiers

  datatype Report = Report(total: nat, notSorted: bool, startsAt1: bool,
                           gaps: seq<nat>, dupes: set<nat>, badFormat: seq<string>)
  {
    predicate Ok() {
      total == 0 || (!notSorted && startsAt1 && gaps == [] && dupes == {} && badFormat == [])
    }
  }

  /** The counters of the well-formed ids, in file order. */
  function Counters(ids: seq<string>): seq<nat> {
    if ids == [] then []
    else
      var init, last := Counters(ids[..|ids| - 1]), EntryCounter(ids[|ids| - 1]);
      if last.Some? then init + [last.value] else init
  }

  function Malformed(ids: seq<string>): seq<string> {
    if ids == [] then []
    else
      var init, last := Malformed(ids[..|ids| - 1]), ids[|ids| - 1];
      if EntryCounter(last).None? then init + [last] else init
  }

  ghost predicate Ascending(s: seq<nat>) {
    forall i, j :: 0 <= i < j < |s| ==> s[i] <= s[j]
  }

  ghost predicate Twice(s: seq<nat>, v: nat) {
    exists i, j :: 0 <= i < j < |s| && s[i] == v && s[j] == v
  }

  /** What the script wants of a file: its entries are numbered 1, 2, ..., n. */
  ghost predicate Numbered(ids: seq<string>) {
    forall k :: 0 <= k < |ids| ==> EntryCounter(ids[k]) == Some(k + 1)
  }

  /** The report says what each of its fields names. */
  ghost predicate Describes(r: Report, ids: seq<string>) {
    var cs := Counters(ids);
    && r.total == |ids|
    && (r.notSorted <==> !Ascending(cs))
    && (r.startsAt1 <==> ids == [] || (1 in cs && forall c :: c in cs ==> 1 <= c))
    && (forall g :: g in r.gaps <==> g >= 1 && g !in cs && exists c :: c in cs && g <= c)
    && (forall v :: v in r.dupes <==> Twice(cs, v))
    && r.badFormat == Malformed(ids)
  }

  /** `counters != sorted(counters)`: a list equals its sorted copy when no neighbours are
      out of order. */
  method OutOfOrder(cs: seq<nat>) returns (r: bool)
    ensures r <==> !Ascending(cs)
  {
    r := false;
    var i := 1;
    while i < |cs|
      invariant 1 <= i && (cs != [] ==> i <= |cs|)
      invariant !r ==> forall a, b :: 0 <= a < b < i && b < |cs| ==> cs[a] <= cs[b]
      invariant r ==> exists a :: 0 < a < |cs| && cs[a - 1] > cs[a]
    {
      if cs[i - 1] > cs[i] { r := true; }
      i := i + 1;
    }
  }

  method Extremes(cs: seq<nat>) returns (lo: nat, hi: nat)
    requires cs != []
    ensures lo in cs && hi in cs && forall c :: c in cs ==> lo <= c <= hi
  {
    lo, hi := cs[0], cs[0];
    for i := 1 to |cs|
      invariant lo in cs && hi in cs && forall k :: 0 <= k < i ==> lo <= cs[k] <= hi
    {
      lo, hi := Min(lo, cs[i]), Max(hi, cs[i]);
    }
  }

  method Repeated(cs: seq<nat>) returns (dupes: set<nat>)
    ensures forall v :: v in dupes <==> Twice(cs, v)
  {
    dupes := {};
    var seen: set<nat> := {};
    for i := 0 to |cs|
      invariant forall v :: v in seen <==> v in cs[..i]
      invariant forall v :: v in dupes <==> Twice(cs[..i], v)
    {
      TwiceSnoc(cs[..i], cs[i]);
      assert cs[..i + 1] == cs[..i] + [cs[i]];
      if cs[i] in seen { dupes := dupes + {cs[i]}; }
      seen := seen + {cs[i]};
    }
    assert cs[..|cs|] == cs;
  }

  lemma {:induction false} TwiceSnoc(s: seq<nat>, c: nat)
    ensures forall v :: Twice(s + [c], v) <==> Twice(s, v) || (v == c && c in s)
  {
    var t := s + [c];
    forall v ensures Twice(t, v) <==> Twice(s, v) || (v == c && c in s) {
      if Twice(s, v) {
        var i, j :| 0 <= i < j < |s| && s[i] == v && s[j] == v;
        assert t[i] == v && t[j] == v;
      }
      if v == c && c in s {
        var i :| 0 <= i < |s| && s[i] == c;
        assert t[i] == v && t[|s|] == v;
      }
    }
  }

  method Scan(ids: seq<string>) returns (r: Report)
    ensures Describes(r, ids)
    ensures r.Ok() <==> Numbered(ids)
  {
    var counters: seq<nat> := [];
    var badFormat: seq<string> := [];
    for i := 0 to |ids|
      invariant counters == Counters(ids[..i]) && badFormat == Malformed(ids[..i])
    {
      assert ids[..i + 1][..i] == ids[..i];
      var c := EntryCounter(ids[i]);
      if c.None? {
        badFormat := badFormat + [ids[i]];
      } else {
        counters := counters + [c.value];
      }
    }
    assert ids[..|ids|] == ids;
    var notSorted := OutOfOrder(counters);
    var startsAt1 := ids == [];
    var gaps: seq<nat> := [];
    var dupes: set<nat> := {};
    if counters != [] {
      var lo, hi := Extremes(counters);
      startsAt1 := lo == 1;
      for i := 1 to hi + 1
        invariant forall g :: g in gaps <==> 1 <= g < i && g !in counters
      {
        if i !in counters { gaps := gaps + [i]; }
      }
      dupes := Repeated(counters);
    }
    r := Report(|ids|, notSorted, startsAt1, gaps, dupes, badFormat);
    OkIffNumbered(r, ids);
  }

  lemma {:induction false} CountersOf(ids: seq<string>)
    ensures |Counters(ids)| + |Malformed(ids)| == |ids|
    ensures Malformed(ids) == [] ==>
      |Counters(ids)| == |ids| && forall k :: 0 <= k < |ids| ==> EntryCounter(ids[k]) == Some(Counters(ids)[k])
    ensures (forall k :: 0 <= k < |ids| ==> EntryCounter(ids[k]).Some?) ==> Malformed(ids) == []
  {
    if ids != [] { CountersOf(ids[..|ids| - 1]); }
  }

  /** Sorted from 1 without repetition or gap: the k-th counter is k. */
  lemma {:induction false} NoGapNoRepeat(cs: seq<nat>, k: nat)
    requires Ascending(cs) && (forall c :: c in cs ==> 1 <= c) && k < |cs|
    requires forall v :: !Twice(cs, v)
    requires forall g :: 1 <= g && (exists c :: c in cs && g <= c) ==> g in cs
    ensures cs[k] == k + 1
  {
    if k > 0 { NoGapNoRepeat(cs, k - 1); }
    var before := if k == 0 then 0 else cs[k - 1];
    assert cs[k] in cs;
    assert before < cs[k] by {
      assert !Twice(cs, cs[k]);
    }
    assert before + 1 in cs;
    var j :| 0 <= j < |cs| && cs[j] == before + 1;
    assert k <= j;
  }

  /** The report is clean exactly for files numbered 1, 2, ..., n. */
  lemma {:induction false} OkIffNumbered(r: Report, ids: seq<string>)
    requires Describes(r, ids)
    ensures r.Ok() <==> Numbered(ids)
  {
    var cs := Counters(ids);
    CountersOf(ids);
    if ids != [] && r.Ok() {
      forall k | 0 <= k < |ids| ensures EntryCounter(ids[k]) == Some(k + 1) {
        forall v ensures !Twice(cs, v) { assert v !in r.dupes; }
        forall g | 1 <= g && exists c :: c in cs && g <= c ensures g in cs { assert g !in r.gaps; }
        NoGapNoRepeat(cs, k);
      }
    }
    if ids != [] && Numbered(ids) {
      NumberedIsOk(r, ids);
    }
  }

  lemma {:induction false} NumberedIsOk(r: Report, ids: seq<string>)
    requires Describes(r, ids) && ids != [] && Numbered(ids)
    ensures r.Ok()
  {
    var cs := Counters(ids);
    CountersOf(ids);
    assert forall k :: 0 <= k < |ids| ==> EntryCounter(ids[k]).Some?;
    assert |cs| == |ids|;
    forall k | 0 <= k < |cs| ensures cs[k] == k + 1 {
      assert EntryCounter(ids[k]) == Some(cs[k]);
    }
    assert cs[0] == 1;
    assert r.gaps != [] ==> r.gaps[0] in r.gaps;
    forall g | 1 <= g && exists c :: c in cs && g <= c ensures g in cs {
      assert cs[g - 1] == g;
    }
    assert forall v :: !Twice(cs, v);
    assert r.dupes == {};
  }

  /** A file written one entry at a time, each id numbered one past the entries before it,
      has a clean report. */
  lemma {:induction false} AppendedFilesAreOk(stems: seq<string>, r: Report)
    requires Describes(r, seq(|stems|, k requires 0 <= k < |stems| => EntryId(stems[k], k + 1)))
    ensures r.Ok()
  {
    var ids := seq(|stems|, k requires 0 <= k < |stems| => EntryId(stems[k], k + 1));
    forall k | 0 <= k < |ids| ensures EntryCounter(ids[k]) == Some(k + 1) {
      CounterRoundTrip(stems[k], k + 1);
    }
    OkIffNumbered(r, ids);
  }
}
