/** `_merge_dedupe_sort`: union of the buffered and the incoming messages, one copy
    per id, ordered by (timestamp, id). */
module Merging {
  import opened Common
  import opened Messages

  // ── Order by (timestamp, message_id) ────────────────────────────────────

  predicate Before(m: Msg, n: Msg) {
    m.timestamp < n.timestamp || (m.timestamp == n.timestamp && StrLt(m.id, n.id))
  }

  lemma BeforeTransitive(a: Msg, b: Msg, c: Msg)
    requires Before(a, b) && Before(b, c)
    ensures Before(a, c)
  {
    if a.timestamp == b.timestamp == c.timestamp {
      StrLtTransitive(a.id, b.id, c.id);
    }
  }

  lemma BeforeIrreflexive(a: Msg)
    ensures !Before(a, a)
  {
    StrLtIrreflexive(a.id);
  }

  ghost predicate StrictlySorted(s: seq<Msg>) {
    forall i, j :: 0 <= i < j < |s| ==> Before(s[i], s[j])
  }

  /** Two strictly sorted lists with the same members are the same list. */
  lemma {:induction false} SortedListUnique(a: seq<Msg>, b: seq<Msg>)
    requires StrictlySorted(a) && StrictlySorted(b)
    requires forall m :: m in a <==> m in b
    ensures a == b
  {
    assert a != [] ==> a[0] in b;
    assert b != [] ==> b[0] in a;
    if a != [] && b != [] {
      if a[0] != b[0] {
        assert a[0] in b && b[0] in a;
        var i :| 0 <= i < |b| && b[i] == a[0];
        var j :| 0 <= j < |a| && a[j] == b[0];
        BeforeTransitive(a[0], b[0], a[0]);
        BeforeIrreflexive(a[0]);
        assert false;
      }
      forall m ensures m in a[1..] <==> m in b[1..] {
        TailMember(a, m);
        TailMember(b, m);
      }
      SortedListUnique(a[1..], b[1..]);
    }
  }

  lemma TailMember(s: seq<Msg>, m: Msg)
    requires s != [] && StrictlySorted(s)
    ensures m in s[1..] <==> m in s && m != s[0]
  {
    BeforeIrreflexive(s[0]);
    if m in s[1..] {
      var i :| 0 <= i < |s[1..]| && s[1..][i] == m;
      assert s[i + 1] == m;
    }
  }

  // ── Which copy of an id survives ────────────────────────────────────────

  function First(s: seq<Msg>, id: string): Option<Msg> {
    if s == [] then None
    else if s[0].id == id then Some(s[0])
    else First(s[1..], id)
  }

  function Last(s: seq<Msg>, id: string): Option<Msg> {
    if s == [] then None
    else if s[|s| - 1].id == id then Some(s[|s| - 1])
    else Last(s[..|s| - 1], id)
  }

  /** The copy that survives a merge: the last buffered one, else the first incoming one. */
  function Survivor(buffered: seq<Msg>, incoming: seq<Msg>, id: string): Option<Msg> {
    if Last(buffered, id).Some? then Last(buffered, id) else First(incoming, id)
  }

  ghost predicate IsMerge(buffered: seq<Msg>, incoming: seq<Msg>, r: seq<Msg>) {
    && StrictlySorted(r)
    && forall m :: m in r <==> Survivor(buffered, incoming, m.id) == Some(m)
  }

  ghost predicate DistinctIds(s: seq<Msg>) {
    forall i, j :: 0 <= i < j < |s| ==> s[i].id != s[j].id
  }

  predicate HasId(s: seq<Msg>, id: string) {
    exists i :: 0 <= i < |s| && s[i].id == id
  }

  lemma {:induction false} FirstMember(s: seq<Msg>, id: string)
    ensures First(s, id).Some? <==> HasId(s, id)
    ensures First(s, id).Some? ==> First(s, id).value in s && First(s, id).value.id == id
  {
    if s != [] {
      FirstMember(s[1..], id);
      if s[0].id != id && HasId(s, id) {
        var i :| 0 <= i < |s| && s[i].id == id;
        assert s[1..][i - 1].id == id;
      }
      if HasId(s[1..], id) {
        var i :| 0 <= i < |s[1..]| && s[1..][i].id == id;
        assert s[i + 1].id == id;
      }
    }
  }

  lemma {:induction false} LastMember(s: seq<Msg>, id: string)
    ensures Last(s, id).Some? <==> HasId(s, id)
    ensures Last(s, id).Some? ==> Last(s, id).value in s && Last(s, id).value.id == id
  {
    if s != [] {
      var t := s[..|s| - 1];
      LastMember(t, id);
      if s[|s| - 1].id != id && HasId(s, id) {
        var i :| 0 <= i < |s| && s[i].id == id;
        assert t[i].id == id;
      }
      if HasId(t, id) {
        var i :| 0 <= i < |t| && t[i].id == id;
        assert s[i].id == id;
      }
    }
  }

  /** With distinct ids there is only one candidate, whichever end the search starts from. */
  lemma DistinctLookup(s: seq<Msg>, m: Msg)
    requires DistinctIds(s)
    ensures First(s, m.id) == Some(m) <==> m in s
    ensures Last(s, m.id) == Some(m) <==> m in s
    ensures First(s, m.id) == Last(s, m.id)
  {
    FirstMember(s, m.id);
    LastMember(s, m.id);
    if m in s {
      var i :| 0 <= i < |s| && s[i] == m;
      assert HasId(s, m.id);
    }
  }

  // ── The dict of the source: insertion ordered, one entry per id ─────────

  /** `d[m.message_id] = m`. */
  function Put(d: seq<Msg>, m: Msg): seq<Msg> {
    if d == [] then [m]
    else if d[0].id == m.id then [m] + d[1..]
    else [d[0]] + Put(d[1..], m)
  }

  /** `d.setdefault(m.message_id, m)`. */
  function SetDefault(d: seq<Msg>, m: Msg): seq<Msg> {
    if HasId(d, m.id) then d else d + [m]
  }

  lemma {:induction false} PutKeys(d: seq<Msg>, m: Msg)
    ensures forall k: string :: HasId(Put(d, m), k) <==> k == m.id || HasId(d, k)
    ensures DistinctIds(d) ==> DistinctIds(Put(d, m))
    ensures DistinctIds(d) ==> forall n :: n in Put(d, m) <==> n == m || (n in d && n.id != m.id)
  {
    if d == [] {
      assert [m][0].id == m.id;
    } else if d[0].id == m.id {
      forall k: string ensures HasId(Put(d, m), k) <==> k == m.id || HasId(d, k) {
        if HasId(d, k) { var i :| 0 <= i < |d| && d[i].id == k; assert Put(d, m)[i].id == k; }
        if k == m.id { assert Put(d, m)[0].id == k; }
        if HasId(Put(d, m), k) { var i :| 0 <= i < |d| && Put(d, m)[i].id == k; assert d[i].id == k; }
      }
      if DistinctIds(d) {
        assert d == [d[0]] + d[1..];
      }
    } else {
      PutKeys(d[1..], m);
      var p := Put(d[1..], m);
      assert Put(d, m) == [d[0]] + p;
      forall k: string ensures HasId(Put(d, m), k) <==> k == m.id || HasId(d, k) {
        HasIdCons(d[0], d[1..], k);
        HasIdCons(d[0], p, k);
        assert d == [d[0]] + d[1..];
      }
      if DistinctIds(d) {
        assert DistinctIds(d[1..]);
        assert !HasId(p, d[0].id);
        assert d == [d[0]] + d[1..];
        forall i, j | 0 <= i < j < |Put(d, m)| ensures Put(d, m)[i].id != Put(d, m)[j].id {
          assert Put(d, m)[j] == p[j - 1];
        }
      }
    }
  }

  lemma HasIdCons(h: Msg, t: seq<Msg>, k: string)
    ensures HasId([h] + t, k) <==> h.id == k || HasId(t, k)
  {
    var s := [h] + t;
    if HasId(t, k) { var i :| 0 <= i < |t| && t[i].id == k; assert s[i + 1].id == k; }
    if h.id == k { assert s[0].id == k; }
    if HasId(s, k) && h.id != k { var i :| 0 <= i < |s| && s[i].id == k; assert t[i - 1].id == k; }
  }

  lemma SetDefaultKeys(d: seq<Msg>, m: Msg)
    requires DistinctIds(d)
    ensures DistinctIds(SetDefault(d, m))
    ensures forall n :: n in SetDefault(d, m) <==> n in d || (n == m && !HasId(d, m.id))
    ensures forall k: string :: HasId(SetDefault(d, m), k) <==> k == m.id || HasId(d, k)
  {
    var r := SetDefault(d, m);
    forall k: string ensures HasId(r, k) <==> k == m.id || HasId(d, k) {
      if HasId(d, k) { var i :| 0 <= i < |d| && d[i].id == k; assert r[i].id == k; }
      if k == m.id && !HasId(d, k) { assert r[|d|].id == k; }
    }
    if !HasId(d, m.id) {
      forall i, j | 0 <= i < j < |r| ensures r[i].id != r[j].id {}
    }
  }

  function DictOf(buffered: seq<Msg>): seq<Msg> {
    if buffered == [] then []
    else Put(DictOf(buffered[..|buffered| - 1]), buffered[|buffered| - 1])
  }

  function WithDefaults(d: seq<Msg>, incoming: seq<Msg>): seq<Msg> {
    if incoming == [] then d
    else SetDefault(WithDefaults(d, incoming[..|incoming| - 1]), incoming[|incoming| - 1])
  }

  lemma {:induction false} DictOfMembers(b: seq<Msg>)
    ensures DistinctIds(DictOf(b))
    ensures forall m :: m in DictOf(b) <==> Last(b, m.id) == Some(m)
    ensures forall k: string :: HasId(DictOf(b), k) <==> HasId(b, k)
  {
    if b != [] {
      var t, e := b[..|b| - 1], b[|b| - 1];
      DictOfMembers(t);
      PutKeys(DictOf(t), e);
      forall k: string ensures HasId(DictOf(b), k) <==> HasId(b, k) {
        if HasId(t, k) { var i :| 0 <= i < |t| && t[i].id == k; assert b[i].id == k; }
        if k == e.id { assert b[|b| - 1].id == k; }
        if HasId(b, k) && k != e.id { var i :| 0 <= i < |b| && b[i].id == k; assert t[i].id == k; }
      }
    }
  }

  lemma {:induction false} FirstSnoc(s: seq<Msg>, m: Msg, id: string)
    ensures First(s + [m], id) == if First(s, id).Some? then First(s, id) else First([m], id)
  {
    if s == [] {
      assert [] + [m] == [m];
    } else {
      FirstSnoc(s[1..], m, id);
      assert (s + [m])[1..] == s[1..] + [m];
    }
  }

  lemma {:induction false} WithDefaultsMembers(b: seq<Msg>, incoming: seq<Msg>)
    ensures DistinctIds(WithDefaults(DictOf(b), incoming))
    ensures forall m :: m in WithDefaults(DictOf(b), incoming) <==> Survivor(b, incoming, m.id) == Some(m)
    ensures forall k: string :: HasId(WithDefaults(DictOf(b), incoming), k) <==> Survivor(b, incoming, k).Some?
  {
    DictOfMembers(b);
    if incoming == [] {
      forall k: string ensures HasId(DictOf(b), k) <==> Last(b, k).Some? {
        LastMember(b, k);
      }
    } else {
      var t, e := incoming[..|incoming| - 1], incoming[|incoming| - 1];
      WithDefaultsMembers(b, t);
      var d := WithDefaults(DictOf(b), t);
      SetDefaultKeys(d, e);
      assert t + [e] == incoming;
      forall m: Msg ensures m in SetDefault(d, e) <==> Survivor(b, incoming, m.id) == Some(m) {
        SurvivorSnoc(b, t, e, m.id);
        SurvivorHasId(b, t, m.id);
      }
      forall k: string ensures HasId(SetDefault(d, e), k) <==> Survivor(b, incoming, k).Some? {
        SurvivorSnoc(b, t, e, k);
      }
    }
  }

  lemma SurvivorSnoc(b: seq<Msg>, t: seq<Msg>, e: Msg, k: string)
    ensures Survivor(b, t + [e], k) ==
            if Survivor(b, t, k).Some? then Survivor(b, t, k)
            else if e.id == k then Some(e) else None
  {
    FirstSnoc(t, e, k);
  }

  lemma SurvivorHasId(b: seq<Msg>, x: seq<Msg>, k: string)
    ensures Survivor(b, x, k).Some? ==> Survivor(b, x, k).value.id == k
  {
    LastMember(b, k);
    FirstMember(x, k);
  }

  // ── Sorting ─────────────────────────────────────────────────────────────

  function Insert(m: Msg, s: seq<Msg>): seq<Msg> {
    if s == [] then [m]
    else if Before(m, s[0]) then [m] + s
    else [s[0]] + Insert(m, s[1..])
  }

  function SortByKey(s: seq<Msg>): seq<Msg> {
    if s == [] then [] else Insert(s[0], SortByKey(s[1..]))
  }

  lemma {:induction false} InsertSorted(m: Msg, s: seq<Msg>)
    requires StrictlySorted(s)
    requires forall n :: n in s ==> n.id != m.id
    ensures StrictlySorted(Insert(m, s))
    ensures forall n :: n in Insert(m, s) <==> n == m || n in s
    ensures |Insert(m, s)| == |s| + 1
  {
    if s == [] {
    } else if Before(m, s[0]) {
      forall i | 0 <= i < |s| ensures Before(m, s[i]) {
        if i > 0 { BeforeTransitive(m, s[0], s[i]); }
      }
    } else {
      InsertSorted(m, s[1..]);
      StrLtTotal(m.id, s[0].id);
      assert Before(s[0], m);
      var r := Insert(m, s[1..]);
      forall j | 0 <= j < |r| ensures Before(s[0], r[j]) {
        assert r[j] in r;
        assert r[j] == m || r[j] in s[1..];
      }
      assert s == [s[0]] + s[1..];
    }
  }

  lemma {:induction false} SortByKeySorts(s: seq<Msg>)
    requires DistinctIds(s)
    ensures StrictlySorted(SortByKey(s))
    ensures forall n :: n in SortByKey(s) <==> n in s
    ensures |SortByKey(s)| == |s|
  {
    if s != [] {
      SortByKeySorts(s[1..]);
      assert forall n :: n in s[1..] ==> n.id != s[0].id;
      InsertSorted(s[0], SortByKey(s[1..]));
      assert s == [s[0]] + s[1..];
    }
  }

  // ── Merge ───────────────────────────────────────────────────────────────

  function Merge(buffered: seq<Msg>, incoming: seq<Msg>): seq<Msg> {
    SortByKey(WithDefaults(DictOf(buffered), incoming))
  }

  /** The merge holds exactly the surviving copy of every id, in strict key order. */
  lemma MergeIsMerge(b: seq<Msg>, x: seq<Msg>)
    ensures IsMerge(b, x, Merge(b, x))
    ensures forall k: string :: HasId(Merge(b, x), k) <==> HasId(b, k) || HasId(x, k)
    ensures DistinctIds(Merge(b, x))
  {
    WithDefaultsMembers(b, x);
    var d := WithDefaults(DictOf(b), x);
    SortByKeySorts(d);
    forall k: string ensures HasId(Merge(b, x), k) <==> HasId(b, k) || HasId(x, k) {
      LastMember(b, k);
      FirstMember(x, k);
      if HasId(d, k) {
        var i :| 0 <= i < |d| && d[i].id == k;
        assert d[i] in SortByKey(d);
      }
      if HasId(Merge(b, x), k) {
        var i :| 0 <= i < |Merge(b, x)| && Merge(b, x)[i].id == k;
        assert Merge(b, x)[i] in d;
      }
    }
    SortedIdsDistinct(b, x, Merge(b, x));
  }

  /** The merged list runs from older to newer, and by id among equal times: the smaller id
      first, by the first character in which they differ. */
  lemma MergeOrder(b: seq<Msg>, x: seq<Msg>, i: nat, j: nat)
    requires i < j < |Merge(b, x)|
    ensures var m, n := Merge(b, x)[i], Merge(b, x)[j];
      && m.timestamp <= n.timestamp
      && (m.timestamp == n.timestamp ==>
            exists k :: 0 <= k <= |m.id| && k < |n.id| && m.id[..k] == n.id[..k] && (k == |m.id| || m.id[k] < n.id[k]))
  {
    MergeIsMerge(b, x);
    StrLtIs(Merge(b, x)[i].id, Merge(b, x)[j].id);
  }

  lemma SortedIdsDistinct(b: seq<Msg>, x: seq<Msg>, r: seq<Msg>)
    requires IsMerge(b, x, r)
    ensures DistinctIds(r)
  {
    forall i, j | 0 <= i < j < |r| ensures r[i].id != r[j].id {
      assert r[i] in r && r[j] in r;
      if r[i].id == r[j].id {
        BeforeIrreflexive(r[i]);
        assert false;
      }
    }
  }

  lemma MergeUnique(b: seq<Msg>, x: seq<Msg>, r: seq<Msg>)
    requires IsMerge(b, x, r)
    ensures r == Merge(b, x)
  {
    MergeIsMerge(b, x);
    SortedListUnique(r, Merge(b, x));
  }

  method MergeDedupeSort(buffered: seq<Msg>, incoming: seq<Msg>) returns (r: seq<Msg>)
    ensures IsMerge(buffered, incoming, r)
    ensures r == Merge(buffered, incoming)
  {
    var seen: seq<Msg> := [];
    for i := 0 to |buffered|
      invariant seen == DictOf(buffered[..i])
    {
      assert buffered[..i + 1][..i] == buffered[..i];
      seen := Put(seen, buffered[i]);
    }
    assert buffered[..|buffered|] == buffered;
    for j := 0 to |incoming|
      invariant seen == WithDefaults(DictOf(buffered), incoming[..j])
    {
      assert incoming[..j + 1][..j] == incoming[..j];
      seen := SetDefault(seen, incoming[j]);
    }
    assert incoming[..|incoming|] == incoming;
    r := SortByKey(seen);
    MergeIsMerge(buffered, incoming);
  }

  // ── Deferral ────────────────────────────────────────────────────────────

  lemma {:induction false} FirstAppend(x: seq<Msg>, y: seq<Msg>, id: string)
    ensures First(x + y, id) == if First(x, id).Some? then First(x, id) else First(y, id)
  {
    if x == [] {
      assert x + y == y;
    } else {
      FirstAppend(x[1..], y, id);
      assert (x + y)[1..] == x[1..] + y;
    }
  }

  /** Buffering x and merging y later equals merging both at once; of two copies of
      an id the first to arrive wins. */
  lemma MergeAssociates(b: seq<Msg>, x: seq<Msg>, y: seq<Msg>)
    ensures Merge(Merge(b, x), y) == Merge(b, x + y)
  {
    var p := Merge(b, x);
    MergeIsMerge(b, x);
    MergeIsMerge(p, y);
    forall m: Msg ensures Survivor(p, y, m.id) == Some(m) <==> Survivor(b, x + y, m.id) == Some(m) {
      FirstAppend(x, y, m.id);
      LastMember(p, m.id);
      DistinctLookup(p, m);
      LastMember(b, m.id);
      FirstMember(x, m.id);
      if Survivor(b, x, m.id).Some? {
        var n := Survivor(b, x, m.id).value;
        assert n.id == m.id;
        DistinctLookup(p, n);
      }
    }
    MergeUnique(b, x + y, Merge(p, y));
  }

  /** The rows of the buffer may come back in any order: with distinct ids only
      membership matters, on either side of the merge. */
  lemma MergeIgnoresArrivalOrder(b: seq<Msg>, b': seq<Msg>, x: seq<Msg>, x': seq<Msg>)
    requires DistinctIds(b) && DistinctIds(b') && (forall m :: m in b <==> m in b')
    requires DistinctIds(x) && DistinctIds(x') && (forall m :: m in x <==> m in x')
    ensures Merge(b, x) == Merge(b', x')
  {
    MergeIsMerge(b', x');
    forall m: Msg ensures Survivor(b, x, m.id) == Survivor(b', x', m.id) {
      SameLookup(b, b', m.id);
      SameLookup(x, x', m.id);
    }
    MergeUnique(b, x, Merge(b', x'));
  }

  lemma SameLookup(s: seq<Msg>, t: seq<Msg>, id: string)
    requires DistinctIds(s) && DistinctIds(t) && (forall m :: m in s <==> m in t)
    ensures Last(s, id) == Last(t, id) && First(s, id) == First(t, id)
  {
    LastMember(s, id);
    LastMember(t, id);
    FirstMember(s, id);
    FirstMember(t, id);
    if Last(s, id).Some? {
      var n := Last(s, id).value;
      DistinctLookup(s, n);
      DistinctLookup(t, n);
    } else if Last(t, id).Some? {
      var n := Last(t, id).value;
      DistinctLookup(s, n);
      DistinctLookup(t, n);
    }
  }
}
