/** The benchmark runner's smoke subset: a round-robin sample of the questions over their
    categories, and the trimming of the conversation. Items are named by their position. */
module Sampling {
  import opened Common

  type Categories = seq<Option<int>>

  /** The items of category c among the first k, in order. */
  function Members(cats: Categories, c: int, k: nat): seq<int>
    requires k <= |cats|
  {
    if k == 0 then []
    else if cats[k - 1] == Some(c) then Members(cats, c, k - 1) + [k - 1]
    else Members(cats, c, k - 1)
  }

  function AllOf(cats: Categories, c: int): seq<int> {
    Members(cats, c, |cats|)
  }

  predicate Item(cats: Categories, i: int) {
    0 <= i < |cats| && cats[i].Some?
  }

  /** How many items of its own category an item follows. */
  function Rank(cats: Categories, i: int): nat
    requires Item(cats, i)
  {
    |Members(cats, cats[i].value, i)|
  }

  /** The order in which the rounds reach the items. */
  predicate Earlier(cats: Categories, i: int, j: int) {
    && Item(cats, i) && Item(cats, j)
    && (Rank(cats, i) < Rank(cats, j) ||
        (Rank(cats, i) == Rank(cats, j) && cats[i].value < cats[j].value))
  }

  ghost predicate Increasing(s: seq<int>) {
    forall i, j :: 0 <= i < j < |s| ==> s[i] < s[j]
  }

  ghost predicate NoDup(s: seq<int>) {
    forall i, j :: 0 <= i < j < |s| ==> s[i] != s[j]
  }

  ghost predicate SameElements(a: seq<int>, b: seq<int>) {
    forall x :: x in a <==> x in b
  }

  ghost predicate DownClosed(cats: Categories, r: seq<int>) {
    forall i, j :: i in r && Earlier(cats, j, i) ==> j in r
  }

  /** Every item that has a category, in order. */
  function Categorised(cats: Categories, k: nat): seq<int>
    requires k <= |cats|
  {
    if k == 0 then []
    else if cats[k - 1].Some? then Categorised(cats, k - 1) + [k - 1]
    else Categorised(cats, k - 1)
  }

  /** The sample: a subsequence of the categorised items, of the requested size or all of
      them, that leaves out nothing the rounds reach before something it holds. */
  ghost predicate IsSample(cats: Categories, n: int, r: seq<int>) {
    && Increasing(r)
    && (forall i :: i in r ==> Item(cats, i))
    && |r| == Min(Max(n, 0), |Categorised(cats, |cats|)|)
    && DownClosed(cats, r)
  }

  // ── Positions and ranks ─────────────────────────────────────────────────

  lemma {:induction false} MembersPrefix(cats: Categories, c: int, j: nat, k: nat)
    requires j <= k <= |cats|
    ensures |Members(cats, c, j)| <= |Members(cats, c, k)|
    ensures Members(cats, c, j) == Members(cats, c, k)[..|Members(cats, c, j)|]
  {
    if j < k { MembersPrefix(cats, c, j, k - 1); }
  }

  /** The item of rank k in its category is the k-th of the category. */
  lemma {:induction false} MemberHasRank(cats: Categories, c: int, n: nat, k: nat)
    requires n <= |cats| && k < |Members(cats, c, n)|
    ensures var m := Members(cats, c, n)[k];
      0 <= m < n && cats[m] == Some(c) && Rank(cats, m) == k
  {
    if k < |Members(cats, c, n - 1)| { MemberHasRank(cats, c, n - 1, k); }
  }

  lemma {:induction false} RankFinds(cats: Categories, i: int)
    requires Item(cats, i)
    ensures Rank(cats, i) < |AllOf(cats, cats[i].value)|
    ensures AllOf(cats, cats[i].value)[Rank(cats, i)] == i
  {
    MembersPrefix(cats, cats[i].value, i + 1, |cats|);
  }

  lemma {:induction false} CategorisedIs(cats: Categories, k: nat)
    requires k <= |cats|
    ensures Increasing(Categorised(cats, k))
    ensures forall i :: i in Categorised(cats, k) <==> i < k && Item(cats, i)
  {
    if k > 0 {
      var s := Categorised(cats, k - 1);
      CategorisedIs(cats, k - 1);
      forall j | 0 <= j < |s| ensures s[j] < k - 1 { assert s[j] in s; }
    }
  }

  // ── Sorting positions and category keys ─────────────────────────────────

  function Insert(x: int, s: seq<int>): seq<int> {
    if s == [] || x <= s[0] then [x] + s else [s[0]] + Insert(x, s[1..])
  }

  function Ascending(s: seq<int>): seq<int> {
    if s == [] then [] else Insert(s[0], Ascending(s[1..]))
  }

  lemma {:induction false} InsertIs(x: int, s: seq<int>)
    requires Increasing(s) && x !in s
    ensures Increasing(Insert(x, s)) && |Insert(x, s)| == |s| + 1
    ensures forall y :: y in Insert(x, s) <==> y == x || y in s
  {
    if s != [] && x > s[0] {
      var rest := Insert(x, s[1..]);
      InsertIs(x, s[1..]);
      forall k | 0 <= k < |rest| ensures s[0] < rest[k] {
        assert rest[k] in rest;
      }
      assert s == [s[0]] + s[1..];
    }
  }

  lemma {:induction false} AscendingIs(s: seq<int>)
    requires NoDup(s)
    ensures Increasing(Ascending(s)) && |Ascending(s)| == |s| && SameElements(Ascending(s), s)
  {
    if s != [] {
      AscendingIs(s[1..]);
      InsertIs(s[0], Ascending(s[1..]));
      assert s == [s[0]] + s[1..];
    }
  }

  lemma {:induction false} SameElementsSameSize(a: seq<int>, b: seq<int>)
    requires NoDup(a) && NoDup(b) && SameElements(a, b)
    ensures |a| == |b|
  {
    SizeOf(a);
    SizeOf(b);
    assert (set x | x in a) == (set x | x in b);
  }

  lemma {:induction false} FewerElements(a: seq<int>, b: seq<int>)
    requires NoDup(a) && NoDup(b) && forall x :: x in a ==> x in b
    ensures |a| <= |b|
  {
    SizeOf(a);
    SizeOf(b);
    SubsetSize((set x | x in a), (set x | x in b));
  }

  lemma {:induction false} SubsetSize(a: set<int>, b: set<int>)
    requires a <= b
    ensures |a| <= |b|
  {
    assert b == a + (b - a);
  }

  lemma {:induction false} SizeOf(s: seq<int>)
    requires NoDup(s)
    ensures |set x | x in s| == |s|
  {
    if s != [] {
      SizeOf(s[1..]);
      assert (set x | x in s) == {s[0]} + (set x | x in s[1..]);
    }
  }

  // ── The rounds ──────────────────────────────────────────────────────────

  /** The items reached once `round` rounds are complete and the next one has visited the
      categories in `visited`. */
  predicate Reached(cats: Categories, round: nat, visited: seq<int>, i: int) {
    && Item(cats, i)
    && (Rank(cats, i) < round || (Rank(cats, i) == round && cats[i].value in visited))
  }

  ghost predicate Holds(cats: Categories, round: nat, visited: seq<int>, selected: seq<int>) {
    && NoDup(selected)
    && forall i :: i in selected <==> Reached(cats, round, visited, i)
  }

  /** What is left of the queue of a category after it was served `served` times. */
  function Left(cats: Categories, c: int, served: nat): seq<int> {
    AllOf(cats, c)[Min(served, |AllOf(cats, c)|)..]
  }

  ghost predicate Queues(cats: Categories, order: seq<int>, byCat: map<int, seq<int>>, round: nat, k: nat)
    requires k <= |order|
  {
    forall p :: 0 <= p < |order| ==>
      order[p] in byCat && byCat[order[p]] == Left(cats, order[p], if p < k then round + 1 else round)
  }

  ghost predicate AllCategories(cats: Categories, order: seq<int>) {
    && Increasing(order)
    && forall i :: Item(cats, i) ==> cats[i].value in order
  }

  /** Serving a category that still has items selects the one whose rank is the round. */
  lemma {:induction false} ServeOne(cats: Categories, round: nat, visited: seq<int>, c: int, selected: seq<int>)
    requires Holds(cats, round, visited, selected) && c !in visited && round < |AllOf(cats, c)|
    ensures Left(cats, c, round) != [] && Left(cats, c, round)[1..] == Left(cats, c, round + 1)
    ensures Holds(cats, round, visited + [c], selected + [Left(cats, c, round)[0]])
  {
    var m, grown := AllOf(cats, c)[round], selected + [AllOf(cats, c)[round]];
    MemberHasRank(cats, c, |cats|, round);
    assert !Reached(cats, round, visited, m);
    forall j | 0 <= j < |selected| ensures selected[j] != m { assert selected[j] in selected; }
    forall i ensures i in grown <==> Reached(cats, round, visited + [c], i) {
      if Item(cats, i) { RankFinds(cats, i); }
    }
  }

  /** Serving an exhausted category selects nothing, and there was nothing to select. */
  lemma {:induction false} ServeNone(cats: Categories, round: nat, visited: seq<int>, c: int, selected: seq<int>)
    requires Holds(cats, round, visited, selected) && |AllOf(cats, c)| <= round
    ensures Left(cats, c, round) == [] == Left(cats, c, round + 1)
    ensures Holds(cats, round, visited + [c], selected)
  {
    forall i ensures i in selected <==> Reached(cats, round, visited + [c], i) {
      if Item(cats, i) { RankFinds(cats, i); }
    }
  }

  lemma {:induction false} NextRound(cats: Categories, round: nat, order: seq<int>, selected: seq<int>)
    requires Holds(cats, round, order, selected) && AllCategories(cats, order)
    ensures Holds(cats, round + 1, [], selected)
  {
    forall i ensures i in selected <==> Reached(cats, round + 1, [], i) {
    }
  }

  lemma {:induction false} HoldsIsClosed(cats: Categories, round: nat, order: seq<int>, k: nat, selected: seq<int>)
    requires AllCategories(cats, order) && k <= |order| && Holds(cats, round, order[..k], selected)
    ensures DownClosed(cats, selected) && forall i :: i in selected ==> Item(cats, i)
  {
    forall i, j | i in selected && Earlier(cats, j, i) ensures j in selected {
      assert Reached(cats, round, order[..k], i);
      if Rank(cats, j) == round {
        var p :| 0 <= p < k && order[p] == cats[i].value;
        var q :| 0 <= q < |order| && order[q] == cats[j].value;
        assert q < p;
        assert order[..k][q] == cats[j].value;
      }
      assert Reached(cats, round, order[..k], j);
    }
  }

  /** Everything is selected once every category is exhausted. */
  lemma {:induction false} AllSelected(cats: Categories, round: nat, order: seq<int>, selected: seq<int>)
    requires AllCategories(cats, order) && Holds(cats, round, order, selected)
    requires forall p :: 0 <= p < |order| ==> |AllOf(cats, order[p])| <= round
    ensures |selected| == |Categorised(cats, |cats|)|
  {
    CategorisedIs(cats, |cats|);
    forall i ensures i in selected <==> i in Categorised(cats, |cats|) {
      if Item(cats, i) {
        RankFinds(cats, i);
        var p :| 0 <= p < |order| && order[p] == cats[i].value;
        assert Reached(cats, round, order, i);
      }
    }
    SameElementsSameSize(selected, Categorised(cats, |cats|));
  }

  lemma {:induction false} NotMoreThanAll(cats: Categories, selected: seq<int>)
    requires NoDup(selected) && forall i :: i in selected ==> Item(cats, i)
    ensures |selected| <= |Categorised(cats, |cats|)|
  {
    CategorisedIs(cats, |cats|);
    FewerElements(selected, Categorised(cats, |cats|));
  }

  /** The dictionary of queues, with its keys in insertion order. */
  method GroupByCategory(cats: Categories) returns (byCat: map<int, seq<int>>, keys: seq<int>)
    ensures NoDup(keys) && (forall c :: c in keys <==> c in byCat)
    ensures forall c :: c in byCat ==> byCat[c] == AllOf(cats, c)
    ensures forall i :: Item(cats, i) ==> cats[i].value in keys
  {
    byCat, keys := map[], [];
    for i := 0 to |cats|
      invariant NoDup(keys) && (forall c :: c in keys <==> c in byCat)
      invariant forall c :: c in byCat ==> byCat[c] == Members(cats, c, i)
      invariant forall c :: c !in byCat ==> Members(cats, c, i) == []
      invariant forall j :: 0 <= j < i && cats[j].Some? ==> cats[j].value in keys
    {
      if cats[i].Some? {
        var c := cats[i].value;
        if c in byCat {
          byCat := byCat[c := byCat[c] + [i]];
        } else {
          byCat, keys := byCat[c := [i]], keys + [c];
        }
      }
    }
  }

  method StratifiedSample(cats: Categories, n: int) returns (r: seq<int>)
    ensures IsSample(cats, n, r)
  {
    var byCat, keys := GroupByCategory(cats);
    var order := Ascending(keys);
    AscendingIs(keys);
    forall i | Item(cats, i) ensures cats[i].value in order { assert cats[i].value in keys; }
    var selected := PickInRounds(cats, n, order, byCat);
    AscendingIs(selected);
    r := Ascending(selected);
  }

  method PickInRounds(cats: Categories, n: int, order: seq<int>, queues: map<int, seq<int>>) returns (selected: seq<int>)
    requires AllCategories(cats, order) && Queues(cats, order, queues, 0, 0)
    ensures NoDup(selected) && (forall i :: i in selected ==> Item(cats, i)) && DownClosed(cats, selected)
    ensures |selected| == Min(Max(n, 0), |Categorised(cats, |cats|)|)
  {
    selected := [];
    var byCat := queues;
    ghost var round, k := 0, 0;
    while |selected| < n
      invariant 0 <= k <= |order| && (k == 0 || |selected| == n)
      invariant n >= 0 ==> |selected| <= n
      invariant n < 0 ==> selected == [] && k == 0
      invariant Queues(cats, order, byCat, round, k)
      invariant Holds(cats, round, order[..k], selected)
      decreases n - |selected|
    {
      var pickedAny;
      ghost var before := |selected|;
      selected, byCat, k, pickedAny := ServeRound(cats, n, order, byCat, selected, round);
      if k == |order| {
        assert order[..k] == order;
        if !pickedAny {
          AllSelected(cats, round, order, selected);
        }
        NextRound(cats, round, order, selected);
        round, k := round + 1, 0;
      }
      HoldsIsClosed(cats, round, order, k, selected);
      NotMoreThanAll(cats, selected);
      if !pickedAny { return; }
    }
    HoldsIsClosed(cats, round, order, k, selected);
    NotMoreThanAll(cats, selected);
  }

  /** One pass over the categories, cut short when enough items are selected. */
  method ServeRound(cats: Categories, n: int, order: seq<int>, queues: map<int, seq<int>>, chosen: seq<int>, ghost round: nat)
    returns (selected: seq<int>, byCat: map<int, seq<int>>, k: nat, pickedAny: bool)
    requires AllCategories(cats, order) && Queues(cats, order, queues, round, 0)
    requires Holds(cats, round, [], chosen) && |chosen| < n
    ensures k <= |order| && |chosen| <= |selected| <= n && (k == |order| || |selected| == n)
    ensures Queues(cats, order, byCat, round, k) && Holds(cats, round, order[..k], selected)
    ensures if pickedAny then |selected| > |chosen|
            else k == |order| && forall p :: 0 <= p < |order| ==> |AllOf(cats, order[p])| <= round
  {
    selected, byCat, k, pickedAny := chosen, queues, 0, false;
    while k < |order| && |selected| < n
      invariant k <= |order| && |chosen| <= |selected| <= n
      invariant Queues(cats, order, byCat, round, k) && Holds(cats, round, order[..k], selected)
      invariant if pickedAny then |selected| > |chosen|
                else selected == chosen && forall p :: 0 <= p < k ==> |AllOf(cats, order[p])| <= round
    {
      var c := order[k];
      assert order[..k + 1] == order[..k] + [c];
      if byCat[c] != [] {
        ServeOne(cats, round, order[..k], c, selected);
        selected := selected + [byCat[c][0]];
        byCat := byCat[c := byCat[c][1..]];
        pickedAny := true;
      } else {
        ServeNone(cats, round, order[..k], c, selected);
      }
      k := k + 1;
    }
  }

  // ── What the sample means ───────────────────────────────────────────────

  lemma {:induction false} IncreasingUnique(a: seq<int>, b: seq<int>)
    requires Increasing(a) && Increasing(b) && SameElements(a, b)
    ensures a == b
    decreases |a|
  {
    assert b != [] ==> b[0] in b;
    assert a != [] ==> a[0] in a;
    if a != [] {
      assert a[0] in b && b[0] in a;
      assert a[0] == b[0];
      assert a == [a[0]] + a[1..] && b == [b[0]] + b[1..];
      forall x ensures x in a[1..] <==> x in b[1..] {
        assert x in a[1..] ==> x in a && x != a[0];
        assert x in b[1..] ==> x in b && x != b[0];
      }
      IncreasingUnique(a[1..], b[1..]);
    }
  }

  /** The items and the size decide the sample. */
  lemma {:induction false} SampleUnique(cats: Categories, n: int, r: seq<int>, s: seq<int>)
    requires IsSample(cats, n, r) && IsSample(cats, n, s)
    ensures r == s
  {
    if forall x :: x in r ==> x in s {
      SubsetOfSameSize(r, s);
    } else if forall x :: x in s ==> x in r {
      SubsetOfSameSize(s, r);
    } else {
      var x :| x in r && x !in s;
      var y :| y in s && y !in r;
      RankFinds(cats, x);
      RankFinds(cats, y);
    }
    IncreasingUnique(r, s);
  }

  lemma {:induction false} SubsetOfSameSize(a: seq<int>, b: seq<int>)
    requires NoDup(a) && NoDup(b) && |a| == |b| && forall x :: x in a ==> x in b
    ensures SameElements(a, b)
  {
    SizeOf(a);
    SizeOf(b);
    var sa, sb := set x | x in a, set x | x in b;
    assert sb == sa + (sb - sa);
    assert sb - sa == {};
    forall x | x in b ensures x in a { assert x in sb; }
  }

  function CountIn(m: seq<int>, r: seq<int>): nat {
    if m == [] then 0 else CountIn(m[..|m| - 1], r) + (if m[|m| - 1] in r then 1 else 0)
  }

  /** How many items of a category the sample takes. */
  function Taken(cats: Categories, r: seq<int>, c: int): nat {
    CountIn(AllOf(cats, c), r)
  }

  lemma {:induction false} CountOfPrefix(m: seq<int>, r: seq<int>)
    requires forall j, k :: 0 <= j < k < |m| && m[k] in r ==> m[j] in r
    ensures CountIn(m, r) <= |m| && forall k :: 0 <= k < |m| ==> (m[k] in r <==> k < CountIn(m, r))
  {
    if m != [] { CountOfPrefix(m[..|m| - 1], r); }
  }

  /** The sample takes a prefix of each category. */
  lemma {:induction false} SampleTakesPrefixes(cats: Categories, n: int, r: seq<int>, c: int)
    requires IsSample(cats, n, r)
    ensures Taken(cats, r, c) <= |AllOf(cats, c)|
    ensures forall k :: 0 <= k < |AllOf(cats, c)| ==> (AllOf(cats, c)[k] in r <==> k < Taken(cats, r, c))
  {
    var m := AllOf(cats, c);
    forall j, k | 0 <= j < k < |m| && m[k] in r ensures m[j] in r {
      MemberHasRank(cats, c, |cats|, j);
      MemberHasRank(cats, c, |cats|, k);
      assert Earlier(cats, m[j], m[k]);
    }
    CountOfPrefix(m, r);
  }

  /** Category counts differ by at most one unless the smaller category is exhausted, and a
      lower-numbered category is never behind unless it is. */
  lemma {:induction false} SampleIsFair(cats: Categories, n: int, r: seq<int>, a: int, b: int)
    requires IsSample(cats, n, r)
    ensures Taken(cats, r, b) <= Taken(cats, r, a) + 1 || Taken(cats, r, a) == |AllOf(cats, a)|
    ensures a < b ==> Taken(cats, r, b) <= Taken(cats, r, a) || Taken(cats, r, a) == |AllOf(cats, a)|
  {
    SampleTakesPrefixes(cats, n, r, a);
    SampleTakesPrefixes(cats, n, r, b);
    var ta, tb := Taken(cats, r, a), Taken(cats, r, b);
    if ta < |AllOf(cats, a)| && tb > 0 {
      var i, j := AllOf(cats, b)[tb - 1], AllOf(cats, a)[ta];
      MemberHasRank(cats, a, |cats|, ta);
      MemberHasRank(cats, b, |cats|, tb - 1);
      assert i in r && j !in r;
      assert !Earlier(cats, j, i);
    }
  }

  // ── Trimming the conversation ───────────────────────────────────────────

  /** The sessions cut down to the first `limit` messages. */
  method TrimSessions<M>(sessions: seq<seq<M>>, limit: nat) returns (trimmed: seq<seq<M>>)
    ensures Concat(trimmed) == Concat(sessions)[..Min(limit, |Concat(sessions)|)]
    ensures |trimmed| <= |sessions|
    ensures forall k :: 0 <= k < |trimmed| ==> trimmed[k] <= sessions[k]
    ensures forall k :: 0 <= k < |trimmed| - 1 ==> trimmed[k] == sessions[k]
    ensures |Concat(trimmed)| < limit ==> trimmed == sessions
  {
    trimmed := [];
    var count, i := 0, 0;
    while i < |sessions| && count < limit
      invariant i <= |sessions| && count == |Concat(trimmed)| <= limit
      invariant |trimmed| == i
      invariant if count < limit then trimmed == sessions[..i]
                else i > 0 ==> trimmed[..i - 1] == sessions[..i - 1] && trimmed[i - 1] <= sessions[i - 1]
      invariant Concat(trimmed) == Concat(sessions[..i])[..Min(count, |Concat(sessions[..i])|)]
      invariant count <= |Concat(sessions[..i])|
    {
      var remaining := limit - count;
      ghost var before := sessions[..i];
      assert sessions[..i + 1] == before + [sessions[i]];
      ConcatSnoc(before, sessions[i]);
      if |sessions[i]| <= remaining {
        ConcatSnoc(trimmed, sessions[i]);
        trimmed := trimmed + [sessions[i]];
        count := count + |sessions[i]|;
      } else {
        ConcatSnoc(trimmed, sessions[i][..remaining]);
        trimmed := trimmed + [sessions[i][..remaining]];
        count := count + remaining;
      }
      i := i + 1;
    }
    ConcatSplit(sessions, i);
    if count < limit { assert sessions[..i] == sessions; }
  }

  lemma {:induction false} ConcatSplit<T>(ss: seq<seq<T>>, i: nat)
    requires i <= |ss|
    ensures Concat(ss) == Concat(ss[..i]) + Concat(ss[i..])
  {
    if i == 0 {
      assert ss[0..] == ss;
    } else {
      ConcatSplit(ss[1..], i - 1);
      assert ss[..i][1..] == ss[1..][..i - 1] && ss[i..] == ss[1..][i - 1..];
    }
  }
}
