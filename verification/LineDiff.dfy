/** diff_compute of src/ui/inspector_widget.c: a longest-common-subsequence table, a walk back
    through it, and the proof that the script it leaves is correct and shortest. */
module LineDiff {
  import opened Text

  const MAX_LINES := 256

  /** A rendered line as the diff compares it. */
  datatype Row = Row(depth: int, text: string)

  datatype State = Unchanged | Added | Removed

  datatype Entry = Entry(curr: int, prev: int, state: State)

  // ----- common subsequences

  /** Matches between p and c, strictly increasing in both. */
  predicate IsCommon(p: seq<Row>, c: seq<Row>, ms: seq<(nat, nat)>) {
    && (forall k :: 0 <= k < |ms| ==> ms[k].0 < |p| && ms[k].1 < |c| && p[ms[k].0] == c[ms[k].1])
    && forall j, k :: 0 <= j < k < |ms| ==> ms[j].0 < ms[k].0 && ms[j].1 < ms[k].1
  }

  /** The recurrence the table is filled with, on the first i and j lines. */
  function Lcs(p: seq<Row>, c: seq<Row>, i: nat, j: nat): nat
    requires i <= |p| && j <= |c|
  {
    if i == 0 || j == 0 then 0
    else if p[i - 1] == c[j - 1] then Lcs(p, c, i - 1, j - 1) + 1
    else Max(Lcs(p, c, i - 1, j), Lcs(p, c, i, j - 1))
  }

  /** No common subsequence is longer. */
  lemma {:induction false} LcsIsUpperBound(p: seq<Row>, c: seq<Row>, i: nat, j: nat, ms: seq<(nat, nat)>)
    requires i <= |p| && j <= |c| && IsCommon(p, c, ms)
    requires ms != [] ==> ms[|ms| - 1].0 < i && ms[|ms| - 1].1 < j
    ensures |ms| <= Lcs(p, c, i, j)
    decreases i + j
  {
    if ms != [] {
      var last, init := ms[|ms| - 1], ms[..|ms| - 1];
      if p[i - 1] == c[j - 1] {
        LcsIsUpperBound(p, c, i - 1, j - 1, init);
      } else if last.0 < i - 1 {
        LcsIsUpperBound(p, c, i - 1, j, ms);
      } else {
        LcsIsUpperBound(p, c, i, j - 1, ms);
      }
    }
  }

  // ----- the script

  /** The walk back from corner (i, j) of the table, in reading order. */
  function Script(p: seq<Row>, c: seq<Row>, i: nat, j: nat): (r: seq<Entry>)
    requires i <= |p| && j <= |c|
    decreases i + j
  {
    if i == 0 && j == 0 then []
    else if i > 0 && j > 0 && p[i - 1] == c[j - 1] then
      Script(p, c, i - 1, j - 1) + [Entry(j - 1, i - 1, Unchanged)]
    else if j > 0 && (i == 0 || Lcs(p, c, i, j - 1) >= Lcs(p, c, i - 1, j)) then
      Script(p, c, i, j - 1) + [Entry(j - 1, -1, Added)]
    else
      Script(p, c, i - 1, j) + [Entry(-1, i - 1, Removed)]
  }

  /** The current lines a script mentions, in order. */
  function CurrLines(s: seq<Entry>): seq<int> {
    if s == [] then [] else CurrLines(s[..|s| - 1]) + if s[|s| - 1].state == Removed then [] else [s[|s| - 1].curr]
  }

  function PrevLines(s: seq<Entry>): seq<int> {
    if s == [] then [] else PrevLines(s[..|s| - 1]) + if s[|s| - 1].state == Added then [] else [s[|s| - 1].prev]
  }

  /** The pairs a script keeps. */
  function Kept(s: seq<Entry>): seq<Entry> {
    if s == [] then [] else Kept(s[..|s| - 1]) + if s[|s| - 1].state == Unchanged then [s[|s| - 1]] else []
  }

  function UpTo(n: nat): (r: seq<int>)
    ensures |r| == n && forall k :: 0 <= k < n ==> r[k] == k
  {
    if n == 0 then [] else UpTo(n - 1) + [n - 1]
  }

  /** A script that accounts for the first i previous and j current lines, each once and in
      order, and keeps a line only where the two are equal. */
  predicate IsScript(p: seq<Row>, c: seq<Row>, i: nat, j: nat, s: seq<Entry>) {
    && CurrLines(s) == UpTo(j)
    && PrevLines(s) == UpTo(i)
    && forall k :: 0 <= k < |s| && s[k].state == Unchanged ==>
         0 <= s[k].prev < |p| && 0 <= s[k].curr < |c| && p[s[k].prev] == c[s[k].curr]
  }

  lemma ScriptSnoc(s: seq<Entry>, e: Entry)
    ensures CurrLines(s + [e]) == CurrLines(s) + if e.state == Removed then [] else [e.curr]
    ensures PrevLines(s + [e]) == PrevLines(s) + if e.state == Added then [] else [e.prev]
    ensures Kept(s + [e]) == Kept(s) + if e.state == Unchanged then [e] else []
  {
    assert (s + [e])[..|s|] == s;
  }

  lemma {:induction false} ScriptIsCorrect(p: seq<Row>, c: seq<Row>, i: nat, j: nat)
    requires i <= |p| && j <= |c|
    ensures IsScript(p, c, i, j, Script(p, c, i, j))
    ensures |Kept(Script(p, c, i, j))| == Lcs(p, c, i, j)
    ensures |Script(p, c, i, j)| + |Kept(Script(p, c, i, j))| == i + j
    decreases i + j
  {
    hide IsScript, Kept, Script, Lcs;
    if i == 0 && j == 0 {
      EmptyScriptIsCorrect(p, c);
      return;
    }
    ScriptStep(p, c, i, j);
    LcsStep(p, c, i, j);
    if i > 0 && j > 0 && p[i - 1] == c[j - 1] {
      ScriptIsCorrect(p, c, i - 1, j - 1);
      ScriptExtends(p, c, i, j, Script(p, c, i - 1, j - 1), Entry(j - 1, i - 1, Unchanged));
    } else if j > 0 && (i == 0 || Lcs(p, c, i, j - 1) >= Lcs(p, c, i - 1, j)) {
      ScriptIsCorrect(p, c, i, j - 1);
      LcsStep(p, c, i, j - 1);
      ScriptExtends(p, c, i, j, Script(p, c, i, j - 1), Entry(j - 1, -1, Added));
    } else {
      ScriptIsCorrect(p, c, i - 1, j);
      LcsStep(p, c, i - 1, j);
      ScriptExtends(p, c, i, j, Script(p, c, i - 1, j), Entry(-1, i - 1, Removed));
    }
  }

  lemma EmptyScriptIsCorrect(p: seq<Row>, c: seq<Row>)
    ensures Script(p, c, 0, 0) == [] && IsScript(p, c, 0, 0, []) && Kept([]) == [] && Lcs(p, c, 0, 0) == 0
  {
  }

  /** One more entry makes a script for the lines it mentions. */
  lemma ScriptExtends(p: seq<Row>, c: seq<Row>, i: nat, j: nat, s: seq<Entry>, e: Entry)
    requires match e.state
      case Unchanged => i > 0 && j > 0 && i <= |p| && j <= |c| && p[i - 1] == c[j - 1]
        && e == Entry(j - 1, i - 1, Unchanged) && IsScript(p, c, i - 1, j - 1, s)
      case Added => j > 0 && e == Entry(j - 1, -1, Added) && IsScript(p, c, i, j - 1, s)
      case Removed => i > 0 && e == Entry(-1, i - 1, Removed) && IsScript(p, c, i - 1, j, s)
    ensures IsScript(p, c, i, j, s + [e])
    ensures |Kept(s + [e])| == |Kept(s)| + if e.state == Unchanged then 1 else 0
  {
    hide CurrLines, PrevLines, Kept;
    ScriptSnoc(s, e);
  }

  lemma EmptyScript()
    ensures CurrLines([]) == [] && PrevLines([]) == [] && Kept([]) == []
  {
  }

  lemma UpToSplit(a: seq<int>, x: seq<int>, n: nat)
    requires a + x == UpTo(n)
    ensures |x| == 1 ==> n > 0 && x[0] == n - 1 && a == UpTo(n - 1)
    ensures x == [] ==> a == UpTo(n)
  {
    if |x| == 1 {
      assert (a + x)[|a|] == x[0] && (a + x)[..|a|] == a;
      assert UpTo(n)[..n - 1] == UpTo(n - 1) by { UpToLast(n); UpToLast(n - 1); }
      UpToLast(n);
    } else if x == [] {
      assert a + x == a;
    }
  }

  lemma {:induction false} UpToLast(n: nat)
    ensures |UpTo(n)| == n && (n > 0 ==> UpTo(n)[n - 1] == n - 1)
  {
    if n > 0 { UpToLast(n - 1); }
  }

  /** A script without its last entry is a script for the lines without the one it mentions. */
  lemma ScriptInit(p: seq<Row>, c: seq<Row>, i: nat, j: nat, s: seq<Entry>)
    requires s != [] && IsScript(p, c, i, j, s)
    ensures var init, e := s[..|s| - 1], s[|s| - 1];
      && Kept(s) == Kept(init) + (if e.state == Unchanged then [e] else [])
      && (e.state == Unchanged ==> i > 0 && j > 0 && e.prev == i - 1 && e.curr == j - 1 && IsScript(p, c, i - 1, j - 1, init))
      && (e.state == Added ==> j > 0 && IsScript(p, c, i, j - 1, init))
      && (e.state == Removed ==> i > 0 && IsScript(p, c, i - 1, j, init))
  {
    hide UpTo, CurrLines, PrevLines, Kept;
    var init, e := s[..|s| - 1], s[|s| - 1];
    assert s == init + [e];
    ScriptSnoc(init, e);
    UpToSplit(CurrLines(init), if e.state == Removed then [] else [e.curr], j);
    UpToSplit(PrevLines(init), if e.state == Added then [] else [e.prev], i);
  }

  /** Any script's kept pairs are a common subsequence, so none keeps more. */
  lemma {:induction false} KeptIsCommon(p: seq<Row>, c: seq<Row>, i: nat, j: nat, s: seq<Entry>) returns (ms: seq<(nat, nat)>)
    requires i <= |p| && j <= |c| && IsScript(p, c, i, j, s)
    ensures IsCommon(p, c, ms) && |ms| == |Kept(s)|
    ensures ms != [] ==> ms[|ms| - 1].0 < i && ms[|ms| - 1].1 < j
    decreases |s|
  {
    hide IsScript, Kept;
    if s == [] {
      EmptyScript();
      return [];
    }
    var init, e := s[..|s| - 1], s[|s| - 1];
    ScriptInit(p, c, i, j, s);
    match e.state {
      case Unchanged =>
        ms := KeptIsCommon(p, c, i - 1, j - 1, init);
        KeptEqual(p, c, i, j, s);
        ms := ms + [(e.prev, e.curr)];
      case Added => ms := KeptIsCommon(p, c, i, j - 1, init);
      case Removed => ms := KeptIsCommon(p, c, i - 1, j, init);
    }
  }

  lemma KeptEqual(p: seq<Row>, c: seq<Row>, i: nat, j: nat, s: seq<Entry>)
    requires s != [] && IsScript(p, c, i, j, s) && s[|s| - 1].state == Unchanged
    ensures var e := s[|s| - 1]; 0 <= e.prev < |p| && 0 <= e.curr < |c| && p[e.prev] == c[e.curr]
  {
  }

  /** Among all correct scripts for the same lines, none keeps more lines. */
  lemma ScriptIsOptimal(p: seq<Row>, c: seq<Row>, s: seq<Entry>)
    requires IsScript(p, c, |p|, |c|, s)
    ensures |Kept(s)| <= |Kept(Script(p, c, |p|, |c|))|
  {
    ScriptIsCorrect(p, c, |p|, |c|);
    var ms := KeptIsCommon(p, c, |p|, |c|, s);
    LcsIsUpperBound(p, c, |p|, |c|, ms);
  }

  // ----- the code

  function Cut(s: seq<Row>): (r: seq<Row>) { if |s| > MAX_LINES then s[..MAX_LINES] else s }

  function Reversed(s: seq<Entry>): seq<Entry> {
    if s == [] then [] else Reversed(s[1..]) + [s[0]]
  }

  /** The static buffers of diff_compute. */
  class DiffTables {
    const dp: array2<int>
    const tmp: array<Entry>
    const merged: array<Entry>
    var mergedCount: nat

    ghost predicate Valid()
      reads this
    {
      && dp.Length0 == dp.Length1 == MAX_LINES + 1
      && tmp.Length == merged.Length == 2 * MAX_LINES
      && tmp != merged
      && mergedCount <= merged.Length
    }

    constructor ()
      ensures Valid() && fresh(dp) && fresh(tmp) && fresh(merged)
    {
      dp := new int[MAX_LINES + 1, MAX_LINES + 1]((_, _) => 0);
      tmp := new Entry[2 * MAX_LINES](_ => Entry(-1, -1, Added));
      merged := new Entry[2 * MAX_LINES](_ => Entry(-1, -1, Added));
      mergedCount := 0;
    }

    ghost predicate Filled(p: seq<Row>, c: seq<Row>, rows: nat)
      requires Valid() && |p| <= MAX_LINES && |c| <= MAX_LINES && rows <= |p| + 1
      reads this, dp
    {
      forall a, b :: 0 <= a < rows && 0 <= b <= |c| ==> dp[a, b] == Lcs(p, c, a, b)
    }

    /** The table. */
    method Fill(p: seq<Row>, c: seq<Row>)
      requires Valid() && |p| <= MAX_LINES && |c| <= MAX_LINES
      modifies dp
      ensures Filled(p, c, |p| + 1)
    {
      for i := 0 to |p| + 1
        invariant forall a :: 0 <= a < i ==> dp[a, 0] == 0
      {
        dp[i, 0] := 0;
      }
      for j := 0 to |c| + 1
        invariant forall a :: 0 <= a <= |p| ==> dp[a, 0] == 0
        invariant forall b :: 0 <= b < j ==> dp[0, b] == 0
      {
        dp[0, j] := 0;
      }
      for i := 1 to |p| + 1
        invariant forall a :: 0 <= a <= |p| ==> dp[a, 0] == 0
        invariant Filled(p, c, i)
      {
        FillRow(p, c, i);
      }
    }

    method FillRow(p: seq<Row>, c: seq<Row>, i: nat)
      requires Valid() && 1 <= i <= |p| <= MAX_LINES && |c| <= MAX_LINES
      requires Filled(p, c, i) && forall a :: 0 <= a <= |p| ==> dp[a, 0] == 0
      modifies dp
      ensures Filled(p, c, i + 1) && forall a :: 0 <= a <= |p| ==> dp[a, 0] == 0
    {
      hide Lcs;
      LcsStep(p, c, i, 0);
      for j := 1 to |c| + 1
        invariant forall a :: 0 <= a <= |p| ==> dp[a, 0] == 0
        invariant Filled(p, c, i)
        invariant forall b :: 0 <= b < j ==> dp[i, b] == Lcs(p, c, i, b)
      {
        LcsStep(p, c, i, j);
        assert dp[i - 1, j - 1] == Lcs(p, c, i - 1, j - 1) && dp[i - 1, j] == Lcs(p, c, i - 1, j);
        if p[i - 1] == c[j - 1] {
          dp[i, j] := dp[i - 1, j - 1] + 1;
        } else {
          var a, b := dp[i - 1, j], dp[i, j - 1];
          dp[i, j] := if a > b then a else b;
        }
      }
    }

    /** The walk back, last entry first. */
    method Backtrack(p: seq<Row>, c: seq<Row>) returns (tc: nat)
      requires Valid() && |p| <= MAX_LINES && |c| <= MAX_LINES && Filled(p, c, |p| + 1)
      modifies tmp
      ensures tc <= |p| + |c| && Reversed(tmp[..tc]) == Script(p, c, |p|, |c|)
    {
      hide Lcs, Script, Reversed;
      var i: nat, j: nat := |p|, |c|;
      tc := 0;
      ghost var script := Script(p, c, |p|, |c|);
      NothingDone(script);
      while i > 0 || j > 0
        invariant i <= |p| && j <= |c| && tc + i + j <= |p| + |c|
        invariant script == Script(p, c, i, j) + Reversed(tmp[..tc])
        invariant Filled(p, c, |p| + 1)
        decreases i + j
      {
        ghost var done := tmp[..tc];
        ghost var before := Script(p, c, i, j);
        ScriptStep(p, c, i, j);
        if i > 0 && j > 0 && p[i - 1] == c[j - 1] {
          tmp[tc] := Entry(j - 1, i - 1, Unchanged);
          i, j := i - 1, j - 1;
        } else if j > 0 && (i == 0 || dp[i, j - 1] >= dp[i - 1, j]) {
          tmp[tc] := Entry(j - 1, -1, Added);
          j := j - 1;
        } else {
          tmp[tc] := Entry(-1, i - 1, Removed);
          i := i - 1;
        }
        assert tmp[..tc + 1] == done + [tmp[tc]];
        MoveOver(Script(p, c, i, j), tmp[tc], done);
        assert before == Script(p, c, i, j) + [tmp[tc]];
        tc := tc + 1;
      }
      NoLines(p, c, Reversed(tmp[..tc]));
    }

    /** diff_compute. */
    method DiffCompute(prev: seq<Row>, curr: seq<Row>)
      requires Valid()
      modifies this, dp, tmp, merged
      ensures Valid()
      ensures IsBestDiff(prev, curr, merged[..mergedCount])
    {
      hide Lcs, Script, Reversed, IsBestDiff;
      var p, c := Cut(prev), Cut(curr);
      Fill(p, c);
      var tc := Backtrack(p, c);
      mergedCount := tc;
      CopyReversed(tc);
      DiffIsCorrectAndOptimal(prev, curr);
    }

    method CopyReversed(tc: nat)
      requires Valid() && tc <= merged.Length
      modifies merged
      ensures merged[..tc] == Reversed(tmp[..tc])
    {
      for k := 0 to tc
        invariant forall a :: 0 <= a < k ==> merged[a] == tmp[tc - 1 - a]
      {
        merged[k] := tmp[tc - 1 - k];
      }
      ReversedAt(tmp[..tc]);
      assert merged[..tc] == Reversed(tmp[..tc]);
    }
  }

  lemma LcsStep(p: seq<Row>, c: seq<Row>, i: nat, j: nat)
    requires i <= |p| && j <= |c|
    ensures i == 0 || j == 0 ==> Lcs(p, c, i, j) == 0
    ensures i > 0 && j > 0 && p[i - 1] == c[j - 1] ==> Lcs(p, c, i, j) == Lcs(p, c, i - 1, j - 1) + 1
    ensures i > 0 && j > 0 && p[i - 1] != c[j - 1] ==> Lcs(p, c, i, j) == Max(Lcs(p, c, i - 1, j), Lcs(p, c, i, j - 1))
  {
  }

  lemma ScriptStep(p: seq<Row>, c: seq<Row>, i: nat, j: nat)
    requires i <= |p| && j <= |c| && (i > 0 || j > 0)
    ensures Script(p, c, i, j) ==
      if i > 0 && j > 0 && p[i - 1] == c[j - 1] then
        Script(p, c, i - 1, j - 1) + [Entry(j - 1, i - 1, Unchanged)]
      else if j > 0 && (i == 0 || Lcs(p, c, i, j - 1) >= Lcs(p, c, i - 1, j)) then
        Script(p, c, i, j - 1) + [Entry(j - 1, -1, Added)]
      else
        Script(p, c, i - 1, j) + [Entry(-1, i - 1, Removed)]
  {
  }

  lemma NothingDone(s: seq<Entry>)
    ensures s == s + Reversed([])
  {
  }

  lemma NoLines(p: seq<Row>, c: seq<Row>, s: seq<Entry>)
    ensures Script(p, c, 0, 0) + s == s
  {
  }

  lemma MoveOver(a: seq<Entry>, e: Entry, done: seq<Entry>)
    ensures (a + [e]) + Reversed(done) == a + Reversed(done + [e])
  {
    hide Reversed;
    ReversedSnoc(done, e);
  }

  /** How many lines of a text are compared: all of them, or the first 256. */
  function Compared(s: seq<Row>): nat { if |s| < 256 then |s| else 256 }

  /** Matches between the compared lines of two texts. */
  predicate IsCommonAmong(prev: seq<Row>, curr: seq<Row>, ms: seq<(nat, nat)>) {
    IsCommon(prev, curr, ms) && forall k :: 0 <= k < |ms| ==> ms[k].0 < Compared(prev) && ms[k].1 < Compared(curr)
  }

  /** The script names each compared line of both texts once and in order, keeps a line only where
      the two are equal, marks the side that is missing, and fits its array. */
  predicate IsDiff(prev: seq<Row>, curr: seq<Row>, s: seq<Entry>) {
    && CurrLines(s) == UpTo(Compared(curr)) && PrevLines(s) == UpTo(Compared(prev)) && |s| <= 512
    && forall k :: 0 <= k < |s| ==> EntryHolds(prev, curr, s[k])
  }

  predicate EntryHolds(prev: seq<Row>, curr: seq<Row>, e: Entry) {
    match e.state
    case Unchanged => 0 <= e.prev < |prev| && 0 <= e.curr < |curr| && prev[e.prev] == curr[e.curr]
    case Added => e.prev == -1
    case Removed => e.curr == -1
  }

  /** And no common subsequence of the compared lines is longer than what it keeps, so that no
      other such script keeps more. */
  ghost predicate IsBestDiff(prev: seq<Row>, curr: seq<Row>, s: seq<Entry>) {
    && IsDiff(prev, curr, s)
    && (forall ms :: IsCommonAmong(prev, curr, ms) ==> |ms| <= |Kept(s)|)
    && (exists ms :: IsCommonAmong(prev, curr, ms) && |ms| == |Kept(s)|)
    && (forall s' :: IsDiff(prev, curr, s') ==> |Kept(s')| <= |Kept(s)|)
  }

  lemma CutIsCompared(s: seq<Row>)
    ensures Cut(s) == s[..Compared(s)]
  {
  }

  lemma CommonInCut(prev: seq<Row>, curr: seq<Row>, ms: seq<(nat, nat)>)
    ensures IsCommon(Cut(prev), Cut(curr), ms) <==> IsCommonAmong(prev, curr, ms)
  {
    CutIsCompared(prev);
    CutIsCompared(curr);
  }

  /** The script of the cut texts is a diff of the texts, and the other way round. */
  lemma DiffOfCut(prev: seq<Row>, curr: seq<Row>, s: seq<Entry>)
    ensures IsDiff(prev, curr, s) ==> IsScript(Cut(prev), Cut(curr), |Cut(prev)|, |Cut(curr)|, s)
    ensures IsScript(Cut(prev), Cut(curr), |Cut(prev)|, |Cut(curr)|, s) && |s| <= 512 && Sided(s) ==> IsDiff(prev, curr, s)
  {
    CutIsCompared(prev);
    CutIsCompared(curr);
    if IsDiff(prev, curr, s) { KeptAreCompared(prev, curr, s); }
  }

  /** Entries of one side only say so. */
  predicate Sided(s: seq<Entry>) {
    forall k :: 0 <= k < |s| ==> (s[k].state == Added ==> s[k].prev == -1) && (s[k].state == Removed ==> s[k].curr == -1)
  }

  lemma {:induction false} ScriptIsSided(p: seq<Row>, c: seq<Row>, i: nat, j: nat)
    requires i <= |p| && j <= |c|
    ensures Sided(Script(p, c, i, j))
    decreases i + j
  {
    hide Lcs;
    if i > 0 && j > 0 { ScriptIsSided(p, c, i - 1, j - 1); }
    if i > 0 { ScriptIsSided(p, c, i - 1, j); }
    if j > 0 { ScriptIsSided(p, c, i, j - 1); }
  }

  /** A kept line is one of those listed. */
  lemma {:induction false} Listed(s: seq<Entry>, k: nat)
    requires k < |s| && s[k].state == Unchanged
    ensures s[k].curr in CurrLines(s) && s[k].prev in PrevLines(s)
  {
    if k < |s| - 1 { Listed(s[..|s| - 1], k); }
  }

  lemma KeptAreCompared(prev: seq<Row>, curr: seq<Row>, s: seq<Entry>)
    requires IsDiff(prev, curr, s)
    ensures forall k :: 0 <= k < |s| && s[k].state == Unchanged ==> s[k].prev < Compared(prev) && s[k].curr < Compared(curr)
  {
    forall k | 0 <= k < |s| && s[k].state == Unchanged
      ensures s[k].prev < Compared(prev) && s[k].curr < Compared(curr)
    {
      Listed(s, k);
    }
  }

  /** What diff_compute leaves is the best diff of the two texts. */
  lemma DiffIsCorrectAndOptimal(prev: seq<Row>, curr: seq<Row>)
    ensures IsBestDiff(prev, curr, Script(Cut(prev), Cut(curr), |Cut(prev)|, |Cut(curr)|))
  {
    hide Script, IsScript, IsCommon, Kept, Lcs, IsDiff, IsCommonAmong, Cut;
    var p, c := Cut(prev), Cut(curr);
    var s := Script(p, c, |p|, |c|);
    ScriptIsCorrect(p, c, |p|, |c|);
    ScriptIsSided(p, c, |p|, |c|);
    CutIsCompared(prev);
    CutIsCompared(curr);
    DiffOfCut(prev, curr, s);
    var kept := KeptIsCommon(p, c, |p|, |c|, s);
    CommonInCut(prev, curr, kept);
    forall ms | IsCommonAmong(prev, curr, ms)
      ensures |ms| <= |Kept(s)|
    {
      CommonInCut(prev, curr, ms);
      CommonBound(p, c, ms);
    }
    forall s' | IsDiff(prev, curr, s')
      ensures |Kept(s')| <= |Kept(s)|
    {
      DiffOfCut(prev, curr, s');
      ScriptIsOptimal(p, c, s');
    }
  }

  lemma CommonBound(p: seq<Row>, c: seq<Row>, ms: seq<(nat, nat)>)
    requires IsCommon(p, c, ms)
    ensures |ms| <= Lcs(p, c, |p|, |c|)
  {
    LcsIsUpperBound(p, c, |p|, |c|, ms);
  }

  lemma {:induction false} ReversedSnoc(s: seq<Entry>, e: Entry)
    ensures Reversed(s + [e]) == [e] + Reversed(s)
  {
    if s != [] {
      assert (s + [e])[1..] == s[1..] + [e];
      ReversedSnoc(s[1..], e);
    }
  }

  lemma {:induction false} ReversedAt(s: seq<Entry>)
    ensures |Reversed(s)| == |s| && forall k :: 0 <= k < |s| ==> Reversed(s)[k] == s[|s| - 1 - k]
  {
    if s != [] { ReversedAt(s[1..]); }
  }
}
