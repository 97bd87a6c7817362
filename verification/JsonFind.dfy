/** json_pp_find on the lines of a JSON tree: a dot path leads to the line that opens the value
    it names, never to a closing bracket and never into another value. */
module JsonFind {
  import opened Text
  import opened LineModel
  import opened JsonScan
  import opened JsonRender

  /** Line `i` is the first with dot path `p`. */
  predicate IsFirst(ls: seq<Line>, p: string, i: nat) {
    i < |ls| && ls[i].path == p && forall j :: 0 <= j < i ==> ls[j].path != p
  }

  /** json_pp_find. */
  method Find(ls: seq<Line>, dotPath: string) returns (r: Option<nat>)
    ensures r.Some? ==> IsFirst(ls, dotPath, r.value)
    ensures r.None? ==> forall j :: 0 <= j < |ls| ==> ls[j].path != dotPath
  {
    var i := 0;
    while i < |ls|
      invariant i <= |ls| && forall j :: 0 <= j < i ==> ls[j].path != dotPath
    {
      if ls[i].path == dotPath { return Some(i); }
      i := i + 1;
    }
    r := None;
  }

  // ----- trees whose paths are unambiguous

  predicate SegmentOk(seg: string) { seg != "" && '.' !in seg }

  function Join(path: string, seg: string): string {
    path + (if path == "" then "" else ".") + seg
  }

  /** Keys are non-empty, dot-free and distinct within each object, and every path fits its buffer. */
  predicate Unambiguous(v: Json, path: string)
    decreases v
  {
    v.Bracket? ==>
      && (forall k :: 0 <= k < |v.items| ==> ItemUnambiguous(v.isObj, v.items[k], k, path))
      && (v.isObj ==> forall j, k :: 0 <= j < k < |v.items| ==> KeyShown(v.items[j].raw) != KeyShown(v.items[k].raw))
  }

  predicate ItemUnambiguous(isObj: bool, e: Item, i: nat, path: string)
    decreases e
  {
    var seg := Segment(isObj, e, i);
    SegmentOk(seg) && |Join(path, seg)| < PATH_LEN && Unambiguous(e.value, Join(path, seg))
  }

  /** The value reached by taking item number steps[0], then steps[1], and so on. */
  predicate HasStep(v: Json, steps: seq<nat>)
    decreases |steps|
  {
    steps == [] || (v.Bracket? && steps[0] < |v.items| && HasStep(v.items[steps[0]].value, steps[1..]))
  }

  function At(v: Json, steps: seq<nat>): Json
    requires HasStep(v, steps)
    decreases |steps|
  {
    if steps == [] then v else At(v.items[steps[0]].value, steps[1..])
  }

  function PathOf(v: Json, steps: seq<nat>, path: string): string
    requires HasStep(v, steps)
    decreases |steps|
  {
    if steps == [] then path
    else
      var e := v.items[steps[0]];
      PathOf(e.value, steps[1..], Join(path, Segment(v.isObj, e, steps[0])))
  }

  /** The key shown with the value reached. */
  function KeyOf(v: Json, steps: seq<nat>, key: string): string
    requires HasStep(v, steps)
    decreases |steps|
  {
    if steps == [] then key
    else
      var e := v.items[steps[0]];
      KeyOf(e.value, steps[1..], if v.isObj then KeyShown(e.raw) else "")
  }

  // ----- paths below a path

  predicate Under(q: string, x: string) {
    q == "" || x == q || (|x| > |q| && x[..|q|] == q && x[|q|] == '.')
  }

  lemma UnderJoin(q: string, seg: string, x: string)
    requires SegmentOk(seg) && Under(Join(q, seg), x)
    ensures Under(q, x) && |x| > |q|
  {
    var j := Join(q, seg);
    if q != "" {
      assert j[..|q|] == q && j[|q|] == '.';
      assert x[..|j|] == j;
      assert x[..|q|] == x[..|j|][..|q|];
    }
  }

  /** The segment a path continues with. */
  function NextSegment(s: string): string {
    if s == "" || s[0] == '.' then "" else [s[0]] + NextSegment(s[1..])
  }

  lemma {:induction false} NextSegmentIs(a: string, rest: string)
    requires '.' !in a && (rest == "" || rest[0] == '.')
    ensures NextSegment(a + rest) == a
  {
    if a == "" {
      assert a + rest == rest;
    } else {
      assert (a + rest)[1..] == a[1..] + rest;
      NextSegmentIs(a[1..], rest);
    }
  }

  /** No path is below two different segments of the same path. */
  lemma SegmentOf(q: string, a: string, x: string)
    requires SegmentOk(a) && Under(Join(q, a), x)
    ensures |x| >= |Join(q, "")| && NextSegment(x[|Join(q, "")|..]) == a
  {
    var start := Join(q, "");
    var j := start + a;
    assert j == Join(q, a);
    var rest := x[|j|..];
    assert x == j + rest;
    assert x[|start|..] == a + rest;
    NextSegmentIs(a, rest);
  }

  ghost predicate AllUnder(ls: seq<Line>, q: string) {
    forall i :: 0 <= i < |ls| ==> Under(q, ls[i].path)
  }

  lemma AllUnderConcat(a: seq<Line>, b: seq<Line>, q: string)
    requires AllUnder(a, q) && AllUnder(b, q)
    ensures AllUnder(a + b, q)
  {
    hide Under;
  }

  lemma AllUnderMark(ls: seq<Line>, q: string)
    requires AllUnder(ls, q)
    ensures AllUnder(MarkLast(ls), q)
  {
    hide Under;
  }

  lemma {:induction false} LinesUnder(lc: Libc, v: Json, key: string, depth: nat, path: string)
    requires Unambiguous(v, path) && |path| < PATH_LEN
    ensures AllUnder(Lines(lc, v, key, depth, path), path)
    decreases v, 1
  {
    hide AtomNumeric, QuotedNumeric, Copied, ItemsLines, ItemUnambiguous;
    if v.Bracket? {
      ItemsUnder(lc, v.isObj, v.items, 0, depth + 1, path);
      AllUnderConcat([BracketLine(Opening(v.isObj), key, depth, path)], ItemsLines(lc, v.isObj, v.items, 0, depth + 1, path), path);
      AllUnderConcat([BracketLine(Opening(v.isObj), key, depth, path)] + ItemsLines(lc, v.isObj, v.items, 0, depth + 1, path),
                     [BracketLine(Closing(v.isObj), "", depth, path)], path);
    }
  }

  lemma {:induction false} ItemsUnder(lc: Libc, isObj: bool, items: seq<Item>, i: nat, depth: nat, path: string)
    requires |path| < PATH_LEN
    requires forall k :: 0 <= k < |items| ==> ItemUnambiguous(isObj, items[k], i + k, path)
    ensures AllUnder(ItemsLines(lc, isObj, items, i, depth, path), path)
    decreases items, 0
  {
    hide ItemLines, ItemUnambiguous, MarkLast, Under;
    if items != [] {
      ItemUnder(lc, isObj, items[0], i, depth, path);
      var first := ItemLines(lc, isObj, items[0], i, depth, path);
      UnderParent(first, path, isObj, items[0], i);
      AllUnderMark(first, path);
      TailUnambiguous(isObj, items, i, path);
      ItemsUnder(lc, isObj, items[1..], i + 1, depth, path);
      AllUnderConcat(if |items| > 1 then MarkLast(first) else first, ItemsLines(lc, isObj, items[1..], i + 1, depth, path), path);
    }
  }

  lemma UnderParent(ls: seq<Line>, path: string, isObj: bool, e: Item, i: nat)
    requires ItemUnambiguous(isObj, e, i, path) && AllUnder(ls, Join(path, Segment(isObj, e, i)))
    ensures AllUnder(ls, path)
  {
    var seg := Segment(isObj, e, i);
    forall k | 0 <= k < |ls|
      ensures Under(path, ls[k].path)
    {
      UnderJoin(path, seg, ls[k].path);
    }
  }

  lemma {:induction false} ItemUnder(lc: Libc, isObj: bool, e: Item, i: nat, depth: nat, path: string)
    requires |path| < PATH_LEN && ItemUnambiguous(isObj, e, i, path)
    ensures AllUnder(ItemLines(lc, isObj, e, i, depth, path), Join(path, Segment(isObj, e, i)))
    decreases e, 2
  {
    hide Lines;
    LinesUnder(lc, e.value, if isObj then KeyShown(e.raw) else "", depth, Join(path, Segment(isObj, e, i)));
  }

  lemma {:induction false} PathOfUnder(v: Json, steps: seq<nat>, path: string)
    requires HasStep(v, steps) && Unambiguous(v, path)
    ensures Under(path, PathOf(v, steps, path))
    ensures steps != [] ==> |PathOf(v, steps, path)| > |path|
    decreases |steps|
  {
    if steps != [] {
      var e := v.items[steps[0]];
      assert ItemUnambiguous(v.isObj, e, steps[0], path);
      var seg := Segment(v.isObj, e, steps[0]);
      PathOfUnder(e.value, steps[1..], Join(path, seg));
      UnderJoin(path, seg, PathOf(v, steps, path));
    }
  }

  // ----- the first line with a path

  /** The opening line of `v`, with or without a comma. */
  predicate Opens(lc: Libc, l: Line, v: Json, key: string, depth: nat, path: string) {
    l.(comma := false) == Lines(lc, v, key, depth, path)[0].(comma := false)
  }

  lemma FirstLeft(a: seq<Line>, b: seq<Line>, p: string, i: nat)
    requires IsFirst(a, p, i)
    ensures IsFirst(a + b, p, i) && (a + b)[i] == a[i]
  {
  }

  lemma FirstRight(a: seq<Line>, b: seq<Line>, p: string, i: nat)
    requires IsFirst(b, p, i) && forall k :: 0 <= k < |a| ==> a[k].path != p
    ensures IsFirst(a + b, p, |a| + i) && (a + b)[|a| + i] == b[i]
  {
  }

  lemma FirstMarked(ls: seq<Line>, p: string, i: nat)
    requires IsFirst(ls, p, i)
    ensures IsFirst(MarkLast(ls), p, i) && MarkLast(ls)[i].(comma := false) == ls[i].(comma := false)
  {
  }

  lemma NoneMarked(ls: seq<Line>, p: string)
    requires forall k :: 0 <= k < |ls| ==> ls[k].path != p
    ensures forall k :: 0 <= k < |MarkLast(ls)| ==> MarkLast(ls)[k].path != p
  {
  }

  lemma {:induction false} FirstInValue(lc: Libc, v: Json, steps: seq<nat>, key: string, depth: nat, path: string) returns (i: nat)
    requires HasStep(v, steps) && Unambiguous(v, path) && |path| < PATH_LEN
    ensures IsFirst(Lines(lc, v, key, depth, path), PathOf(v, steps, path), i)
    ensures Opens(lc, Lines(lc, v, key, depth, path)[i], At(v, steps), KeyOf(v, steps, key), depth + |steps|, PathOf(v, steps, path))
    decreases v, 1
  {
    hide Lines, ItemsLines, IsFirst, Opens, At, KeyOf, PathOf, MkLine, BracketLine, Unambiguous;
    if steps == [] {
      HeadOpens(lc, v, key, depth, path);
      return 0;
    }
    ItemsOfUnambiguous(v, path);
    i := FirstInItems(lc, v.isObj, v.items, 0, steps[0], steps[1..], depth + 1, path);
    StepDown(v, steps, key, path);
    PathOfUnder(v, steps, path);
    BracketLines(lc, v, key, depth, path);
    FirstInside(BracketLine(Opening(v.isObj), key, depth, path), ItemsLines(lc, v.isObj, v.items, 0, depth + 1, path),
                BracketLine(Closing(v.isObj), "", depth, path), PathOf(v, steps, path), i);
    i := i + 1;
  }

  lemma ItemsOfUnambiguous(v: Json, path: string)
    requires v.Bracket? && Unambiguous(v, path)
    ensures forall k :: 0 <= k < |v.items| ==> ItemUnambiguous(v.isObj, v.items[k], k, path)
    ensures v.isObj ==> forall j, k :: 0 <= j < k < |v.items| ==> KeyShown(v.items[j].raw) != KeyShown(v.items[k].raw)
  {
  }

  lemma FirstInside(open: Line, items: seq<Line>, close: Line, p: string, i: nat)
    requires IsFirst(items, p, i) && open.path != p
    ensures IsFirst([open] + items + [close], p, i + 1) && ([open] + items + [close])[i + 1] == items[i]
  {
    hide IsFirst;
    FirstRight([open], items, p, i);
    FirstLeft([open] + items, [close], p, 1 + i);
  }

  lemma BracketLines(lc: Libc, v: Json, key: string, depth: nat, path: string)
    requires v.Bracket? && |path| < PATH_LEN
    ensures Lines(lc, v, key, depth, path) == [BracketLine(Opening(v.isObj), key, depth, path)]
      + ItemsLines(lc, v.isObj, v.items, 0, depth + 1, path) + [BracketLine(Closing(v.isObj), "", depth, path)]
    ensures BracketLine(Opening(v.isObj), key, depth, path).path == path
  {
    hide ItemsLines;
  }

  lemma StepDown(v: Json, steps: seq<nat>, key: string, path: string)
    requires HasStep(v, steps) && steps != []
    ensures var e := v.items[steps[0]];
      && At(v, steps) == At(e.value, steps[1..])
      && KeyOf(v, steps, key) == KeyOf(e.value, steps[1..], if v.isObj then KeyShown(e.raw) else "")
      && PathOf(v, steps, path) == PathOf(e.value, steps[1..], Join(path, Segment(v.isObj, e, steps[0])))
  {
  }

  lemma HeadOpens(lc: Libc, v: Json, key: string, depth: nat, path: string)
    requires |path| < PATH_LEN
    ensures var ls := Lines(lc, v, key, depth, path);
      IsFirst(ls, PathOf(v, [], path), 0) && Opens(lc, ls[0], At(v, []), KeyOf(v, [], key), depth, PathOf(v, [], path))
  {
    hide AtomNumeric, QuotedNumeric, Copied, ItemsLines;
  }

  lemma {:induction false} FirstInItems(lc: Libc, isObj: bool, items: seq<Item>, i: nat, j: nat, steps: seq<nat>, depth: nat, path: string)
    returns (n: nat)
    requires |path| < PATH_LEN && j < |items| && HasStep(items[j].value, steps)
    requires forall k :: 0 <= k < |items| ==> ItemUnambiguous(isObj, items[k], i + k, path)
    requires isObj ==> forall k, l :: 0 <= k < l < |items| ==> KeyShown(items[k].raw) != KeyShown(items[l].raw)
    ensures var p := PathOf(items[j].value, steps, Join(path, Segment(isObj, items[j], i + j)));
      && IsFirst(ItemsLines(lc, isObj, items, i, depth, path), p, n)
      && Opens(lc, ItemsLines(lc, isObj, items, i, depth, path)[n], At(items[j].value, steps),
               KeyOf(items[j].value, steps, if isObj then KeyShown(items[j].raw) else ""), depth + |steps|, p)
    decreases items, 0
  {
    hide ItemLines, IsFirst, ItemUnambiguous, MarkLast, KeyShown, Lines, At, KeyOf, PathOf, Under;
    var first, rest := ItemLines(lc, isObj, items[0], i, depth, path), ItemsLines(lc, isObj, items[1..], i + 1, depth, path);
    var shown := if |items| > 1 then MarkLast(first) else first;
    var p := PathOf(items[j].value, steps, Join(path, Segment(isObj, items[j], i + j)));
    if j == 0 {
      assert ItemUnambiguous(isObj, items[0], i + 0, path);
      n := FirstInItem(lc, isObj, items[0], i, steps, depth, path);
      FirstMarked(first, p, n);
      FirstLeft(shown, rest, p, n);
    } else {
      TailUnambiguous(isObj, items, i, path);
      n := FirstInItems(lc, isObj, items[1..], i + 1, j - 1, steps, depth, path);
      assert ItemUnambiguous(isObj, items[0], i + 0, path);
      ItemUnder(lc, isObj, items[0], i, depth, path);
      NotAmong(isObj, items, i, j, steps, path);
      NoneMarked(first, p);
      FirstRight(shown, rest, p, n);
      n := n + |first|;
    }
  }

  lemma TailUnambiguous(isObj: bool, items: seq<Item>, i: nat, path: string)
    requires items != [] && forall k :: 0 <= k < |items| ==> ItemUnambiguous(isObj, items[k], i + k, path)
    ensures forall k :: 0 <= k < |items[1..]| ==> ItemUnambiguous(isObj, items[1..][k], i + 1 + k, path)
  {
    hide ItemUnambiguous;
    forall k | 0 <= k < |items| - 1
      ensures ItemUnambiguous(isObj, items[1..][k], i + 1 + k, path)
    {
      assert items[1..][k] == items[k + 1] && i + (k + 1) == i + 1 + k;
    }
  }

  /** The path of something in item `j` is not below item 0. */
  lemma NotAmong(isObj: bool, items: seq<Item>, i: nat, j: nat, steps: seq<nat>, path: string)
    requires 0 < j < |items| && HasStep(items[j].value, steps)
    requires forall k :: 0 <= k < |items| ==> ItemUnambiguous(isObj, items[k], i + k, path)
    requires isObj ==> forall k, l :: 0 <= k < l < |items| ==> KeyShown(items[k].raw) != KeyShown(items[l].raw)
    ensures !Under(Join(path, Segment(isObj, items[0], i)), PathOf(items[j].value, steps, Join(path, Segment(isObj, items[j], i + j))))
  {
    assert ItemUnambiguous(isObj, items[0], i + 0, path) && ItemUnambiguous(isObj, items[j], i + j, path);
    var a, b := Segment(isObj, items[0], i), Segment(isObj, items[j], i + j);
    var p := PathOf(items[j].value, steps, Join(path, b));
    PathOfUnder(items[j].value, steps, Join(path, b));
    if a == b && !isObj { DecimalInjective(i, i + j); }
    SegmentOf(path, b, p);
    if Under(Join(path, a), p) { SegmentOf(path, a, p); }
  }

  lemma {:induction false} FirstInItem(lc: Libc, isObj: bool, e: Item, i: nat, steps: seq<nat>, depth: nat, path: string) returns (n: nat)
    requires |path| < PATH_LEN && HasStep(e.value, steps) && ItemUnambiguous(isObj, e, i, path)
    ensures var p := PathOf(e.value, steps, Join(path, Segment(isObj, e, i)));
      && IsFirst(ItemLines(lc, isObj, e, i, depth, path), p, n)
      && Opens(lc, ItemLines(lc, isObj, e, i, depth, path)[n], At(e.value, steps),
               KeyOf(e.value, steps, if isObj then KeyShown(e.raw) else ""), depth + |steps|, p)
    decreases e, 2
  {
    hide Lines;
    n := FirstInValue(lc, e.value, steps, if isObj then KeyShown(e.raw) else "", depth, Join(path, Segment(isObj, e, i)));
  }

  lemma FirstIsUnique(ls: seq<Line>, p: string, i: nat, j: nat)
    requires IsFirst(ls, p, i) && IsFirst(ls, p, j)
    ensures i == j < |ls|
  {
  }

  /** A search for the path of that value succeeds, at the line that opens it. */
  ghost predicate Finds(lc: Libc, ls: seq<Line>, v: Json, steps: seq<nat>)
    requires HasStep(v, steps)
  {
    var p := PathOf(v, steps, "");
    && (exists i: nat :: IsFirst(ls, p, i))
    && forall i: nat :: IsFirst(ls, p, i) ==> Opens(lc, ls[i], At(v, steps), KeyOf(v, steps, ""), |steps|, p)
  }

  lemma FindsInLines(lc: Libc, v: Json, steps: seq<nat>)
    requires Unambiguous(v, "") && HasStep(v, steps)
    ensures Finds(lc, Lines(lc, v, "", 0, ""), v, steps)
  {
    hide Lines, IsFirst, Unambiguous, At, KeyOf, PathOf, Opens;
    var ls, p := Lines(lc, v, "", 0, ""), PathOf(v, steps, "");
    var i := FirstInValue(lc, v, steps, "", 0, "");
    forall j: nat | IsFirst(ls, p, j)
      ensures i == j
    {
      FirstIsUnique(ls, p, i, j);
    }
  }

  /** Looking up the path of a value in the formatted text finds the line that opens it. */
  lemma PathFindsItsValue(lc: Libc, before: string, v: Json, after: string, steps: seq<nat>)
    requires Wf(v) && FitsDepth(v, 0) && AllWs(before) && AllWs(after)
    requires |Lines(lc, v, "", 0, "")| <= MAX_LINES
    requires Unambiguous(v, "") && HasStep(v, steps)
    ensures Finds(lc, FmtValue(lc, before + Print(v, after), [], "", 0, "").lines, v, steps)
  {
    hide FmtValue, Lines, Print, Finds, Clipped, Unambiguous, HasStep, Wf, FitsDepth;
    FindsInLines(lc, v, steps);
    TextIsShown(lc, before, v, after);
    ClippedExact(FmtValue(lc, before + Print(v, after), [], "", 0, "").lines, Lines(lc, v, "", 0, ""));
  }
}
