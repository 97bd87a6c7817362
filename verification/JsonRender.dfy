/** JSON texts with their whitespace, as trees; how a text prints, what it should look like on
    screen, and the proof that the formatter shows exactly that. */
module JsonRender {
  import opened Text
  import opened LineModel
  import opened JsonScan

  /** `raw` is what stands between the quotes, escapes and all. */
  datatype Json =
    | Scalar(text: string)
    | Quoted(raw: string)
    | Bracket(isObj: bool, gap: string, items: seq<Item>)

  /** before "key" mid : after value end - where an array has no key, mid or after. */
  datatype Item = Item(before: string, raw: string, mid: string, after: string, value: Json, end: string)

  // ----- printing

  function Colon(isObj: bool, raw: string, mid: string, after: string, tail: string): string {
    if isObj then "\"" + (raw + ("\"" + (mid + (":" + (after + tail))))) else tail
  }

  /** The text of `v`, then `tail`. */
  function Print(v: Json, tail: string): string
    decreases v, 1
  {
    match v
    case Scalar(text) => text + tail
    case Quoted(raw) => "\"" + (raw + ("\"" + tail))
    case Bracket(isObj, gap, items) =>
      Opening(isObj) + if items == [] then gap + (Closing(isObj) + tail) else PrintItems(isObj, items, tail)
  }

  function PrintItems(isObj: bool, items: seq<Item>, tail: string): string
    requires items != []
    decreases items, 0
  {
    PrintItem(isObj, items[0],
      if |items| == 1 then Closing(isObj) + tail else "," + PrintItems(isObj, items[1..], tail))
  }

  function PrintItem(isObj: bool, e: Item, tail: string): string
    decreases e, 2
  {
    e.before + Colon(isObj, e.raw, e.mid, e.after, Print(e.value, e.end + tail))
  }

  // ----- which trees are JSON

  predicate AllWs(w: string) { forall i :: 0 <= i < |w| ==> IsWs(w[i]) }

  /** No unescaped quote, and no escape cut short at the end. */
  predicate Closed(raw: string)
    decreases |raw|
  {
    if raw == "" then true
    else if raw[0] == '\\' then |raw| > 1 && Closed(raw[2..])
    else raw[0] != '\"' && Closed(raw[1..])
  }

  /** Any run without delimiters that does not start like a string: numbers, true, false, null and more. */
  predicate IsAtom(text: string) {
    text != "" && text[0] != '\"' && forall i :: 0 <= i < |text| ==> !IsDelimiter(text[i])
  }

  predicate Wf(v: Json) {
    match v
    case Scalar(text) => IsAtom(text)
    case Quoted(raw) => Closed(raw)
    case Bracket(isObj, gap, items) => AllWs(gap) && forall i :: 0 <= i < |items| ==> WfItem(items[i])
  }

  predicate WfItem(e: Item) {
    AllWs(e.before) && AllWs(e.mid) && AllWs(e.after) && AllWs(e.end) && Closed(e.raw) && Wf(e.value)
  }

  /** Room for `v` at depth `depth`. */
  predicate FitsDepth(v: Json, depth: nat)
    decreases v
  {
    depth < MAX_DEPTH && (v.Bracket? ==> forall i :: 0 <= i < |v.items| ==> ItemFits(v.items[i], depth + 1))
  }

  predicate ItemFits(e: Item, depth: nat)
    decreases e
  {
    FitsDepth(e.value, depth)
  }

  // ----- what a tree looks like

  function KeyShown(raw: string): (r: string)
    ensures |r| < KEY_LEN
  {
    Unquoted(Copied("\"" + (raw + "\""), KEY_LEN))
  }

  /** A short key without NULs is shown as it is written. */
  lemma PlainKey(raw: string)
    requires '\0' !in raw && |raw| + 2 < KEY_LEN
    ensures KeyShown(raw) == raw
  {
    var k := "\"" + (raw + "\"");
    CStrPlain(k);
    assert k[1..|k| - 1] == raw;
  }

  function ScalarLine(lc: Libc, text: string, key: string, depth: nat, path: string): Line {
    var val := Copied(text, VAL_LEN);
    MkLine(depth, path, key, val, Atom, AtomNumeric(lc, val))
  }

  function QuotedLine(lc: Libc, raw: string, key: string, depth: nat, path: string): Line {
    var val := Copied("\"" + (raw + "\""), VAL_LEN);
    MkLine(depth, path, key, val, Str, QuotedNumeric(lc, val))
  }

  function BracketLine(text: string, key: string, depth: nat, path: string): Line {
    MkLine(depth, path, key, text, Punct, false)
  }

  function Lines(lc: Libc, v: Json, key: string, depth: nat, path: string): (r: seq<Line>)
    ensures |r| > 0
    decreases v, 1
  {
    match v
    case Scalar(text) => [ScalarLine(lc, text, key, depth, path)]
    case Quoted(raw) => [QuotedLine(lc, raw, key, depth, path)]
    case Bracket(isObj, _, items) =>
      [BracketLine(Opening(isObj), key, depth, path)]
      + ItemsLines(lc, isObj, items, 0, depth + 1, path)
      + [BracketLine(Closing(isObj), "", depth, path)]
  }

  /** Items from number `i` on, each but the last followed by a comma. */
  function ItemsLines(lc: Libc, isObj: bool, items: seq<Item>, i: nat, depth: nat, path: string): (r: seq<Line>)
    ensures items != [] ==> |r| > 0
    decreases items, 0
  {
    if items == [] then []
    else
      var first := ItemLines(lc, isObj, items[0], i, depth, path);
      (if |items| > 1 then MarkLast(first) else first) + ItemsLines(lc, isObj, items[1..], i + 1, depth, path)
  }

  /** The path segment of an item: its key, or its index. */
  function Segment(isObj: bool, e: Item, i: nat): string {
    if isObj then KeyShown(e.raw) else Decimal(i)
  }

  function ItemLines(lc: Libc, isObj: bool, e: Item, i: nat, depth: nat, path: string): (r: seq<Line>)
    ensures |r| > 0
    decreases e, 2
  {
    Lines(lc, e.value, if isObj then KeyShown(e.raw) else "", depth, PathPush(path, Segment(isObj, e, i)))
  }

  // ----- reading the printed pieces back

  lemma {:induction false} SkipPrinted(w: string, t: string)
    requires AllWs(w)
    ensures SkipWs(w + t) == SkipWs(t)
  {
    if w == "" {
      assert w + t == t;
    } else {
      assert (w + t)[1..] == w[1..] + t;
      SkipPrinted(w[1..], t);
    }
  }

  lemma SkipNothing(t: string)
    requires t == "" || !IsWs(t[0])
    ensures SkipWs(t) == t
  {
  }

  lemma {:induction false} BodyPrinted(raw: string, t: string)
    requires Closed(raw)
    ensures BodyLen(raw + ("\"" + t)) == |raw| + 1
    decreases |raw|
  {
    var s := raw + ("\"" + t);
    if raw == "" {
      assert s == "\"" + t;
    } else if raw[0] == '\\' {
      assert s[2..] == raw[2..] + ("\"" + t);
      BodyPrinted(raw[2..], t);
    } else {
      assert s[1..] == raw[1..] + ("\"" + t);
      BodyPrinted(raw[1..], t);
    }
  }

  /** A printed string token is taken whole. */
  lemma QuotedPrinted(raw: string, t: string)
    requires Closed(raw)
    ensures var s := "\"" + (raw + ("\"" + t));
      && s[1..] == raw + ("\"" + t)
      && BodyLen(s[1..]) == |raw| + 1
      && s[..2 + |raw|] == "\"" + (raw + "\"")
      && s[2 + |raw|..] == t
  {
    hide BodyLen;
    var token := "\"" + (raw + "\"");
    BodyPrinted(raw, t);
    Assoc(raw, "\"", t);
    Assoc("\"", raw + "\"", t);
    SplitConcat(token, t);
    SplitConcat("\"", raw + ("\"" + t));
  }

  lemma {:induction false} AtomPrinted(text: string, t: string)
    requires forall i :: 0 <= i < |text| ==> !IsDelimiter(text[i])
    requires t == "" || IsDelimiter(t[0])
    ensures AtomLen(text + t) == |text|
  {
    if text == "" {
      assert text + t == t;
    } else {
      assert (text + t)[1..] == text[1..] + t;
      AtomPrinted(text[1..], t);
    }
  }

  lemma KeyPrinted(isObj: bool, e: Item, tail: string)
    requires WfItem(e) && isObj
    requires tail != "" && !IsWs(tail[0])
    ensures FmtKey(Colon(isObj, e.raw, e.mid, e.after, tail)) == (KeyShown(e.raw), tail)
    ensures Colon(isObj, e.raw, e.mid, e.after, tail)[0] == '\"'
  {
    hide BodyLen, Copied, SkipWs;
    var u := e.mid + (":" + (e.after + tail));
    QuotedPrinted(e.raw, u);
    SkipPrinted(e.mid, ":" + (e.after + tail));
    SkipNothing(":" + (e.after + tail));
    assert (":" + (e.after + tail))[1..] == e.after + tail;
    SkipPrinted(e.after, tail);
    SkipNothing(tail);
  }

  /** A printed value starts with neither whitespace nor a closing bracket. */
  lemma FirstOfValue(v: Json, tail: string)
    requires Wf(v)
    ensures var s := Print(v, tail);
      s != "" && !IsWs(s[0]) && s[0] != '}' && s[0] != ']' && s[0] != ','
  {
    hide PrintItems;
  }

  // ----- the formatter shows the tree

  /** A printed value is shown as its lines and read to its end, as long as the table lasts. */
  lemma {:induction false} ValueShown(lc: Libc, v: Json, tail: string, lines: seq<Line>, key: string, depth: nat, path: string)
    requires Wf(v) && FitsDepth(v, depth) && |lines| < MAX_LINES
    requires v.Scalar? ==> tail == "" || IsDelimiter(tail[0])
    ensures var r, full := FmtValue(lc, Print(v, tail), lines, key, depth, path), lines + Lines(lc, v, key, depth, path);
      Clipped(r.lines, full) && (|full| <= MAX_LINES ==> r.rest == tail)
    decreases v, 1
  {
    hide FmtContainer, FmtScalar, ItemsLines, PrintItems, Print, Lines, SkipWs;
    FirstOfValue(v, tail);
    SkipNothing(Print(v, tail));
    if v.Bracket? {
      BracketShown(lc, v, tail, lines, key, depth, path);
    } else {
      ScalarShown(lc, v, tail, lines, key, depth, path);
      ClippedSame(lines + Lines(lc, v, key, depth, path));
    }
  }

  lemma ScalarShown(lc: Libc, v: Json, tail: string, lines: seq<Line>, key: string, depth: nat, path: string)
    requires Wf(v) && !v.Bracket? && |lines| < MAX_LINES
    requires v.Scalar? ==> tail == "" || IsDelimiter(tail[0])
    ensures var s := Print(v, tail);
      && s != "" && s[0] != '{' && s[0] != '['
      && FmtScalar(lc, s, lines, key, depth, path) == Out(tail, lines + Lines(lc, v, key, depth, path))
      && |Lines(lc, v, key, depth, path)| == 1
  {
    hide BodyLen, Copied, AtomLen, MkLine, AtomNumeric, QuotedNumeric;
    if v.Scalar? {
      AtomPrinted(v.text, tail);
      SplitConcat(v.text, tail);
    } else {
      QuotedPrinted(v.raw, tail);
    }
  }

  lemma {:induction false} BracketShown(lc: Libc, v: Json, tail: string, lines: seq<Line>, key: string, depth: nat, path: string)
    requires v.Bracket? && Wf(v) && FitsDepth(v, depth) && |lines| < MAX_LINES
    ensures var r, full := FmtContainer(lc, v.isObj, Print(v, tail), lines, key, depth, path), lines + Lines(lc, v, key, depth, path);
      Clipped(r.lines, full) && (|full| <= MAX_LINES ==> r.rest == tail)
    ensures [Print(v, tail)[0]] == Opening(v.isObj)
    decreases v, 0
  {
    hide FmtItems, MkLine, PrintItems, ItemsLines, Clipped, SkipWs;
    var open := lines + [BracketLine(Opening(v.isObj), key, depth, path)];
    var close := BracketLine(Closing(v.isObj), "", depth, path);
    var inner := if v.items == [] then v.gap + (Closing(v.isObj) + tail) else PrintItems(v.isObj, v.items, tail);
    SplitConcat(Opening(v.isObj), inner);
    ItemsOrGapShown(lc, v, tail, open, depth, path);
    var o := FmtItems(lc, v.isObj, inner, open, 0, depth + 1, path);
    ClippedEmit(o.lines, open + ItemsLines(lc, v.isObj, v.items, 0, depth + 1, path), close);
    Assoc(lines, [BracketLine(Opening(v.isObj), key, depth, path)], ItemsLines(lc, v.isObj, v.items, 0, depth + 1, path));
    Assoc(lines, [BracketLine(Opening(v.isObj), key, depth, path)] + ItemsLines(lc, v.isObj, v.items, 0, depth + 1, path), [close]);
  }

  lemma {:induction false} ItemsOrGapShown(lc: Libc, v: Json, tail: string, open: seq<Line>, depth: nat, path: string)
    requires v.Bracket? && Wf(v) && FitsDepth(v, depth) && |open| <= MAX_LINES
    ensures var s := if v.items == [] then v.gap + (Closing(v.isObj) + tail) else PrintItems(v.isObj, v.items, tail);
      var r, full := FmtItems(lc, v.isObj, s, open, 0, depth + 1, path), open + ItemsLines(lc, v.isObj, v.items, 0, depth + 1, path);
      Clipped(r.lines, full) && (|full| <= MAX_LINES ==> r.rest == tail)
    decreases v.items, 4
  {
    if v.items == [] {
      SkipPrinted(v.gap, Closing(v.isObj) + tail);
      SkipNothing(Closing(v.isObj) + tail);
      SplitConcat(Closing(v.isObj), tail);
      ClippedSame(open);
      assert open + [] == open;
    } else {
      ItemsShown(lc, v.isObj, v.items, tail, open, 0, depth + 1, path);
    }
  }

  /** Where the item's own text ends: at a comma, or at the closing bracket. */
  function Follow(isObj: bool, items: seq<Item>, tail: string): string
    requires items != []
  {
    if |items| == 1 then Closing(isObj) + tail else "," + PrintItems(isObj, items[1..], tail)
  }

  predicate EndsItem(s: string) { s != "" && (s[0] == ',' || s[0] == '}' || s[0] == ']') }

  /** The item's text past its leading whitespace. */
  function ItemStart(isObj: bool, e: Item, follow: string): string {
    Colon(isObj, e.raw, e.mid, e.after, Print(e.value, e.end + follow))
  }

  lemma ItemStarts(isObj: bool, e: Item, follow: string)
    requires WfItem(e)
    ensures var t := ItemStart(isObj, e, follow);
      t != "" && SkipWs(PrintItem(isObj, e, follow)) == t && t[0] != '}' && t[0] != ']'
  {
    hide Print, SkipWs;
    FirstOfValue(e.value, e.end + follow);
    SkipPrinted(e.before, ItemStart(isObj, e, follow));
    SkipNothing(ItemStart(isObj, e, follow));
  }

  /** An item is read up to what follows it, with a comma if it has one; or it fills the
      table, and then nothing that follows can change what is kept. */
  lemma {:induction false} ItemShown(lc: Libc, isObj: bool, e: Item, follow: string, lines: seq<Line>, i: nat, depth: nat, path: string)
    requires WfItem(e) && ItemFits(e, depth) && |lines| < MAX_LINES && EndsItem(follow)
    requires ItemStart(isObj, e, follow) != ""
    ensures var o, full := FmtItem(lc, isObj, ItemStart(isObj, e, follow), lines, i, depth, path), lines + ItemLines(lc, isObj, e, i, depth, path);
      && (|full| <= MAX_LINES ==> o == if follow[0] == ',' then Out(follow[1..], MarkLast(full)) else Out(follow, full))
      && (|full| > MAX_LINES ==> |o.lines| == MAX_LINES && forall full' {:trigger Clipped(o.lines, full')} ::
           |full'| >= |full| && full'[..MAX_LINES] == full[..MAX_LINES] ==> Clipped(o.lines, full'))
    decreases e, 2
  {
    hide Print, SkipWs, Lines, PathPush, KeyShown, Clipped, FmtValue, FmtKey, MarkLast;
    var tail := e.end + follow;
    var u := Print(e.value, tail);
    FirstOfValue(e.value, tail);
    if isObj { KeyPrinted(isObj, e, u); }
    AfterItem(e, follow);
    var key := if isObj then KeyShown(e.raw) else "";
    var p := PathPush(path, Segment(isObj, e, i));
    ValueShown(lc, e.value, tail, lines, key, depth, p);
    PrintLonger(e.value, tail);
    var o := FmtProgress(lc, u, lines, key, depth, p);
    var full := lines + Lines(lc, e.value, key, depth, p);
    if |full| <= MAX_LINES {
      CommaRead(e.end, follow, full);
      ClippedExact(o.lines, full);
    } else {
      ClippedLength(o.lines, full);
      forall full' | |full'| >= |full| && full'[..MAX_LINES] == full[..MAX_LINES]
        ensures Clipped(o.lines, full') && Clipped(MarkLast(o.lines), full')
      {
        ClippedExtend(o.lines, o.lines, full, full');
        ClippedExtend(o.lines, MarkLast(o.lines), full, full');
      }
    }
  }

  lemma ClippedExact(kept: seq<Line>, full: seq<Line>)
    requires Clipped(kept, full) && |full| <= MAX_LINES
    ensures kept == full
  {
  }

  lemma ClippedSame(lines: seq<Line>)
    requires |lines| <= MAX_LINES
    ensures Clipped(lines, lines)
  {
  }

  lemma ClippedLength(kept: seq<Line>, full: seq<Line>)
    requires Clipped(kept, full) && |full| > MAX_LINES
    ensures |kept| == MAX_LINES
  {
  }

  lemma AfterItem(e: Item, follow: string)
    requires WfItem(e) && EndsItem(follow)
    ensures e.end + follow != "" && IsDelimiter((e.end + follow)[0])
  {
  }

  lemma CommaRead(end: string, follow: string, lines: seq<Line>)
    requires AllWs(end) && EndsItem(follow)
    ensures PastComma(end + follow, lines) == if follow[0] == ',' then Out(follow[1..], MarkLast(lines)) else Out(follow, lines)
  {
    hide MarkLast;
    SkipPrinted(end, follow);
    SkipNothing(follow);
  }

  lemma {:induction false} PrintLonger(v: Json, tail: string)
    requires Wf(v)
    ensures |Print(v, tail)| > |tail|
    decreases v, 1
  {
    if v.Bracket? && v.items != [] { ItemsLonger(v.isObj, v.items, tail); }
  }

  lemma {:induction false} ItemsLonger(isObj: bool, items: seq<Item>, tail: string)
    requires items != [] && forall k :: 0 <= k < |items| ==> WfItem(items[k])
    ensures |PrintItems(isObj, items, tail)| > |tail|
    decreases items, 0
  {
    ItemLonger(isObj, items[0], Follow(isObj, items, tail));
    if |items| > 1 { ItemsLonger(isObj, items[1..], tail); }
  }

  lemma {:induction false} ItemLonger(isObj: bool, e: Item, tail: string)
    requires WfItem(e)
    ensures |PrintItem(isObj, e, tail)| > |tail|
    decreases e, 2
  {
    PrintLonger(e.value, e.end + tail);
  }

  lemma {:induction false} ItemsShown(lc: Libc, isObj: bool, items: seq<Item>, tail: string, lines: seq<Line>, i: nat, depth: nat, path: string)
    requires items != [] && |lines| <= MAX_LINES
    requires forall k :: 0 <= k < |items| ==> WfItem(items[k]) && ItemFits(items[k], depth)
    ensures var r, full := FmtItems(lc, isObj, PrintItems(isObj, items, tail), lines, i, depth, path),
                           lines + ItemsLines(lc, isObj, items, i, depth, path);
      Clipped(r.lines, full) && (|full| <= MAX_LINES ==> r.rest == tail)
    decreases items, 3
  {
    hide FmtItem, FmtItems, SkipWs, PrintItem, ItemLines, MarkLast, Clipped, Colon, Print, ItemStart;
    var e, follow := items[0], Follow(isObj, items, tail);
    ItemStarts(isObj, e, follow);
    var s, t := PrintItems(isObj, items, tail), ItemStart(isObj, e, follow);
    ItemsUnfold(lc, isObj, s, lines, i, depth, path);
    if |lines| == MAX_LINES {
      ClippedFull(lines, ItemsLines(lc, isObj, items, i, depth, path));
      return;
    }
    ItemShown(lc, isObj, e, follow, lines, i, depth, path);
    var o, first := FmtItem(lc, isObj, t, lines, i, depth, path), ItemLines(lc, isObj, e, i, depth, path);
    if |lines + first| > MAX_LINES {
      FullStays(lc, isObj, o.rest, o.lines, i + 1, depth, path);
      FirstLines(lc, isObj, items, lines, i, depth, path);
    } else if |items| == 1 {
      LastItem(lc, isObj, tail, lines + first, i + 1, depth, path);
      assert items[1..] == [];
      assert lines + (first + []) == lines + first;
    } else {
      SplitConcat(",", PrintItems(isObj, items[1..], tail));
      ItemsShown(lc, isObj, items[1..], tail, MarkLast(lines + first), i + 1, depth, path);
      MarkLastConcat(lines, first);
      Assoc(lines, MarkLast(first), ItemsLines(lc, isObj, items[1..], i + 1, depth, path));
    }
  }

  lemma LastItem(lc: Libc, isObj: bool, tail: string, lines: seq<Line>, i: nat, depth: nat, path: string)
    requires |lines| <= MAX_LINES
    ensures FmtItems(lc, isObj, Closing(isObj) + tail, lines, i, depth, path) == Out(tail, lines)
    ensures Clipped(lines, lines)
  {
    SkipNothing(Closing(isObj) + tail);
    SplitConcat(Closing(isObj), tail);
  }

  lemma ItemsUnfold(lc: Libc, isObj: bool, s: string, lines: seq<Line>, i: nat, depth: nat, path: string)
    ensures FmtItems(lc, isObj, s, lines, i, depth, path) ==
      var t := SkipWs(s);
      if t == "" then Out(t, lines)
      else if [t[0]] == Closing(isObj) then Out(t[1..], lines)
      else if |lines| >= MAX_LINES then Out(t, lines)
      else
        var o := FmtItem(lc, isObj, t, lines, i, depth, path);
        FmtItems(lc, isObj, o.rest, o.lines, i + 1, depth, path)
  {
  }

  /** All the lines of the items agree with those of the first item as far as the table reaches. */
  lemma FirstLines(lc: Libc, isObj: bool, items: seq<Item>, lines: seq<Line>, i: nat, depth: nat, path: string)
    requires items != []
    ensures var first, all := ItemLines(lc, isObj, items[0], i, depth, path), ItemsLines(lc, isObj, items, i, depth, path);
      |lines + first| > MAX_LINES ==>
        |lines + all| >= |lines + first| && (lines + all)[..MAX_LINES] == (lines + first)[..MAX_LINES]
  {
    hide ItemLines;
    var first, all := ItemLines(lc, isObj, items[0], i, depth, path), ItemsLines(lc, isObj, items, i, depth, path);
    var rest := ItemsLines(lc, isObj, items[1..], i + 1, depth, path);
    if |lines + first| > MAX_LINES {
      assert forall k :: 0 <= k < MAX_LINES ==> (lines + all)[k] == (lines + first)[k];
    }
  }

  /** For every JSON text, wherever its whitespace stands, the formatter shows the tree: all of
      it when it fits the table, and otherwise the table's worth of it. */
  lemma TextIsShown(lc: Libc, before: string, v: Json, after: string)
    requires Wf(v) && FitsDepth(v, 0) && AllWs(before) && AllWs(after)
    ensures Clipped(FmtValue(lc, before + Print(v, after), [], "", 0, "").lines, Lines(lc, v, "", 0, ""))
  {
    hide FmtContainer, FmtScalar, Clipped;
    SkipPrinted(before, Print(v, after));
    FirstOfValue(v, after);
    SkipNothing(Print(v, after));
    ValueShown(lc, v, after, [], "", 0, "");
    assert [] + Lines(lc, v, "", 0, "") == Lines(lc, v, "", 0, "");
  }
}
