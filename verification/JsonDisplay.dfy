/** A reader of the lines a JSON text is shown as.  The texts are those of RFC 8259, written out
    here from that grammar, and what is read back is the tree itself. */
module JsonDisplay {
  import opened Text
  import opened LineModel
  import opened JsonScan
  import opened JsonRender
  import opened LineOutline
  import Notation

  // ----- the texts

  /** Insignificant whitespace: space, tab, line feed, carriage return (section 2). */
  predicate JsonSpace(w: string) {
    forall i :: 0 <= i < |w| ==> w[i] as int in {0x20, 0x09, 0x0a, 0x0d}
  }

  predicate HexLetter(c: char) { Notation.IsDigit(c) || 'a' <= c <= 'f' || 'A' <= c <= 'F' }

  /** The inside of a string (section 7). */
  predicate JsonString(raw: string)
    decreases |raw|
  {
    if raw == "" then true
    else if raw[0] != '\\' then raw[0] != '\"' && raw[0] as int >= 0x20 && JsonString(raw[1..])
    else if |raw| < 2 then false
    else if Notation.Named(raw[1]).Some? then JsonString(raw[2..])
    else
      && |raw| >= 6 && raw[1] == 'u' && HexLetter(raw[2]) && HexLetter(raw[3]) && HexLetter(raw[4]) && HexLetter(raw[5])
      && JsonString(raw[6..])
  }

  /** A literal name, or the characters of a number (sections 3 and 6). */
  predicate JsonScalar(text: string) {
    || text == "true" || text == "false" || text == "null"
    || (text != "" && forall i :: 0 <= i < |text| ==> Notation.IsDigit(text[i]) || text[i] in {'+', '-', '.', 'e', 'E'})
  }

  predicate JsonText(v: Json) {
    match v
    case Scalar(text) => JsonScalar(text)
    case Quoted(raw) => JsonString(raw)
    case Bracket(_, gap, items) => JsonSpace(gap) && forall i :: 0 <= i < |items| ==> JsonItem(items[i])
  }

  predicate JsonItem(e: Item) {
    && JsonSpace(e.before) && JsonSpace(e.mid) && JsonSpace(e.after) && JsonSpace(e.end)
    && JsonString(e.raw) && JsonText(e.value)
  }

  // ----- the formatter takes them all

  lemma SpaceIsWs(w: string)
    requires JsonSpace(w)
    ensures AllWs(w)
  {
  }

  lemma {:induction false} StringIsClosed(raw: string)
    requires JsonString(raw)
    ensures Closed(raw) && '\0' !in raw
    decreases |raw|
  {
    if raw != "" {
      if raw[0] != '\\' {
        StringIsClosed(raw[1..]);
        assert raw == [raw[0]] + raw[1..];
      } else if Notation.Named(raw[1]).Some? {
        StringIsClosed(raw[2..]);
        assert raw == raw[..2] + raw[2..];
      } else {
        StringIsClosed(raw[6..]);
        assert raw == raw[..6] + raw[6..];
        ClosedLetters(raw);
      }
    }
  }

  lemma ClosedLetters(raw: string)
    requires |raw| >= 6 && raw[0] == '\\' && HexLetter(raw[2]) && HexLetter(raw[3]) && HexLetter(raw[4]) && HexLetter(raw[5])
    requires Closed(raw[6..])
    ensures Closed(raw)
  {
    assert raw[5..][1..] == raw[6..];
    assert raw[4..][1..] == raw[5..];
    assert raw[3..][1..] == raw[4..];
    assert raw[2..][1..] == raw[3..];
    assert Closed(raw[5..]);
    assert Closed(raw[4..]);
    assert Closed(raw[3..]);
    assert Closed(raw[2..]);
  }

  lemma ScalarIsAtom(text: string)
    requires JsonScalar(text)
    ensures IsAtom(text) && '\0' !in text
  {
    if text == "true" || text == "false" || text == "null" {
      assert text[0] != '\"' && forall i :: 0 <= i < |text| ==> 'a' <= text[i] <= 'z';
    }
  }

  lemma {:induction false} TextIsWf(v: Json)
    requires JsonText(v)
    ensures Wf(v)
    decreases v
  {
    match v
    case Scalar(text) => ScalarIsAtom(text);
    case Quoted(raw) => StringIsClosed(raw);
    case Bracket(_, gap, items) =>
      SpaceIsWs(gap);
      forall i | 0 <= i < |items|
        ensures WfItem(items[i])
      {
        ItemIsWf(items[i]);
      }
  }

  lemma {:induction false} ItemIsWf(e: Item)
    requires JsonItem(e)
    ensures WfItem(e)
    decreases e
  {
    hide AllWs, JsonSpace, Closed, JsonString;
    SpaceIsWs(e.before);
    SpaceIsWs(e.mid);
    SpaceIsWs(e.after);
    SpaceIsWs(e.end);
    StringIsClosed(e.raw);
    TextIsWf(e.value);
  }

  // ----- what should be read

  /** Values fit 271 characters and keys 127, with their quotes. */
  predicate FitsColumns(v: Json)
    decreases v
  {
    match v
    case Scalar(text) => |text| < 272
    case Quoted(raw) => |raw| + 2 < 272
    case Bracket(isObj, _, items) => forall i :: 0 <= i < |items| ==> ItemFitsColumns(isObj, items[i])
  }

  predicate ItemFitsColumns(isObj: bool, e: Item)
    decreases e
  {
    (isObj ==> |e.raw| + 2 < 128) && FitsColumns(e.value)
  }

  /** The tree without its whitespace. */
  function TreeOf(v: Json): Outline
    decreases v, 1
  {
    match v
    case Scalar(text) => Value(Atom, text)
    case Quoted(raw) => Value(Str, "\"" + raw + "\"")
    case Bracket(isObj, _, items) =>
      if isObj then LineOutline.Bracket("{", "}", PartsOf(true, items)) else LineOutline.Bracket("[", "]", PartsOf(false, items))
  }

  function PartsOf(isObj: bool, items: seq<Item>): seq<Part>
    decreases items, 0
  {
    if items == [] then [] else [PartOf(isObj, items[0])] + PartsOf(isObj, items[1..])
  }

  function PartOf(isObj: bool, e: Item): Part
    decreases e, 2
  {
    Part(if isObj then e.raw else "", TreeOf(e.value))
  }

  // ----- it is read

  lemma KeyIsRaw(raw: string)
    requires JsonString(raw) && |raw| + 2 < KEY_LEN
    ensures KeyShown(raw) == raw
  {
    hide JsonString, Closed, KeyShown;
    StringIsClosed(raw);
    PlainKey(raw);
  }

  lemma ValueColumn(lc: Libc, v: Json, key: string, depth: nat, path: string)
    requires JsonText(v) && FitsColumns(v) && !v.Bracket? && |key| < KEY_LEN && |path| < PATH_LEN
    ensures Rows(Lines(lc, v, key, depth, path)) == RowsOf(TreeOf(v), key, depth, path)
  {
    hide AtomNumeric, QuotedNumeric;
    if v.Scalar? {
      ScalarIsAtom(v.text);
      CStrPlain(v.text);
    } else {
      StringIsClosed(v.raw);
      Assoc("\"", v.raw, "\"");
      CStrPlain("\"" + (v.raw + "\""));
    }
  }

  lemma {:induction false} TreeRows(lc: Libc, v: Json, key: string, depth: nat, path: string)
    requires JsonText(v) && FitsColumns(v) && |key| < KEY_LEN && |path| < PATH_LEN
    ensures Rows(Lines(lc, v, key, depth, path)) == RowsOf(TreeOf(v), key, depth, path)
    decreases v, 1
  {
    hide Rows, ItemsLines, PartsRows, PartsOf, JsonItem, ItemFitsColumns, ScalarLine, QuotedLine;
    if v.Bracket? {
      ItemsRows(lc, v.isObj, v.items, 0, depth + 1, path);
      BracketRows(lc, v, key, depth, path);
    } else {
      ValueColumn(lc, v, key, depth, path);
    }
  }

  lemma BracketRows(lc: Libc, v: Json, key: string, depth: nat, path: string)
    requires v.Bracket? && |key| < KEY_LEN && |path| < PATH_LEN
    requires Rows(ItemsLines(lc, v.isObj, v.items, 0, depth + 1, path)) == PartsRows(PartsOf(v.isObj, v.items), v.isObj, 0, depth + 1, path)
    ensures Rows(Lines(lc, v, key, depth, path)) == RowsOf(TreeOf(v), key, depth, path)
  {
    hide ItemsLines, PartsRows, PartsOf;
    var open, close := BracketLine(JsonScan.Opening(v.isObj), key, depth, path), BracketLine(Closing(v.isObj), "", depth, path);
    var body := ItemsLines(lc, v.isObj, v.items, 0, depth + 1, path);
    RowsConcat([open] + body, [close]);
    RowsConcat([open], body);
    assert '{' in "{" && '{' !in "[";
  }

  lemma {:induction false} ItemsRows(lc: Libc, isObj: bool, items: seq<Item>, i: nat, depth: nat, path: string)
    requires (forall k :: 0 <= k < |items| ==> JsonItem(items[k]) && ItemFitsColumns(isObj, items[k])) && |path| < PATH_LEN
    ensures Rows(ItemsLines(lc, isObj, items, i, depth, path)) == PartsRows(PartsOf(isObj, items), isObj, i, depth, path)
    decreases items, 0
  {
    hide ItemLines, PartOf, PartRows, JsonItem, ItemFitsColumns, MarkLast;
    if items != [] {
      var first := ItemLines(lc, isObj, items[0], i, depth, path);
      ItemRows(lc, isObj, items[0], i, depth, path);
      ItemsRows(lc, isObj, items[1..], i + 1, depth, path);
      RowsMarked(first);
      RowsConcat(if |items| > 1 then MarkLast(first) else first, ItemsLines(lc, isObj, items[1..], i + 1, depth, path));
      assert ([PartOf(isObj, items[0])] + PartsOf(isObj, items[1..]))[1..] == PartsOf(isObj, items[1..]);
    }
  }

  lemma {:induction false} ItemRows(lc: Libc, isObj: bool, e: Item, i: nat, depth: nat, path: string)
    requires JsonItem(e) && ItemFitsColumns(isObj, e) && |path| < PATH_LEN
    ensures Rows(ItemLines(lc, isObj, e, i, depth, path)) == PartRows(PartOf(isObj, e), isObj, i, depth, path)
    decreases e, 2
  {
    hide Lines, TreeOf, RowsOf, KeyShown, PathPush, Reached, Decimal, JsonString, JsonSpace;
    if isObj { KeyIsRaw(e.raw); }
    var seg := if isObj then e.raw else Decimal(i);
    ReachedIsPushed(path, seg);
    TreeRows(lc, e.value, if isObj then e.raw else "", depth, PathPush(path, seg));
  }

  lemma {:induction false} TreeIsShaped(v: Json)
    ensures Shaped(TreeOf(v))
    decreases v, 1
  {
    if v.Bracket? {
      PartsAreShaped(v.isObj, v.items);
      assert '{' in "{" && '{' !in "[" && "{"[0] == '{' && "}"[0] == '}' && "["[0] == '[' && "]"[0] == ']';
    }
  }

  lemma {:induction false} PartsAreShaped(isObj: bool, items: seq<Item>)
    ensures forall i :: 0 <= i < |PartsOf(isObj, items)| ==> ShapedPart(PartsOf(isObj, items)[i], isObj)
    decreases items, 0
  {
    hide PartOf, ShapedPart;
    if items != [] {
      PartIsShaped(isObj, items[0]);
      PartsAreShaped(isObj, items[1..]);
    }
  }

  lemma {:induction false} PartIsShaped(isObj: bool, e: Item)
    ensures ShapedPart(PartOf(isObj, e), isObj)
    decreases e, 2
  {
    TreeIsShaped(e.value);
  }

  // ----- commas

  /** In the lines of any tree. */
  lemma {:induction false} TreeCommas(lc: Libc, v: Json, key: string, depth: nat, path: string)
    ensures WholeItems(Lines(lc, v, key, depth, path))
    decreases v, 1
  {
    hide WholeItems, ItemsLines, ScalarLine, QuotedLine, BracketLine;
    match v
    case Scalar(text) => ValueIsOne(lc, v, key, depth, path);
    case Quoted(raw) => ValueIsOne(lc, v, key, depth, path);
    case Bracket(isObj, _, items) =>
      ItemsCommas(lc, isObj, items, 0, depth + 1, path);
      BracketLinesStand(isObj, key, depth, path);
      WholeBracketed(BracketLine(JsonScan.Opening(isObj), key, depth, path), ItemsLines(lc, isObj, items, 0, depth + 1, path),
                     BracketLine(Closing(isObj), "", depth, path));
  }

  lemma ValueIsOne(lc: Libc, v: Json, key: string, depth: nat, path: string)
    requires !v.Bracket?
    ensures WholeItems(Lines(lc, v, key, depth, path))
  {
    hide Copied, AtomNumeric, QuotedNumeric, WholeItems;
    WholeOne(Lines(lc, v, key, depth, path)[0]);
  }

  lemma BracketLinesStand(isObj: bool, key: string, depth: nat, path: string)
    ensures var open, close := BracketLine(JsonScan.Opening(isObj), key, depth, path), BracketLine(Closing(isObj), "", depth, path);
      OpensBracket(open) && !open.comma && EndsBracket(close) && !close.comma
  {
    assert "{"[0] == '{' && "}"[0] == '}' && "["[0] == '[' && "]"[0] == ']';
  }

  lemma {:induction false} ItemsCommas(lc: Libc, isObj: bool, items: seq<Item>, i: nat, depth: nat, path: string)
    ensures items == [] ==> ItemsLines(lc, isObj, items, i, depth, path) == []
    ensures items != [] ==> WholeItems(ItemsLines(lc, isObj, items, i, depth, path))
    decreases items, 0
  {
    hide ItemLines, WholeItems, MarkLast;
    if items != [] {
      var first, rest := ItemLines(lc, isObj, items[0], i, depth, path), ItemsLines(lc, isObj, items[1..], i + 1, depth, path);
      ItemCommas(lc, isObj, items[0], i, depth, path);
      ItemsCommas(lc, isObj, items[1..], i + 1, depth, path);
      if |items| > 1 { WholeJoined(first, rest); } else { assert first + [] == first; }
    }
  }

  lemma {:induction false} ItemCommas(lc: Libc, isObj: bool, e: Item, i: nat, depth: nat, path: string)
    ensures WholeItems(ItemLines(lc, isObj, e, i, depth, path))
    decreases e, 2
  {
    hide Lines, WholeItems, KeyShown, PathPush;
    TreeCommas(lc, e.value, if isObj then KeyShown(e.raw) else "", depth, PathPush(path, Segment(isObj, e, i)));
  }

  // ----- the numeric mark

  /** Written in base 16, which strtod takes and JSON does not. */
  predicate HexLike(s: string) {
    "0x" <= s || "0X" <= s || "+0x" <= s || "+0X" <= s || "-0x" <= s || "-0X" <= s
  }

  /** A line is marked as a number exactly when strtod takes all of its atom, or all of what
      stands between its quotes. */
  predicate NumberMarked(lc: Libc, l: Line) {
    l.numeric <==>
      match l.kind
      case Punct => false
      case Str => |l.val| >= 2 && l.val[0] == l.val[|l.val| - 1] == '\"' && lc.IsNumber(l.val[1..|l.val| - 1])
      case Atom => l.val != "" && !HexLike(l.val) && lc.IsNumber(l.val)
  }

  lemma AtomMarked(lc: Libc, val: string)
    ensures AtomNumeric(lc, val) <==> val != "" && !HexLike(val) && lc.IsNumber(val)
  {
    if val != "" {
      var p := if val[0] == '+' || val[0] == '-' then val[1..] else val;
      HexPrefixes(val);
    }
  }

  lemma HexPrefixes(val: string)
    requires val != ""
    ensures var p := if val[0] == '+' || val[0] == '-' then val[1..] else val;
      HexLike(val) <==> |p| >= 2 && p[0] == '0' && (p[1] == 'x' || p[1] == 'X')
  {
    var p := if val[0] == '+' || val[0] == '-' then val[1..] else val;
    if |p| >= 2 && p[0] == '0' && (p[1] == 'x' || p[1] == 'X') {
      var sign := val[..|val| - |p|];
      assert val[..|sign| + 2] == sign + [p[0], p[1]];
    }
  }

  lemma {:induction false} TreeNumbers(lc: Libc, v: Json, key: string, depth: nat, path: string)
    ensures forall l :: l in Lines(lc, v, key, depth, path) ==> NumberMarked(lc, l)
    decreases v, 1
  {
    hide Copied, AtomNumeric, HexLike, QuotedNumeric, ItemsLines;
    match v
    case Scalar(text) => ValueNumber(lc, v, key, depth, path);
    case Quoted(raw) => ValueNumber(lc, v, key, depth, path);
    case Bracket(isObj, _, items) => ItemsNumbers(lc, isObj, items, 0, depth + 1, path);
  }

  lemma ValueNumber(lc: Libc, v: Json, key: string, depth: nat, path: string)
    requires !v.Bracket?
    ensures NumberMarked(lc, Lines(lc, v, key, depth, path)[0])
  {
    hide Copied, AtomNumeric, HexLike;
    if v.Scalar? { AtomMarked(lc, Copied(v.text, VAL_LEN)); }
  }

  lemma {:induction false} ItemsNumbers(lc: Libc, isObj: bool, items: seq<Item>, i: nat, depth: nat, path: string)
    ensures forall l :: l in ItemsLines(lc, isObj, items, i, depth, path) ==> NumberMarked(lc, l)
    decreases items, 0
  {
    hide Lines, NumberMarked, KeyShown, PathPush, Decimal, MarkLast;
    if items != [] {
      var e := items[0];
      TreeNumbers(lc, e.value, if isObj then KeyShown(e.raw) else "", depth, PathPush(path, Segment(isObj, e, i)));
      MarkedNumbers(lc, ItemLines(lc, isObj, e, i, depth, path));
      ItemsNumbers(lc, isObj, items[1..], i + 1, depth, path);
    }
  }

  lemma MarkedNumbers(lc: Libc, ls: seq<Line>)
    requires forall l :: l in ls ==> NumberMarked(lc, l)
    ensures forall l :: l in MarkLast(ls) ==> NumberMarked(lc, l)
  {
    hide HexLike;
    forall l | l in MarkLast(ls)
      ensures NumberMarked(lc, l)
    {
      var k :| 0 <= k < |ls| && MarkLast(ls)[k] == l;
      assert ls[k].(comma := l.comma) == l && ls[k] in ls;
    }
  }

  // ----- the statements about the formatter

  /** Commas in the lines of every printed tree, cut or not. */
  lemma CommasShown(lc: Libc, before: string, v: Json, after: string)
    requires Wf(v) && FitsDepth(v, 0) && AllWs(before) && AllWs(after)
    ensures CommasStandIn(FmtValue(lc, before + Print(v, after), [], "", 0, "").lines)
  {
    hide FmtValue, Lines, Clipped, CommasStand, Print, CommasStandIn;
    TextIsShown(lc, before, v, after);
    TreeCommas(lc, v, "", 0, "");
    ClippedCommas(FmtValue(lc, before + Print(v, after), [], "", 0, "").lines, Lines(lc, v, "", 0, ""));
  }

  /** A text of RFC 8259 whose values and keys fit their columns and whose lines fit the table is
      shown so that the tree can be read back. */
  lemma TextReadsBack(lc: Libc, before: string, v: Json, after: string)
    requires JsonText(v) && FitsDepth(v, 0) && FitsColumns(v) && JsonSpace(before) && JsonSpace(after)
    ensures var ls := FmtValue(lc, before + Print(v, after), [], "", 0, "").lines;
      CommasStandIn(ls)
      && (|ls| < 2048 ==> Seen(ls) == Some(TreeOf(v)) && forall l :: l in ls ==> NumberMarked(lc, l))
  {
    hide FmtValue, Lines, CommasStand, Print, CommasStandIn, Seen, Rows, NumberMarked, FitsDepth, Wf;
    TextIsWf(v);
    SpaceIsWs(before);
    SpaceIsWs(after);
    TextIsShown(lc, before, v, after);
    CommasShown(lc, before, v, after);
    TreeRows(lc, v, "", 0, "");
    TreeIsShaped(v);
    TreeNumbers(lc, v, "", 0, "");
    SeenBack(Lines(lc, v, "", 0, ""), TreeOf(v));
  }
}
