/** What one CBOR item looks like on screen: a fold over its tree.  The four text buffers of
    the decoder truncate; that is part of the picture and written out as Clip and CloseText. */
module CborRender {
  import opened Text
  import opened LineModel
  import opened CborGrammar

  function Repeat(c: char, n: nat): (r: string)
    ensures |r| == n
  {
    if n == 0 then "" else Repeat(c, n - 1) + [c]
  }

  function HexDigit(d: nat): char
    requires d < 16
  {
    "0123456789abcdef"[d]
  }

  /** One string byte: two hex digits, or one character with JSON escapes. */
  function ByteText(text: bool, b: byte): string {
    if !text then [HexDigit(b / 16), HexDigit(b % 16)]
    else if b == '\"' as int || b == '\\' as int then ['\\', b as char]
    else if b == '\n' as int then "\\n"
    else if b == '\r' as int then "\\r"
    else if b == '\t' as int then "\\t"
    else if b < 0x20 then "\\u00" + [HexDigit(b / 16), HexDigit(b % 16)]
    else [b as char]
  }

  function Content(text: bool, data: seq<byte>): string {
    if data == [] then "" else Content(text, data[..|data| - 1]) + ByteText(text, data[|data| - 1])
  }

  function ChunksData(cs: seq<Chunk>): seq<byte> {
    if cs == [] then [] else ChunksData(cs[..|cs| - 1]) + cs[|cs| - 1].data
  }

  /** The string a body denotes: how it was cut into chunks does not matter. */
  function BodyData(b: Body): seq<byte> {
    match b case Whole(c) => c.data case Run(cs) => ChunksData(cs)
  }

  /** A closing quote or parenthesis ends the text even where it is cut: it overwrites the last
      character. */
  function CloseText(s: string, c: char, cap: nat): (r: string)
    requires cap > 0 && |s| < cap
    ensures |r| < cap
    ensures cap >= 2 ==> r != "" && r[|r| - 1] == c && r[..|r| - 1] <= s
    ensures |s| + 1 < cap ==> |r| == |s| + 1
  {
    if |s| + 1 < cap then s + [c] else if cap >= 2 then s[..cap - 2] + [c] else s
  }

  function CloseAll(s: string, n: nat, cap: nat): (r: string)
    requires cap > 0 && |s| < cap
    ensures |r| < cap
  {
    if n == 0 then s else CloseText(CloseAll(s, n - 1, cap), ')', cap)
  }

  function SimpleName(n: nat): string {
    if n == 20 then "false" else if n == 21 then "true" else if n == 22 then "null"
    else if n == 23 then "undefined" else "simple(" + Decimal(n) + ")"
  }

  function Quote(text: bool): char { if text then '\"' else '\'' }

  function ScalarText(lc: Libc, s: Scalar, cap: nat): (r: string)
    requires cap > 0
    ensures |r| < cap
  {
    match s
    case Int(negative, _, n) => Clip(if negative then "-" + Decimal(n + 1) else Decimal(n), cap)
    case String(text, body) =>
      CloseText(Clip((if text then "\"" else "h'") + Content(text, BodyData(body)), cap), Quote(text), cap)
    case Simple(n) => Clip(SimpleName(n), cap)
    case SimpleByte(n) => Clip("simple(" + Decimal(n) + ")", cap)
    case Float(w, bits) => Clip(lc.floatText(ByteCount(w), bits), cap)
  }

  function ScalarKind(s: Scalar): Kind {
    if s.String? && s.text then Str else Atom
  }

  /** Exponent bits not all ones. */
  predicate FiniteBits(w: Width, bits: nat) {
    match w
    case W2 => bits / 0x400 % 0x20 != 0x1f
    case W4 => bits / 0x80_0000 % 0x100 != 0xff
    case _ => bits / 0x10_0000_0000_0000 % 0x800 != 0x7ff
  }

  predicate ScalarNumeric(lc: Libc, s: Scalar, text: string) {
    s.Int? || (s.Float? && FiniteBits(s.w, s.bits)) || (s.String? && s.text && QuotedNumeric(lc, text))
  }

  /** A map key as shown and pathed: text without its quotes, anything else as a value. */
  function KeyText(lc: Libc, s: Scalar): (r: string)
    ensures |r| < KEY_LEN
  {
    if s.String? && s.text then Clip(Content(true, BodyData(s.body)), KEY_LEN) else ScalarText(lc, s, KEY_LEN)
  }

  function LeafLine(lc: Libc, s: Scalar, key: string, prefix: string, tags: nat, depth: nat, path: string): Line {
    var text := ScalarText(lc, s, VAL_LEN);
    var val := CloseAll(Clip(prefix + text, VAL_LEN), tags, VAL_LEN);
    MkLine(depth, path, key, val, ScalarKind(s), ScalarNumeric(lc, s, text) && tags == 0)
  }

  function OpenLine(isMap: bool, length: Length, key: string, prefix: string, depth: nat, path: string): Line {
    MkLine(depth, path, key, prefix + (if isMap then "{" else "[") + (if length.Open? then "_" else ""), Punct, false)
  }

  function CloseLine(isMap: bool, tags: nat, depth: nat, path: string): Line {
    MkLine(depth, path, "", (if isMap then "}" else "]") + Repeat(')', tags), Punct, false)
  }

  /** The lines of one item.  `prefix` is the "n(" of each of the `tags` tags around it. */
  function ItemLines(lc: Libc, it: Item, key: string, prefix: string, tags: nat, depth: nat, path: string): (r: seq<Line>)
    ensures |r| > 0
    decreases it, 1
  {
    match it
    case Leaf(s) => [LeafLine(lc, s, key, prefix, tags, depth, path)]
    case Tagged(_, n, item) => ItemLines(lc, item, key, prefix + Decimal(n) + "(", tags + 1, depth, path)
    case Container(isMap, length, es) =>
      [OpenLine(isMap, length, key, prefix, depth, path)]
      + EntriesLines(lc, isMap, es, depth + 1, path)
      + [CloseLine(isMap, tags, depth, path)]
  }

  /** The entries of a container, each but the last followed by a comma. */
  function EntriesLines(lc: Libc, isMap: bool, es: seq<Entry>, depth: nat, path: string): seq<Line>
    decreases es, 0
  {
    if es == [] then []
    else
      MarkLast(EntriesLines(lc, isMap, es[..|es| - 1], depth, path))
      + EntryLines(lc, isMap, es[|es| - 1], |es| - 1, depth, path)
  }

  /** Entry number `i`; its path segment is the key, or the index in an array. */
  function EntryLines(lc: Libc, isMap: bool, e: Entry, i: nat, depth: nat, path: string): (r: seq<Line>)
    ensures |r| > 0
    decreases e, 2
  {
    var seg := if e.key.Some? then KeyText(lc, e.key.value) else Clip(Decimal(i), KEY_LEN);
    ItemLines(lc, e.value, if isMap then seg else "", "", 0, depth, PathPush(path, seg))
  }

  function Render(lc: Libc, it: Item): seq<Line> {
    ItemLines(lc, it, "", "", 0, 0, "")
  }

  // ----- facts the decoder's buffers rely on

  lemma ClipConcat(a: string, b: string, cap: nat)
    requires cap > 0
    ensures Clip(Clip(a, cap) + b, cap) == Clip(a + b, cap)
  {
  }

  lemma ContentSnoc(text: bool, a: seq<byte>, b: byte)
    ensures Content(text, a + [b]) == Content(text, a) + ByteText(text, b)
  {
    assert (a + [b])[..|a|] == a;
  }

  lemma {:induction false} ContentConcat(text: bool, a: seq<byte>, b: seq<byte>)
    ensures Content(text, a + b) == Content(text, a) + Content(text, b)
  {
    hide ByteText;
    if b == [] {
      assert a + b == a;
    } else {
      var b0, last := b[..|b| - 1], b[|b| - 1];
      ContentConcat(text, a, b0);
      assert a + b == (a + b0) + [last];
      ContentSnoc(text, a + b0, last);
      Assoc(Content(text, a), Content(text, b0), ByteText(text, last));
    }
  }

  // ----- what the picture does not show

  /** A scalar without the choices its encoder had: argument widths and chunks. */
  function PlainScalar(s: Scalar): Scalar {
    match s
    case Int(negative, _, n) => Int(negative, W8, n)
    case String(text, body) => String(text, Whole(Chunk(W8, BodyData(body))))
    case _ => s
  }

  /** An item without them. */
  function PlainItem(it: Item): Item
    decreases it, 1
  {
    match it
    case Leaf(s) => Leaf(PlainScalar(s))
    case Tagged(_, n, item) => Tagged(W8, n, PlainItem(item))
    case Container(isMap, length, es) => Container(isMap, if length.Open? then Open else Counted(W8), PlainEntries(es))
  }

  function PlainEntries(es: seq<Entry>): (r: seq<Entry>)
    ensures |r| == |es|
    decreases es, 0
  {
    if es == [] then [] else PlainEntries(es[..|es| - 1]) + [PlainEntry(es[|es| - 1])]
  }

  function PlainEntry(e: Entry): Entry
    decreases e, 2
  {
    Entry(if e.key.Some? then Some(PlainScalar(e.key.value)) else None, PlainItem(e.value))
  }

  lemma PlainScalarShown(lc: Libc, s: Scalar, cap: nat)
    requires cap > 0
    ensures ScalarText(lc, PlainScalar(s), cap) == ScalarText(lc, s, cap)
    ensures KeyText(lc, PlainScalar(s)) == KeyText(lc, s)
    ensures ScalarKind(PlainScalar(s)) == ScalarKind(s)
    ensures forall t :: ScalarNumeric(lc, PlainScalar(s), t) == ScalarNumeric(lc, s, t)
  {
    hide Content, CloseText, Clip, SimpleName;
  }

  lemma {:induction false} PlainItemShown(lc: Libc, it: Item, key: string, prefix: string, tags: nat, depth: nat, path: string)
    ensures ItemLines(lc, PlainItem(it), key, prefix, tags, depth, path) == ItemLines(lc, it, key, prefix, tags, depth, path)
    decreases it, 1
  {
    hide MkLine, ScalarText, ScalarNumeric, KeyText, CloseAll, Clip;
    match it
    case Leaf(s) => PlainScalarShown(lc, s, VAL_LEN);
    case Tagged(_, n, item) => PlainItemShown(lc, item, key, prefix + Decimal(n) + "(", tags + 1, depth, path);
    case Container(isMap, _, es) => PlainEntriesShown(lc, isMap, es, depth + 1, path);
  }

  lemma {:induction false} PlainEntriesShown(lc: Libc, isMap: bool, es: seq<Entry>, depth: nat, path: string)
    ensures EntriesLines(lc, isMap, PlainEntries(es), depth, path) == EntriesLines(lc, isMap, es, depth, path)
    decreases es, 0
  {
    hide EntryLines, PlainEntry, MarkLast;
    if es != [] {
      var n := |es| - 1;
      PlainEntriesShown(lc, isMap, es[..n], depth, path);
      PlainEntryShown(lc, isMap, es[n], n, depth, path);
      SplitConcat(PlainEntries(es[..n]), [PlainEntry(es[n])]);
    }
  }

  lemma {:induction false} PlainEntryShown(lc: Libc, isMap: bool, e: Entry, i: nat, depth: nat, path: string)
    ensures EntryLines(lc, isMap, PlainEntry(e), i, depth, path) == EntryLines(lc, isMap, e, i, depth, path)
    decreases e, 2
  {
    hide ItemLines, KeyText, PlainScalar, PathPush, Clip;
    if e.key.Some? { PlainScalarShown(lc, e.key.value, KEY_LEN); }
    var seg := if e.key.Some? then KeyText(lc, e.key.value) else Clip(Decimal(i), KEY_LEN);
    PlainItemShown(lc, e.value, if isMap then seg else "", "", 0, depth, PathPush(path, seg));
  }

  /** Two items that differ only in how strings are cut into chunks and how wide the heads are
      look the same. */
  lemma ChunkingIsInvisible(lc: Libc, a: Item, b: Item)
    requires PlainItem(a) == PlainItem(b)
    ensures Render(lc, a) == Render(lc, b)
  {
    PlainItemShown(lc, a, "", "", 0, 0, "");
    PlainItemShown(lc, b, "", "", 0, 0, "");
  }

  // ----- what closing several times keeps

  const PAREN: char := ')'

  /** Closing `n` times: nothing is lost while there is room, and otherwise the buffer is full
      and ends in at least one parenthesis. */
  lemma {:induction false} CloseAllIs(s: string, n: nat, cap: nat)
    requires cap >= 2 && |s| < cap
    ensures CloseAll(s, n, cap) ==
      if |s| + n < cap then s + Repeat(PAREN, n)
      else if |s| < cap - 1 then s + Repeat(PAREN, cap - 1 - |s|)
      else s[..cap - 2] + [PAREN]
  {
    hide CloseText, Repeat;
    if n == 0 {
      RepeatNone();
      assert s + "" == s;
    } else {
      CloseAllIs(s, n - 1, cap);
      if |s| + n < cap {
        CloseWithRoom(s, n, cap);
      } else if |s| < cap - 1 {
        CloseFull(s, cap);
      } else {
        CloseCut(s, cap);
      }
    }
  }

  lemma RepeatNone()
    ensures Repeat(PAREN, 0) == ""
  {
  }

  lemma CloseWithRoom(s: string, n: nat, cap: nat)
    requires 0 < n && |s| + n < cap
    ensures CloseText(s + Repeat(PAREN, n - 1), PAREN, cap) == s + Repeat(PAREN, n)
  {
    RepeatSplit(n);
    Assoc(s, Repeat(PAREN, n - 1), [PAREN]);
  }

  lemma CloseFull(s: string, cap: nat)
    requires |s| < cap - 1
    ensures var w := s + Repeat(PAREN, cap - 1 - |s|); CloseText(w, PAREN, cap) == w
  {
    var k := cap - 2 - |s|;
    RepeatSplit(k + 1);
    Assoc(s, Repeat(PAREN, k), [PAREN]);
    SplitConcat(s + Repeat(PAREN, k), [PAREN]);
  }

  lemma CloseCut(s: string, cap: nat)
    requires cap >= 2 && |s| == cap - 1
    ensures CloseText(s, PAREN, cap) == s[..cap - 2] + [PAREN]
    ensures CloseText(s[..cap - 2] + [PAREN], PAREN, cap) == s[..cap - 2] + [PAREN]
    ensures Repeat(PAREN, 0) == "" && s + "" == s
  {
    SplitConcat(s[..cap - 2], [PAREN]);
  }

  lemma RepeatSplit(n: nat)
    requires n > 0
    ensures Repeat(PAREN, n) == Repeat(PAREN, n - 1) + [PAREN]
  {
  }

  /** A tagged scalar is shown whole, with every parenthesis, exactly when it fits. */
  lemma TagsShownIffFitting(prefix: string, text: string, tags: nat, cap: nat)
    requires cap >= 2
    ensures CloseAll(Clip(prefix + text, cap), tags, cap) == prefix + text + Repeat(PAREN, tags)
      <==> |prefix| + |text| + tags < cap
  {
    if |prefix + text| < cap { CloseAllIs(prefix + text, tags, cap); }
  }

  /** The last character of the value, a string's closing quote, is still there exactly when
      the value is cut neither by the buffer nor by a parenthesis that is not its own end. */
  lemma ValueShownIffFitting(prefix: string, text: string, tags: nat, cap: nat)
    requires cap >= 2 && text != ""
    ensures prefix + text <= CloseAll(Clip(prefix + text, cap), tags, cap)
      <==> |prefix| + |text| + (if tags > 0 && text[|text| - 1] != PAREN then 1 else 0) < cap
  {
    hide CloseAll, Repeat;
    var s := prefix + text;
    assert s[|s| - 1] == text[|text| - 1];
    if |s| < cap {
      CloseAllIs(s, tags, cap);
      if |s| == cap - 1 {
        RepeatNone();
        LastReplaced(s, PAREN);
      }
    }
  }

  lemma LastReplaced(s: string, c: char)
    requires s != ""
    ensures s <= s[..|s| - 1] + [c] <==> s[|s| - 1] == c
    ensures s + "" == s
  {
    assert s == s[..|s| - 1] + [s[|s| - 1]];
    assert (s[..|s| - 1] + [c])[|s| - 1] == c;
  }

  /** So a text that fills the buffer loses its closing quote under a tag. */
  lemma LongTaggedTextLosesItsQuote(lc: Libc, s: Scalar, prefix: string, tags: nat)
    requires s.String? && tags > 0
    requires |prefix| + |ScalarText(lc, s, VAL_LEN)| >= VAL_LEN - 1
    ensures var text := ScalarText(lc, s, VAL_LEN);
      && text != "" && text[|text| - 1] == Quote(s.text)
      && !(prefix + text <= CloseAll(Clip(prefix + text, VAL_LEN), tags, VAL_LEN))
  {
    hide Content, CloseAll, Clip;
    var text := ScalarText(lc, s, VAL_LEN);
    ValueShownIffFitting(prefix, text, tags, VAL_LEN);
  }

  /** n letters. */
  function Letters(n: nat): (r: seq<byte>)
    ensures |r| == n && forall i :: 0 <= i < n ==> r[i] == 97
  {
    seq(n, _ => 97)
  }

  lemma {:induction false} PlainContent(n: nat)
    ensures Content(true, Letters(n)) == Repeat('a', n)
  {
    if n > 0 {
      PlainContent(n - 1);
      assert Letters(n)[..n - 1] == Letters(n - 1);
      assert ByteText(true, 97) == "a";
    }
  }

  lemma {:induction false} RepeatPrefix(c: char, n: nat, k: nat)
    requires k <= n
    ensures Repeat(c, n)[..k] == Repeat(c, k)
  {
    if k < n {
      RepeatPrefix(c, n - 1, k);
      SplitConcat(Repeat(c, n - 1), [c]);
    }
  }

  /** The text string of n letters. */
  function LongString(n: nat): Scalar { String(true, Whole(Chunk(W2, Letters(n)))) }

  /** A text of that many letters fills its buffer. */
  lemma LongText(lc: Libc, n: nat)
    requires n >= VAL_LEN - 3
    ensures ScalarText(lc, LongString(n), VAL_LEN) == "\"" + Repeat('a', VAL_LEN - 3) + "\""
  {
    hide Content, Repeat;
    PlainContent(n);
    var m := VAL_LEN - 3;
    RepeatPrefix('a', n, m);
    var full := "\"" + Repeat('a', n);
    assert full[..m + 1] == "\"" + Repeat('a', n)[..m];
    if n == m { assert full[..m + 1] == full; }
    var cut := Clip(full, VAL_LEN);
    assert cut[..m + 1] == full[..m + 1];
    assert CloseText(cut, '\"', VAL_LEN) == cut[..m + 1] + "\"";
  }

  /** How tag 0 opens. */
  const TAG0: string := "0("

  /** Tag 0 on a text of 269 letters or more: the line ends in a letter and the parenthesis,
      without a closing quote. */
  lemma LostQuote(lc: Libc, n: nat)
    requires VAL_LEN - 3 <= n < 0x1_0000
    ensures var it := Tagged(Imm, 0, Leaf(LongString(n)));
      && Supported(it)
      && |Render(lc, it)| == 1
      && Render(lc, it)[0].val == TAG0 + "\"" + Repeat('a', VAL_LEN - 5) + [PAREN]
  {
    hide Repeat, ScalarText, CloseAll;
    LongText(lc, n);
    var s := LongString(n);
    var m := VAL_LEN - 5;
    var text := "\"" + Repeat('a', m + 2) + "\"";
    RepeatPrefix('a', m + 2, m);
    var whole := "0(" + text;
    var cut := Clip(whole, VAL_LEN);
    CloseAllIs(cut, 1, VAL_LEN);
    assert cut[..VAL_LEN - 2] == "0(\"" + Repeat('a', m + 2)[..m];
    TwoBytes(n);
    TaggedLeaf(lc, s, text);
  }

  lemma TwoBytes(n: nat)
    requires n < 0x1_0000
    ensures Supported(Tagged(Imm, 0, Leaf(LongString(n))))
  {
    assert Pow256(2) == 0x1_0000;
    var leaf := Leaf(LongString(n));
    assert WfItem(leaf) && TagsOn(leaf) == TagRun(leaf) == Nesting(leaf) == 0;
  }

  lemma TaggedLeaf(lc: Libc, s: Scalar, text: string)
    requires ScalarText(lc, s, VAL_LEN) == text
    ensures var ls := Render(lc, Tagged(Imm, 0, Leaf(s)));
      |ls| == 1 && ls[0].val == CloseAll(Clip(TAG0 + text, VAL_LEN), 1, VAL_LEN)
  {
    hide ScalarText, CloseAll;
    assert "" + Decimal(0) + "(" == "0(";
    assert ItemLines(lc, Leaf(s), "", "0(", 1, 0, "") == [LeafLine(lc, s, "", "0(", 1, 0, "")];
  }
}
