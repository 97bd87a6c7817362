/** The wire grammar of RFC 8949 as syntax trees and their bytes, written without any
    decoder in mind: a byte string is well formed when it is the encoding of some tree. */
module CborGrammar {
  import opened Text

  /** The five ways a head can carry its argument (section 3). */
  datatype Width = Imm | W1 | W2 | W4 | W8

  datatype Chunk = Chunk(w: Width, data: seq<byte>)

  /** A definite string, or a run of definite chunks ended by a break (section 3.2.3). */
  datatype Body = Whole(chunk: Chunk) | Run(chunks: seq<Chunk>)

  datatype Scalar =
    | Int(negative: bool, w: Width, n: nat)
    | String(text: bool, body: Body)
    | Simple(n: nat)      // one-byte simple value
    | SimpleByte(n: nat)  // two-byte simple value (section 3.3)
    | Float(w: Width, bits: nat)

  datatype Length = Counted(w: Width) | Open

  datatype Item =
    | Leaf(s: Scalar)
    | Container(isMap: bool, length: Length, entries: seq<Entry>)
    | Tagged(w: Width, n: nat, item: Item)

  /** A map pair, or an array element when there is no key. */
  datatype Entry = Entry(key: Option<Scalar>, value: Item)

  const BREAK: byte := 0xff

  function ByteCount(w: Width): nat {
    match w case Imm => 0 case W1 => 1 case W2 => 2 case W4 => 4 case W8 => 8
  }

  function Pow256(k: nat): (r: nat)
    ensures r > 0
  {
    if k == 0 then 1 else 256 * Pow256(k - 1)
  }

  /** The additional information of a head: the argument itself, or how many bytes carry it. */
  function InfoOf(w: Width, n: nat): nat {
    match w case Imm => n case W1 => 24 case W2 => 25 case W4 => 26 case W8 => 27
  }

  predicate Fits(w: Width, n: nat) {
    if w.Imm? then n < 24 else n < Pow256(ByteCount(w))
  }

  // ----- well-formedness and the decoder's three limits

  predicate WfChunk(c: Chunk) { Fits(c.w, |c.data|) }

  predicate WfScalar(s: Scalar) {
    match s
    case Int(_, w, n) => Fits(w, n)
    case String(_, Whole(c)) => WfChunk(c)
    case String(_, Run(cs)) => forall i :: 0 <= i < |cs| ==> WfChunk(cs[i])
    case Simple(n) => n < 24
    case SimpleByte(n) => 32 <= n < 256
    case Float(w, bits) => w in {W2, W4, W8} && Fits(w, bits)
  }

  predicate WfItem(it: Item) {
    match it
    case Leaf(s) => WfScalar(s)
    case Tagged(w, n, item) => Fits(w, n) && WfItem(item)
    case Container(isMap, length, es) =>
      && (length.Counted? ==> Fits(length.w, |es|))
      && forall i :: 0 <= i < |es| ==> WfEntry(isMap, es[i])
  }

  predicate WfEntry(isMap: bool, e: Entry)
    decreases e
  {
    && (e.key.Some? <==> isMap)
    && (e.key.Some? ==> WfScalar(e.key.value))
    && WfItem(e.value)
  }

  /** How many containers enclose the deepest innermost container, itself included. */
  function Nesting(it: Item): nat
    decreases it, 1
  {
    match it
    case Leaf(_) => 0
    case Tagged(_, _, item) => Nesting(item)
    case Container(_, _, es) => 1 + EntriesNesting(es)
  }

  function EntriesNesting(es: seq<Entry>): nat
    decreases es, 0
  {
    if es == [] then 0 else Max(EntryNesting(es[0]), EntriesNesting(es[1..]))
  }

  function EntryNesting(e: Entry): nat
    decreases e, 2
  {
    Nesting(e.value)
  }

  /** Tags stacked directly on the item. */
  function TagsOn(it: Item): nat {
    if it.Tagged? then 1 + TagsOn(it.item) else 0
  }

  /** The longest stack of directly nested tags anywhere in the item. */
  function TagRun(it: Item): nat
    decreases it, 1
  {
    match it
    case Leaf(_) => 0
    case Tagged(_, _, item) => Max(TagsOn(it), TagRun(item))
    case Container(_, _, es) => EntriesTagRun(es)
  }

  function EntriesTagRun(es: seq<Entry>): nat
    decreases es, 0
  {
    if es == [] then 0 else Max(EntryTagRun(es[0]), EntriesTagRun(es[1..]))
  }

  function EntryTagRun(e: Entry): nat
    decreases e, 2
  {
    TagRun(e.value)
  }

  const MAX_NESTING := 63
  const MAX_TAGS := 8

  /** The items the viewer promises to show. */
  predicate Supported(it: Item) {
    WfItem(it) && Nesting(it) <= 63 && TagRun(it) <= 8
  }

  // ----- bytes

  /** Big-endian with exactly k bytes. */
  function BigEndian(n: nat, k: nat): (r: seq<byte>)
    requires n < Pow256(k)
    ensures |r| == k
  {
    if k == 0 then [] else BigEndian(n / 256, k - 1) + [n % 256]
  }

  // Every encoder takes the bytes that follow, so that an item inside a longer input and an
  // item alone are the same definition.

  function EncodeHead(major: nat, w: Width, n: nat, tail: seq<byte>): (r: seq<byte>)
    requires major < 8 && Fits(w, n)
    ensures |r| == 1 + ByteCount(w) + |tail|
  {
    [32 * major + InfoOf(w, n)] + BigEndian(if w.Imm? then 0 else n, ByteCount(w)) + tail
  }

  /** The head of an indefinite-length item; with major 7 it is the break. */
  function EncodeOpen(major: nat, tail: seq<byte>): seq<byte>
    requires major < 8
  {
    [32 * major + 31] + tail
  }

  function EncodeChunk(text: bool, c: Chunk, tail: seq<byte>): seq<byte>
    requires WfChunk(c)
  {
    EncodeHead(if text then 3 else 2, c.w, |c.data|, c.data + tail)
  }

  function EncodeChunks(text: bool, cs: seq<Chunk>, tail: seq<byte>): (r: seq<byte>)
    requires forall i :: 0 <= i < |cs| ==> WfChunk(cs[i])
    ensures |r| > |tail|
  {
    if cs == [] then EncodeOpen(7, tail) else EncodeChunk(text, cs[0], EncodeChunks(text, cs[1..], tail))
  }

  function EncodeScalar(s: Scalar, tail: seq<byte>): (r: seq<byte>)
    requires WfScalar(s)
    ensures |r| > |tail|
  {
    match s
    case Int(negative, w, n) => EncodeHead(if negative then 1 else 0, w, n, tail)
    case String(text, Whole(c)) => EncodeChunk(text, c, tail)
    case String(text, Run(cs)) => EncodeOpen(if text then 3 else 2, EncodeChunks(text, cs, tail))
    case Simple(n) => EncodeHead(7, Imm, n, tail)
    case SimpleByte(n) => EncodeHead(7, W1, n, tail)
    case Float(w, bits) => EncodeHead(7, w, bits, tail)
  }

  function EncodeItem(it: Item, tail: seq<byte>): (r: seq<byte>)
    requires WfItem(it)
    ensures |r| > |tail|
    decreases it, 1
  {
    match it
    case Leaf(s) => EncodeScalar(s, tail)
    case Tagged(w, n, item) => EncodeHead(6, w, n, EncodeItem(item, tail))
    case Container(isMap, Counted(w), es) =>
      EncodeHead(if isMap then 5 else 4, w, |es|, EncodeEntries(isMap, es, tail))
    case Container(isMap, Open, es) =>
      EncodeOpen(if isMap then 5 else 4, EncodeEntries(isMap, es, EncodeOpen(7, tail)))
  }

  function EncodeEntries(isMap: bool, es: seq<Entry>, tail: seq<byte>): (r: seq<byte>)
    requires forall i :: 0 <= i < |es| ==> WfEntry(isMap, es[i])
    ensures |r| >= |tail|
    decreases es, 0
  {
    if es == [] then tail else EncodeEntry(isMap, es[0], EncodeEntries(isMap, es[1..], tail))
  }

  function EncodeEntry(isMap: bool, e: Entry, tail: seq<byte>): (r: seq<byte>)
    requires WfEntry(isMap, e)
    ensures |r| > |tail|
    decreases e, 2
  {
    if isMap then EncodeScalar(e.key.value, EncodeItem(e.value, tail)) else EncodeItem(e.value, tail)
  }

  /** `s` is exactly one item the viewer promises to show. */
  ghost predicate IsItem(s: seq<byte>, it: Item) {
    Supported(it) && EncodeItem(it, []) == s
  }

  // ----- examples of appendix A of RFC 8949

  lemma TwoFiftySix()
    ensures Pow256(0) == 1 && Pow256(1) == 256 && Pow256(2) == 0x1_0000 && Pow256(4) == 0x1_0000_0000
  {
    assert Pow256(3) == 0x100_0000;
  }

  lemma ExampleNumbers()
    ensures Fits(W4, 1000000) && EncodeScalar(Int(false, W4, 1000000), []) == [0x1a, 0x00, 0x0f, 0x42, 0x40]
    ensures Fits(W2, 999) && EncodeScalar(Int(true, W2, 999), []) == [0x39, 0x03, 0xe7]
    ensures EncodeScalar(Simple(20), []) == [0xf4] && EncodeScalar(Simple(21), []) == [0xf5]
    ensures EncodeScalar(Simple(22), []) == [0xf6] && EncodeScalar(Simple(23), []) == [0xf7]
    ensures Fits(W1, 255) && EncodeScalar(SimpleByte(255), []) == [0xf8, 0xff]
    ensures Fits(W2, 0x3c00) && EncodeScalar(Float(W2, 0x3c00), []) == [0xf9, 0x3c, 0x00]
  {
    TwoFiftySix();
    assert BigEndian(0, 0) == [];
    FourBytes();
    assert BigEndian(999, 2) == [0x03, 0xe7] by { assert BigEndian(3, 1) == [] + [3]; }
    assert BigEndian(255, 1) == [] + [255];
    assert BigEndian(0x3c00, 2) == [0x3c, 0x00] by { assert BigEndian(0x3c, 1) == [] + [0x3c]; }
  }

  lemma FourBytes()
    ensures 1000000 < Pow256(4) && BigEndian(1000000, 4) == [0x00, 0x0f, 0x42, 0x40]
  {
    TwoFiftySix();
    assert Pow256(3) == 0x100_0000;
    assert BigEndian(0, 1) == [] + [0];
    assert BigEndian(15, 2) == BigEndian(0, 1) + [15];
    assert BigEndian(3906, 3) == BigEndian(15, 2) + [0x42];
  }

  lemma ExampleStrings()
    ensures var s := String(false, Whole(Chunk(Imm, [1, 2, 3, 4]))); WfScalar(s) && EncodeScalar(s, []) == [0x44, 1, 2, 3, 4]
    ensures var s := String(true, Whole(Chunk(Imm, [0x49, 0x45, 0x54, 0x46])));
      WfScalar(s) && EncodeScalar(s, []) == [0x64, 0x49, 0x45, 0x54, 0x46]
    ensures var s := String(false, Run([Chunk(Imm, [1, 2]), Chunk(Imm, [3, 4, 5])]));
      WfScalar(s) && EncodeScalar(s, []) == [0x5f, 0x42, 1, 2, 0x43, 3, 4, 5, 0xff]
  {
    var a, b := Chunk(Imm, [1, 2]), Chunk(Imm, [3, 4, 5]);
    assert [a, b][1..] == [b] && [b][1..] == [];
    assert EncodeChunks(false, [b], []) == [0x43, 3, 4, 5, 0xff];
  }

  lemma ExampleItems()
    ensures var one, two := Leaf(Int(false, Imm, 1)), Leaf(Int(false, Imm, 2));
      var list := Container(false, Counted(Imm), [Entry(None, one), Entry(None, two)]);
      WfItem(list) && EncodeItem(list, []) == [0x82, 0x01, 0x02]
    ensures var one := Int(false, Imm, 1);
      var m := Container(true, Counted(Imm), [Entry(Some(one), Leaf(Int(false, Imm, 2)))]);
      WfItem(m) && EncodeItem(m, []) == [0xa1, 0x01, 0x02]
    ensures WfItem(Container(false, Open, [])) && EncodeItem(Container(false, Open, []), []) == [0x9f, 0xff]
    ensures Fits(W1, 32) && EncodeItem(Tagged(W1, 32, Leaf(String(true, Whole(Chunk(Imm, [0x61]))))), []) == [0xd8, 0x20, 0x61, 0x61]
  {
    TwoFiftySix();
    var e1, e2 := Entry(None, Leaf(Int(false, Imm, 1))), Entry(None, Leaf(Int(false, Imm, 2)));
    assert [e1, e2][1..] == [e2] && [e2][1..] == [];
    assert WfEntry(false, e1) && WfEntry(false, e2);
    assert EncodeEntries(false, [e2], []) == [0x02];
    assert EncodeEntry(false, e1, [0x02]) == [0x01, 0x02];
    assert EncodeEntries(false, [e1, e2], []) == [0x01, 0x02];
    var e := Entry(Some(Int(false, Imm, 1)), Leaf(Int(false, Imm, 2)));
    assert [e][1..] == [] && WfEntry(true, e);
    assert EncodeEntries(true, [e], []) == [0x01, 0x02];
    assert BigEndian(32, 1) == [] + [32];
  }
}
