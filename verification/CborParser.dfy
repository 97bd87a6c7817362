/** The decoder of src/model/cbor_pp.c as functions from bytes to trees, and the proof that
    what it accepts is exactly the grammar. */
module CborParser {
  import opened Text
  import opened CborGrammar

  datatype Parsed<+T> = Fail | Ok(value: T, rest: seq<byte>)

  datatype Head = Head(major: nat, info: nat, arg: nat, indefinite: bool)

  function WidthOf(info: nat): Width {
    if info == 24 then W1 else if info == 25 then W2 else if info == 26 then W4 else if info == 27 then W8 else Imm
  }

  predicate WfHead(h: Head) {
    && h.major < 8
    && (h.info <= 27 || h.info == 31)
    && (h.indefinite <==> h.info == 31)
    && (!h.indefinite ==> Fits(WidthOf(h.info), h.arg))
    && (h.info < 24 ==> h.arg == h.info)
  }

  function FromBigEndian(s: seq<byte>): nat {
    if s == [] then 0 else 256 * FromBigEndian(s[..|s| - 1]) + s[|s| - 1]
  }

  lemma {:induction false} FromBigEndianBound(s: seq<byte>)
    ensures FromBigEndian(s) < Pow256(|s|)
    ensures BigEndian(FromBigEndian(s), |s|) == s
  {
    if s != [] {
      FromBigEndianBound(s[..|s| - 1]);
      assert s == s[..|s| - 1] + [s[|s| - 1]];
    }
  }

  lemma {:induction false} FromBigEndianInverse(n: nat, k: nat)
    requires n < Pow256(k)
    ensures FromBigEndian(BigEndian(n, k)) == n
  {
    if k > 0 {
      FromBigEndianInverse(n / 256, k - 1);
      var s := BigEndian(n, k);
      assert s[..|s| - 1] == BigEndian(n / 256, k - 1);
    }
  }

  function ReadHead(s: seq<byte>): (r: Parsed<Head>)
    ensures r.Ok? ==> WfHead(r.value) && |r.rest| < |s|
  {
    if s == [] then Fail
    else
      var major, info := s[0] / 32, s[0] % 32;
      var k := ByteCount(WidthOf(info));
      if info < 24 then Ok(Head(major, info, info, false), s[1..])
      else if info == 31 then Ok(Head(major, info, 0, true), s[1..])
      else if info > 27 || |s| - 1 < k then Fail
      else
        FromBigEndianBound(s[1..1 + k]);
        Ok(Head(major, info, FromBigEndian(s[1..1 + k]), false), s[1 + k..])
  }

  function ParseChunk(w: Width, n: nat, s: seq<byte>): (r: Parsed<Chunk>)
    ensures r.Ok? ==> |r.rest| <= |s|
  {
    if n > |s| then Fail else Ok(Chunk(w, s[..n]), s[n..])
  }

  function ParseChunks(major: nat, s: seq<byte>): (r: Parsed<seq<Chunk>>)
    ensures r.Ok? ==> |r.rest| < |s|
    decreases |s|
  {
    match ReadHead(s)
    case Fail => Fail
    case Ok(h, s1) =>
      if h.major == 7 && h.info == 31 then Ok([], s1)
      else if h.major != major || h.indefinite then Fail
      else match ParseChunk(WidthOf(h.info), h.arg, s1)
        case Fail => Fail
        case Ok(c, s2) =>
          match ParseChunks(major, s2)
          case Fail => Fail
          case Ok(cs, s3) => Ok([c] + cs, s3)
  }

  function ParseBody(h: Head, s: seq<byte>): (r: Parsed<Body>)
    ensures r.Ok? ==> |r.rest| <= |s|
  {
    if h.indefinite then
      match ParseChunks(h.major, s)
      case Fail => Fail
      case Ok(cs, s1) => Ok(Run(cs), s1)
    else
      match ParseChunk(WidthOf(h.info), h.arg, s)
      case Fail => Fail
      case Ok(c, s1) => Ok(Whole(c), s1)
  }

  function ParseScalar(h: Head, s: seq<byte>): (r: Parsed<Scalar>)
    ensures r.Ok? ==> |r.rest| <= |s|
  {
    if h.major <= 1 then
      if h.indefinite then Fail else Ok(Int(h.major == 1, WidthOf(h.info), h.arg), s)
    else if h.major <= 3 then
      match ParseBody(h, s)
      case Fail => Fail
      case Ok(b, s1) => Ok(String(h.major == 3, b), s1)
    else if h.major != 7 || h.info == 31 then Fail
    else if h.info < 24 then Ok(Simple(h.info), s)
    else if h.info == 24 then (if h.arg < 32 then Fail else Ok(SimpleByte(h.arg), s))
    else Ok(Float(WidthOf(h.info), h.arg), s)
  }

  /** A map key is an untagged scalar. */
  function ParseKey(s: seq<byte>): (r: Parsed<Scalar>)
    ensures r.Ok? ==> |r.rest| < |s|
  {
    match ReadHead(s)
    case Fail => Fail
    case Ok(h, s1) => if 4 <= h.major <= 6 then Fail else ParseScalar(h, s1)
  }

  /** One item at container depth `depth` under `tags` tags. */
  function ParseItem(s: seq<byte>, depth: nat, tags: nat): (r: Parsed<Item>)
    ensures r.Ok? ==> |r.rest| < |s|
    decreases |s|, 0
  {
    match ReadHead(s)
    case Fail => Fail
    case Ok(h, s1) =>
      if h.major == 6 then
        if h.indefinite || tags >= MAX_TAGS then Fail
        else match ParseItem(s1, depth, tags + 1)
          case Fail => Fail
          case Ok(it, s2) => Ok(Tagged(WidthOf(h.info), h.arg, it), s2)
      else if h.major == 4 || h.major == 5 then
        if depth + 1 > MAX_NESTING then Fail
        else match ParseEntries(h.major == 5, if h.indefinite then None else Some(h.arg), s1, depth + 1)
          case Fail => Fail
          case Ok(es, s2) =>
            Ok(Container(h.major == 5, if h.indefinite then Open else Counted(WidthOf(h.info)), es), s2)
      else
        match ParseScalar(h, s1)
        case Fail => Fail
        case Ok(sc, s2) => Ok(Leaf(sc), s2)
  }

  /** `left` more entries, or entries up to a break when `left` is None. */
  function ParseEntries(isMap: bool, left: Option<nat>, s: seq<byte>, depth: nat): (r: Parsed<seq<Entry>>)
    ensures r.Ok? ==> |r.rest| <= |s|
    ensures r.Ok? && left.Some? ==>
      |r.value| == left.value && |s| - |r.rest| >= if isMap then 2 * left.value else left.value
    decreases |s|, 2
  {
    if left == Some(0) then Ok([], s)
    else if left.None? && s == [] then Fail
    else if left.None? && s[0] == BREAK then Ok([], s[1..])
    else match ParseEntry(isMap, s, depth)
      case Fail => Fail
      case Ok(e, s1) =>
        match ParseEntries(isMap, if left.Some? then Some(left.value - 1) else None, s1, depth)
        case Fail => Fail
        case Ok(es, s2) => Ok([e] + es, s2)
  }

  function ParseEntry(isMap: bool, s: seq<byte>, depth: nat): (r: Parsed<Entry>)
    ensures r.Ok? ==> |s| - |r.rest| >= if isMap then 2 else 1
    decreases |s|, 1
  {
    if isMap then
      match ParseKey(s)
      case Fail => Fail
      case Ok(k, s1) =>
        match ParseItem(s1, depth, 0)
        case Fail => Fail
        case Ok(it, s2) => Ok(Entry(Some(k), it), s2)
    else
      match ParseItem(s, depth, 0)
      case Fail => Fail
      case Ok(it, s1) => Ok(Entry(None, it), s1)
  }

  // ----- the limits, threaded the way the decoder checks them

  predicate Within(it: Item, depth: nat, tags: nat)
    decreases it
  {
    match it
    case Leaf(_) => true
    case Tagged(_, _, item) => tags < MAX_TAGS && Within(item, depth, tags + 1)
    case Container(_, _, es) => depth + 1 <= MAX_NESTING && forall i :: 0 <= i < |es| ==> EntryWithin(es[i], depth + 1)
  }

  predicate EntryWithin(e: Entry, depth: nat)
    decreases e
  {
    Within(e.value, depth, 0)
  }

  lemma {:induction false} WithinMeasures(it: Item, depth: nat, tags: nat)
    ensures Within(it, depth, tags) <==>
      && (Nesting(it) == 0 || depth + Nesting(it) <= MAX_NESTING)
      && (TagsOn(it) == 0 || tags + TagsOn(it) <= MAX_TAGS)
      && TagRun(it) <= MAX_TAGS
    decreases it, 1
  {
    match it
    case Leaf(_) =>
    case Tagged(_, _, item) => WithinMeasures(item, depth, tags + 1);
    case Container(_, _, es) => EntriesWithinMeasures(es, depth + 1);
  }

  lemma {:induction false} EntriesWithinMeasures(es: seq<Entry>, depth: nat)
    ensures (forall i :: 0 <= i < |es| ==> EntryWithin(es[i], depth)) <==>
      && (EntriesNesting(es) == 0 || depth + EntriesNesting(es) <= MAX_NESTING)
      && EntriesTagRun(es) <= MAX_TAGS
    decreases es, 0
  {
    if es != [] {
      EntryWithinMeasures(es[0], depth);
      EntriesWithinMeasures(es[1..], depth);
      assert es == [es[0]] + es[1..];
    }
  }

  lemma {:induction false} EntryWithinMeasures(e: Entry, depth: nat)
    ensures EntryWithin(e, depth) <==>
      && (EntryNesting(e) == 0 || depth + EntryNesting(e) <= MAX_NESTING)
      && EntryTagRun(e) <= MAX_TAGS
    decreases e, 2
  {
    WithinMeasures(e.value, depth, 0);
    TagsOnBound(e.value);
  }

  lemma TagsOnBound(it: Item)
    ensures TagsOn(it) <= TagRun(it)
  {
  }

  // ----- everything parsed is in the grammar

  lemma BigEndianSound(s: seq<byte>, k: nat)
    requires k < |s|
    ensures var n := FromBigEndian(s[1..1 + k]);
      n < Pow256(k) && s == [s[0]] + BigEndian(n, k) + s[1 + k..]
  {
    FromBigEndianBound(s[1..1 + k]);
    assert s == [s[0]] + s[1..1 + k] + s[1 + k..];
  }

  lemma HeadSound(s: seq<byte>)
    requires ReadHead(s).Ok?
    ensures var Ok(h, rest) := ReadHead(s);
      s == if h.indefinite then EncodeOpen(h.major, rest) else EncodeHead(h.major, WidthOf(h.info), h.arg, rest)
  {
    hide FromBigEndian, Pow256;
    var info := s[0] % 32;
    assert s[0] == 32 * (s[0] / 32) + info;
    if 24 <= info <= 27 {
      BigEndianSound(s, ByteCount(WidthOf(info)));
    }
  }

  lemma ChunkSound(w: Width, n: nat, s: seq<byte>)
    requires ParseChunk(w, n, s).Ok?
    ensures var Ok(c, rest) := ParseChunk(w, n, s); s == c.data + rest && |c.data| == n && c.w == w
  {
    assert s == s[..n] + s[n..];
  }

  lemma {:induction false} ChunksSound(major: nat, s: seq<byte>)
    requires 2 <= major <= 3 && ParseChunks(major, s).Ok?
    ensures var Ok(cs, rest) := ParseChunks(major, s);
      && (forall i :: 0 <= i < |cs| ==> WfChunk(cs[i]))
      && s == EncodeChunks(major == 3, cs, rest)
    decreases |s|
  {
    hide ReadHead, EncodeHead, BigEndian, FromBigEndian;
    HeadSound(s);
    var Ok(h, s1) := ReadHead(s);
    if !(h.major == 7 && h.info == 31) {
      ChunkSound(WidthOf(h.info), h.arg, s1);
      var Ok(c, s2) := ParseChunk(WidthOf(h.info), h.arg, s1);
      ChunksSound(major, s2);
      var Ok(cs, _) := ParseChunks(major, s2);
      assert ([c] + cs)[1..] == cs;
    }
  }

  lemma ScalarSound(s: seq<byte>)
    requires ParseKey(s).Ok?
    ensures var Ok(sc, rest) := ParseKey(s); WfScalar(sc) && s == EncodeScalar(sc, rest)
  {
    hide ReadHead, EncodeHead, BigEndian, FromBigEndian;
    HeadSound(s);
    var Ok(h, s1) := ReadHead(s);
    if 2 <= h.major <= 3 {
      if h.indefinite {
        ChunksSound(h.major, s1);
      } else {
        ChunkSound(WidthOf(h.info), h.arg, s1);
      }
    }
  }

  lemma {:induction false} ItemSound(s: seq<byte>, depth: nat, tags: nat)
    requires ParseItem(s, depth, tags).Ok?
    ensures var Ok(it, rest) := ParseItem(s, depth, tags);
      WfItem(it) && Within(it, depth, tags) && s == EncodeItem(it, rest)
    decreases |s|, 0
  {
    HeadSound(s);
    var Ok(h, s1) := ReadHead(s);
    if h.major == 6 {
      ItemSound(s1, depth, tags + 1);
    } else if 4 <= h.major <= 5 {
      EntriesSound(h.major == 5, if h.indefinite then None else Some(h.arg), s1, depth + 1);
    } else {
      ScalarSound(s);
    }
  }

  lemma {:induction false} EntriesSound(isMap: bool, left: Option<nat>, s: seq<byte>, depth: nat)
    requires ParseEntries(isMap, left, s, depth).Ok?
    ensures var Ok(es, rest) := ParseEntries(isMap, left, s, depth);
      && (forall i :: 0 <= i < |es| ==> WfEntry(isMap, es[i]) && EntryWithin(es[i], depth))
      && s == EncodeEntries(isMap, es, if left.None? then EncodeOpen(7, rest) else rest)
    decreases |s|, 2
  {
    if left == Some(0) || (left.None? && s[0] == BREAK) {
    } else {
      EntrySound(isMap, s, depth);
      var Ok(e, s1) := ParseEntry(isMap, s, depth);
      var left' := if left.Some? then Some(left.value - 1) else None;
      EntriesSound(isMap, left', s1, depth);
      var Ok(es, _) := ParseEntries(isMap, left', s1, depth);
      assert ([e] + es)[1..] == es;
    }
  }

  lemma {:induction false} EntrySound(isMap: bool, s: seq<byte>, depth: nat)
    requires ParseEntry(isMap, s, depth).Ok?
    ensures var Ok(e, rest) := ParseEntry(isMap, s, depth);
      WfEntry(isMap, e) && EntryWithin(e, depth) && s == EncodeEntry(isMap, e, rest)
    decreases |s|, 1
  {
    if isMap {
      ScalarSound(s);
      ItemSound(ParseKey(s).rest, depth, 0);
    } else {
      ItemSound(s, depth, 0);
    }
  }

  // ----- everything in the grammar is parsed back

  lemma BigEndianComplete(first: byte, n: nat, k: nat, tail: seq<byte>)
    requires n < Pow256(k)
    ensures var s := [first] + BigEndian(n, k) + tail;
      s[0] == first && FromBigEndian(s[1..1 + k]) == n && s[1 + k..] == tail
  {
    var s := [first] + BigEndian(n, k) + tail;
    assert s[1..1 + k] == BigEndian(n, k);
    FromBigEndianInverse(n, k);
  }

  lemma HeadComplete(major: nat, w: Width, n: nat, tail: seq<byte>)
    requires major < 8 && Fits(w, n)
    ensures ReadHead(EncodeHead(major, w, n, tail)) == Ok(Head(major, InfoOf(w, n), n, false), tail)
    ensures EncodeHead(major, w, n, tail)[0] == 32 * major + InfoOf(w, n) != BREAK
    ensures WidthOf(InfoOf(w, n)) == w
  {
    hide BigEndian, FromBigEndian;
    if !w.Imm? {
      BigEndianComplete(32 * major + InfoOf(w, n), n, ByteCount(w), tail);
    }
  }

  lemma OpenComplete(major: nat, tail: seq<byte>)
    requires major < 8
    ensures ReadHead(EncodeOpen(major, tail)) == Ok(Head(major, 31, 0, true), tail)
  {
    assert EncodeOpen(major, tail)[1..] == tail;
  }

  lemma ChunkComplete(c: Chunk, tail: seq<byte>)
    ensures ParseChunk(c.w, |c.data|, c.data + tail) == Ok(c, tail)
  {
  }

  lemma {:induction false} ChunksComplete(major: nat, cs: seq<Chunk>, tail: seq<byte>)
    requires 2 <= major <= 3 && forall i :: 0 <= i < |cs| ==> WfChunk(cs[i])
    ensures ParseChunks(major, EncodeChunks(major == 3, cs, tail)) == Ok(cs, tail)
  {
    hide ReadHead, EncodeHead, BigEndian, FromBigEndian;
    if cs == [] {
      OpenComplete(7, tail);
    } else {
      var more := EncodeChunks(major == 3, cs[1..], tail);
      HeadComplete(major, cs[0].w, |cs[0].data|, cs[0].data + more);
      ChunkComplete(cs[0], more);
      ChunksComplete(major, cs[1..], tail);
      assert cs == [cs[0]] + cs[1..];
    }
  }

  lemma ScalarComplete(sc: Scalar, tail: seq<byte>)
    requires WfScalar(sc)
    ensures ParseKey(EncodeScalar(sc, tail)) == Ok(sc, tail)
    ensures EncodeScalar(sc, tail)[0] != BREAK
  {
    hide ReadHead, EncodeHead, BigEndian, FromBigEndian;
    match sc
    case Int(negative, w, n) => HeadComplete(if negative then 1 else 0, w, n, tail);
    case String(text, Whole(c)) =>
      HeadComplete(if text then 3 else 2, c.w, |c.data|, c.data + tail);
      ChunkComplete(c, tail);
    case String(text, Run(cs)) =>
      OpenComplete(if text then 3 else 2, EncodeChunks(text, cs, tail));
      ChunksComplete(if text then 3 else 2, cs, tail);
    case Simple(n) => HeadComplete(7, Imm, n, tail);
    case SimpleByte(n) => HeadComplete(7, W1, n, tail);
    case Float(w, bits) => HeadComplete(7, w, bits, tail);
  }

  lemma {:induction false} ItemComplete(it: Item, depth: nat, tags: nat, tail: seq<byte>)
    requires WfItem(it) && Within(it, depth, tags)
    ensures ParseItem(EncodeItem(it, tail), depth, tags) == Ok(it, tail)
    ensures EncodeItem(it, tail)[0] != BREAK
    decreases it, 1
  {
    hide ReadHead, EncodeHead, EncodeScalar, ParseScalar;
    match it
    case Leaf(sc) => ScalarComplete(sc, tail);
    case Tagged(w, n, item) =>
      HeadComplete(6, w, n, EncodeItem(item, tail));
      ItemComplete(item, depth, tags + 1, tail);
    case Container(_, _, _) => ContainerComplete(it, depth, tags, tail);
  }

  lemma {:induction false} ContainerComplete(it: Item, depth: nat, tags: nat, tail: seq<byte>)
    requires it.Container? && WfItem(it) && Within(it, depth, tags)
    ensures ParseItem(EncodeItem(it, tail), depth, tags) == Ok(it, tail)
    ensures EncodeItem(it, tail)[0] != BREAK
    decreases it, 0
  {
    hide ReadHead, EncodeHead, EncodeScalar, ParseScalar, ParseEntry, EncodeEntry;
    var m := if it.isMap then 5 else 4;
    if it.length.Counted? {
      HeadComplete(m, it.length.w, |it.entries|, EncodeEntries(it.isMap, it.entries, tail));
      EntriesComplete(it.isMap, Some(|it.entries|), it.entries, depth + 1, tail);
    } else {
      OpenComplete(m, EncodeEntries(it.isMap, it.entries, EncodeOpen(7, tail)));
      EntriesComplete(it.isMap, None, it.entries, depth + 1, tail);
    }
  }

  lemma {:induction false} EntriesComplete(isMap: bool, left: Option<nat>, es: seq<Entry>, depth: nat, tail: seq<byte>)
    requires forall i :: 0 <= i < |es| ==> WfEntry(isMap, es[i]) && EntryWithin(es[i], depth)
    requires left.Some? ==> left.value == |es|
    ensures ParseEntries(isMap, left, EncodeEntries(isMap, es, if left.None? then EncodeOpen(7, tail) else tail), depth)
         == Ok(es, tail)
    decreases es, 0
  {
    hide ReadHead, EncodeHead, EncodeScalar, ParseKey, WfItem, Within, ParseEntry, EncodeEntry;
    var stop := if left.None? then EncodeOpen(7, tail) else tail;
    if es == [] {
      assert EncodeOpen(7, tail)[1..] == tail;
    } else {
      EntryComplete(isMap, es[0], depth, EncodeEntries(isMap, es[1..], stop));
      EntriesComplete(isMap, if left.Some? then Some(|es| - 1) else None, es[1..], depth, tail);
      assert es == [es[0]] + es[1..];
    }
  }

  lemma {:induction false} EntryComplete(isMap: bool, e: Entry, depth: nat, tail: seq<byte>)
    requires WfEntry(isMap, e) && EntryWithin(e, depth)
    ensures ParseEntry(isMap, EncodeEntry(isMap, e, tail), depth) == Ok(e, tail)
    ensures EncodeEntry(isMap, e, tail)[0] != BREAK
    decreases e, 2
  {
    ItemComplete(e.value, depth, 0, tail);
    if isMap {
      ScalarComplete(e.key.value, EncodeItem(e.value, tail));
    }
  }

  // ----- the two main statements

  /** Acceptance is exactly the grammar, and the tree is the one whose bytes were given. */
  lemma AcceptanceIsGrammar(s: seq<byte>, it: Item)
    ensures ParseItem(s, 0, 0) == Ok(it, []) <==> IsItem(s, it)
  {
    WithinMeasures(it, 0, 0);
    TagsOnBound(it);
    if ParseItem(s, 0, 0) == Ok(it, []) {
      ItemSound(s, 0, 0);
    }
    if IsItem(s, it) {
      ItemComplete(it, 0, 0, []);
    }
  }

  /** No byte string is the encoding of two different items, nor does one encoding start another. */
  lemma EncodingIsPrefixFree(a: Item, b: Item, tail: seq<byte>)
    requires Supported(a) && Supported(b) && EncodeItem(a, []) == EncodeItem(b, tail)
    ensures a == b && tail == []
  {
    WithinMeasures(a, 0, 0);
    WithinMeasures(b, 0, 0);
    TagsOnBound(a);
    TagsOnBound(b);
    ItemComplete(a, 0, 0, []);
    ItemComplete(b, 0, 0, tail);
  }
}
