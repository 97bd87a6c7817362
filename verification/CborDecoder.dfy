/** src/model/cbor_pp.c in its own form: a cursor over the bytes, text buffers filled
    character by character, and a line table appended to while descending. */
module CborDecoder {
  import opened Text
  import opened LineModel
  import opened CborGrammar
  import CborDisplay
  import CborParser
  import LineOutline
  import opened CborRender

  type Head = CborParser.Head

  const UINT64_MAX: nat := 0xffff_ffff_ffff_ffff
  const TAG_PREFIX_LEN := 192

  /** Bounded text builder. */
  class CborOut {
    var buf: string
    const cap: nat

    ghost predicate Valid()
      reads this
    {
      |buf| < cap
    }

    constructor (cap: nat)
      requires cap > 0
      ensures Valid() && buf == "" && this.cap == cap
    {
      this.cap := cap;
      buf := "";
    }

    method Ch(c: char)
      requires Valid()
      modifies this
      ensures Valid() && buf == Clip(old(buf) + [c], cap)
    {
      if |buf| + 1 < cap { buf := buf + [c]; }
    }

    method Str(s: string)
      requires Valid()
      modifies this
      ensures Valid() && buf == Clip(old(buf) + s, cap)
    {
      var i := 0;
      while i < |s|
        invariant i <= |s| && Valid() && buf == Clip(old(buf) + s[..i], cap)
      {
        ClipConcat(old(buf) + s[..i], [s[i]], cap);
        assert old(buf) + s[..i] + [s[i]] == old(buf) + s[..i + 1];
        Ch(s[i]);
        i := i + 1;
      }
      assert s[..i] == s;
    }

    /** The loops that put `n` parentheses after a value. */
    method CloseTags(n: nat)
      requires Valid()
      modifies this
      ensures Valid() && buf == CloseAll(old(buf), n, cap)
    {
      var t := 0;
      while t < n
        invariant t <= n && Valid() && buf == CloseAll(old(buf), t, cap)
      {
        Close(')');
        t := t + 1;
      }
    }

    /** The same after a bracket, where there is always room. */
    method AddTags(n: nat)
      requires Valid() && |buf| + n < cap
      modifies this
      ensures Valid() && buf == old(buf) + Repeat(')', n)
    {
      var t := 0;
      while t < n
        invariant t <= n && buf == old(buf) + Repeat(')', t)
      {
        Ch(')');
        t := t + 1;
      }
    }

    method Close(c: char)
      requires Valid()
      modifies this
      ensures Valid() && buf == CloseText(old(buf), c, cap)
      ensures cap >= 2 ==> |buf| > 0 && buf[|buf| - 1] == c && buf[..|buf| - 1] <= old(buf)
    {
      if |buf| + 1 < cap {
        buf := buf + [c];
      } else if cap >= 2 {
        buf := buf[..cap - 2] + [c];
      }
    }
  }

  class CborDec {
    const src: seq<byte>
    var pos: nat
    const pp: LineTable
    const lc: Libc

    ghost predicate Valid()
      reads this, pp
    {
      pos <= |src| && pp.Valid()
    }

    ghost function Rest(): seq<byte>
      reads this
      requires pos <= |src|
    {
      src[pos..]
    }

    constructor (src: seq<byte>, pp: LineTable, lc: Libc)
      requires pp.Valid()
      ensures Valid() && pos == 0 && this.src == src && this.pp == pp && this.lc == lc
    {
      this.src, this.pp, this.lc := src, pp, lc;
      pos := 0;
    }

    method ReadHead() returns (ok: bool, h: Head)
      requires pos <= |src|
      modifies `pos
      ensures old(pos) <= pos <= |src|
      ensures ok == CborParser.ReadHead(old(Rest())).Ok?
      ensures ok ==> CborParser.ReadHead(old(Rest())) == CborParser.Ok(h, Rest())
    {
      hide CborParser.FromBigEndian, Fits;
      h := CborParser.Head(0, 0, 0, false);
      ghost var s := src[pos..];
      if pos >= |src| { return false, h; }
      var ib := src[pos];
      pos := pos + 1;
      var info := ib % 32;
      h := CborParser.Head(ib / 32, info, 0, false);
      if info < 24 {
        return true, h.(arg := info);
      }
      var n;
      if info == 24 { n := 1; }
      else if info == 25 { n := 2; }
      else if info == 26 { n := 4; }
      else if info == 27 { n := 8; }
      else if info == 31 { return true, h.(indefinite := true); }
      else { return false, h; }
      if |src| - pos < n { return false, h; }
      ghost var start := pos;
      var arg := ReadArg(n);
      assert s[1..1 + n] == src[start..pos] && s[1 + n..] == src[pos..];
      h := h.(arg := arg);
      ok := true;
    }

    /** The big-endian loop of read_head. */
    method ReadArg(n: nat) returns (arg: nat)
      requires pos + n <= |src|
      modifies `pos
      ensures pos == old(pos) + n && arg == CborParser.FromBigEndian(src[old(pos)..pos])
    {
      var i := 0;
      arg := 0;
      while i < n
        invariant i <= n && pos == old(pos) + i
        invariant arg == CborParser.FromBigEndian(src[old(pos)..pos])
      {
        SliceStep(src, old(pos), pos);
        arg := arg * 256 + src[pos];
        pos := pos + 1;
        i := i + 1;
      }
    }

    /** One definite chunk: hex for bytes, escaped characters for text. */
    method AppendChunk(n: nat, bytes: bool, o: CborOut) returns (ok: bool)
      requires pos <= |src| && o.Valid()
      modifies `pos, o
      ensures old(pos) <= pos <= |src| && o.Valid()
      ensures ok == (n <= |src| - old(pos))
      ensures ok ==> pos == old(pos) + n
      ensures ok ==> o.buf == Clip(old(o.buf) + Content(!bytes, src[old(pos)..pos]), o.cap)
    {
      hide Content, ByteText, Clip;
      if n > |src| - pos { return false; }
      ClipNothing(old(o.buf), o.cap);
      ContentEmpty(!bytes);
      assert src[pos..pos] == [];
      var i := 0;
      while i < n
        invariant i <= n && pos == old(pos) + i <= |src| && old(pos) + n <= |src|
        invariant o.Valid() && o.buf == Clip(old(o.buf) + Content(!bytes, src[old(pos)..pos]), o.cap)
      {
        var c := src[pos];
        SliceStep(src, old(pos), pos);
        ContentAppended(!bytes, old(o.buf), src[old(pos)..pos], [c], o.cap);
        AppendByte(c, bytes, o);
        pos := pos + 1;
        i := i + 1;
      }
      ok := true;
    }

    /** The body of append_chunk's loop. */
    method AppendByte(c: byte, bytes: bool, o: CborOut)
      requires o.Valid()
      modifies o
      ensures o.Valid() && o.buf == Clip(old(o.buf) + ByteText(!bytes, c), o.cap)
    {
      if bytes {
        ClipConcat(o.buf + [HexDigit(c / 16)], [HexDigit(c % 16)], o.cap);
        assert o.buf + ByteText(false, c) == o.buf + [HexDigit(c / 16)] + [HexDigit(c % 16)];
        o.Ch(HexDigit(c / 16));
        o.Ch(HexDigit(c % 16));
      } else if c == '\"' as int || c == '\\' as int {
        ClipConcat(o.buf + ['\\'], [c as char], o.cap);
        assert o.buf + ByteText(true, c) == o.buf + ['\\'] + [c as char];
        o.Ch('\\');
        o.Ch(c as char);
      } else if c == '\n' as int {
        o.Str("\\n");
      } else if c == '\r' as int {
        o.Str("\\r");
      } else if c == '\t' as int {
        o.Str("\\t");
      } else if c < 0x20 {
        o.Str("\\u00" + [HexDigit(c / 16), HexDigit(c % 16)]);
      } else {
        o.Ch(c as char);
      }
    }

    /** A definite string, or definite chunks of the same type up to a break. */
    method AppendString(h: Head, o: CborOut) returns (ok: bool)
      requires pos <= |src| && o.Valid() && CborParser.WfHead(h) && 2 <= h.major <= 3
      modifies `pos, o
      ensures old(pos) <= pos <= |src| && o.Valid()
      ensures var p := CborParser.ParseBody(h, old(Rest()));
        && ok == p.Ok?
        && (ok ==> p.rest == Rest())
        && (ok ==> o.buf == Clip(old(o.buf) + Content(h.major == 3, BodyData(p.value)), o.cap))
    {
      hide Content, Clip, CborParser.ParseChunks;
      if !h.indefinite {
        ok := AppendChunk(h.arg, h.major == 2, o);
        if ok { SliceSplit(src, old(pos), h.arg); }
        DefiniteBody(h, old(Rest()));
      } else {
        ok := AppendChunks(h.major, o);
      }
    }

    /** The loop of append_string. */
    method AppendChunks(major: nat, o: CborOut) returns (ok: bool)
      requires pos <= |src| && o.Valid() && 2 <= major <= 3
      modifies `pos, o
      ensures old(pos) <= pos <= |src| && o.Valid()
      ensures var p := CborParser.ParseChunks(major, old(Rest()));
        && ok == p.Ok?
        && (ok ==> p.rest == Rest())
        && (ok ==> o.buf == Clip(old(o.buf) + Content(major == 3, ChunksData(p.value)), o.cap))
    {
      hide Content, Clip, ChunksData, After, CborParser.ReadHead, CborParser.ParseChunks, CborParser.ParseChunk, CborParser.WfHead;
      var bytes := major == 2;
      ghost var done: seq<Chunk> := [];
      NoChunks(!bytes, o.buf, o.cap);
      AfterNothing(CborParser.ParseChunks(major, Rest()));
      while true
        invariant old(pos) <= pos <= |src| && o.Valid()
        invariant o.buf == Clip(old(o.buf) + Content(!bytes, ChunksData(done)), o.cap)
        invariant CborParser.ParseChunks(major, old(Rest())) == After(done, CborParser.ParseChunks(major, Rest()))
        decreases |src| - pos
      {
        ChunksStep(major, Rest());
        var got, c := ReadHead();
        if !got { AfterFail(done); return false; }
        if c.major == 7 && c.info == 31 {
          AfterEnd(done, Rest());
          return true;
        }
        AfterFail(done);
        if c.major != major || c.indefinite { return false; }
        ghost var start := pos;
        got := AppendChunk(c.arg, bytes, o);
        if !got { return false; }
        ghost var chunk := CborGrammar.Chunk(CborParser.WidthOf(c.info), src[start..pos]);
        SliceSplit(src, start, c.arg);
        AfterStep(done, chunk, CborParser.ParseChunks(major, Rest()));
        ChunkAppended(!bytes, old(o.buf), done, chunk, o.cap);
        done := done + [chunk];
      }
    }

    method FormatSimple(h: Head, cap: nat) returns (ok: bool, val: string, numeric: bool)
      requires CborParser.WfHead(h) && h.major == 7 && cap > 0
      ensures forall s :: var p := CborParser.ParseScalar(h, s);
        && ok == p.Ok?
        && (ok ==> p.rest == s && val == ScalarText(lc, p.value, cap))
        && (ok ==> numeric == ScalarNumeric(lc, p.value, val) && ScalarKind(p.value) == Atom)
    {
      val, numeric := "", false;
      match h.info {
        case 20 => val := Clip("false", cap);
        case 21 => val := Clip("true", cap);
        case 22 => val := Clip("null", cap);
        case 23 => val := Clip("undefined", cap);
        case 24 =>
          if h.arg < 32 { return false, val, numeric; }
          val := Clip("simple(" + Decimal(h.arg) + ")", cap);
        case 31 => return false, val, numeric;
        case _ =>
          if h.info >= 25 {
            var w := CborParser.WidthOf(h.info);
            val := Clip(lc.floatText(ByteCount(w), h.arg), cap);
            numeric := FiniteBits(w, h.arg);
          } else {
            val := Clip("simple(" + Decimal(h.info) + ")", cap);
          }
      }
      ok := true;
    }

    /** Majors 2 and 3 of format_scalar. */
    method FormatString(h: Head, cap: nat) returns (ok: bool, val: string)
      requires pos <= |src| && CborParser.WfHead(h) && 2 <= h.major <= 3 && cap > 0
      modifies `pos
      ensures old(pos) <= pos <= |src|
      ensures var p := CborParser.ParseBody(h, old(Rest()));
        && ok == p.Ok?
        && (ok ==> p.rest == Rest() && val == ScalarText(lc, String(h.major == 3, p.value), cap))
    {
      var text := h.major == 3;
      val := "";
      var o := new CborOut(cap);
      if text { o.Ch('\"'); } else { o.Str("h'"); }
      ghost var open := if text then "\"" else "h'";
      assert "" + open == open;
      ok := AppendString(h, o);
      if !ok { return; }
      ClipConcat(open, Content(text, BodyData(CborParser.ParseBody(h, old(Rest())).value)), cap);
      o.Close(Quote(text));
      val := o.buf;
    }

    method FormatScalar(h: Head, cap: nat) returns (ok: bool, val: string, kind: Kind, numeric: bool)
      requires pos <= |src| && CborParser.WfHead(h) && cap > 0
      modifies `pos
      ensures old(pos) <= pos <= |src|
      ensures var p := CborParser.ParseScalar(h, old(Rest()));
        && ok == p.Ok?
        && (ok ==> p.rest == Rest())
        && (ok ==> val == ScalarText(lc, p.value, cap) && kind == ScalarKind(p.value))
        && (ok ==> numeric == ScalarNumeric(lc, p.value, val))
    {
      val, kind, numeric := "", Atom, false;
      if h.major == 0 {
        if h.indefinite { return false, val, kind, numeric; }
        return true, Clip(Decimal(h.arg), cap), kind, true;
      } else if h.major == 1 {
        if h.indefinite { return false, val, kind, numeric; }
        if h.arg == UINT64_MAX {
          MostNegative();
          val := Clip("-18446744073709551616", cap);
        } else {
          val := Clip("-" + Decimal(h.arg + 1), cap);
        }
        return true, val, kind, true;
      } else if h.major == 2 || h.major == 3 {
        ok, val := FormatString(h, cap);
        if ok && h.major == 3 {
          kind := Str;
          numeric := QuotedNumeric(lc, val);
        }
      } else if h.major == 7 {
        ok, val, numeric := FormatSimple(h, cap);
      } else {
        ok := false;
      }
    }

    method DecodeKey() returns (ok: bool, seg: string)
      requires pos <= |src|
      modifies `pos
      ensures old(pos) <= pos <= |src|
      ensures var p := CborParser.ParseKey(old(Rest()));
        && ok == p.Ok?
        && (ok ==> p.rest == Rest() && seg == KeyText(lc, p.value))
    {
      seg := "";
      var got, h := ReadHead();
      if !got { return false, seg; }
      if h.major == 3 {
        var o := new CborOut(KEY_LEN);
        ok := AppendString(h, o);
        seg := o.buf;
        if ok {
          var p := CborParser.ParseBody(h, CborParser.ReadHead(old(Rest())).rest);
          assert "" + Content(true, BodyData(p.value)) == Content(true, BodyData(p.value));
        }
        return;
      }
      if 4 <= h.major <= 6 { return false, seg; }
      var kind, numeric;
      ok, seg, kind, numeric := FormatScalar(h, KEY_LEN);
    }

    method DecodeItem(key: string, prefix: string, tags: nat) returns (ok: bool)
      requires Valid() && tags <= MAX_TAGS && |prefix| <= 21 * tags
      modifies `pos, pp
      ensures Valid() && pos >= old(pos)
      ensures var p := CborParser.ParseItem(old(Rest()), old(pp.depth), tags);
        && ok == p.Ok?
        && (ok ==>
          && p.rest == Rest()
          && pp.full == old(pp.full) + ItemLines(lc, p.value, key, prefix, tags, old(pp.depth), old(pp.path))
          && pp.depth == old(pp.depth) && pp.path == old(pp.path))
      decreases |src| - pos, 0
    {
      hide Clipped, CborParser.ReadHead, CborParser.ParseScalar, CborParser.ParseEntries, EntriesLines, LeafLine, OpenLine, CloseLine;
      var got, h := ReadHead();
      if !got { return false; }
      if h.major == 6 {
        if h.indefinite || tags >= MAX_TAGS { return false; }
        HeadDigits(h);
        var longer := Clip(prefix + Decimal(h.arg) + "(", TAG_PREFIX_LEN);
        ok := DecodeItem(key, longer, tags + 1);
      } else if h.major == 4 || h.major == 5 {
        ok := DecodeContainer(h, key, prefix, tags);
      } else {
        ok := DecodeLeaf(h, key, prefix, tags);
      }
    }

    /** The scalar branch of decode_item. */
    method DecodeLeaf(h: Head, key: string, prefix: string, tags: nat) returns (ok: bool)
      requires Valid() && CborParser.WfHead(h)
      modifies `pos, pp
      ensures Valid() && pos >= old(pos)
      ensures var p := CborParser.ParseScalar(h, old(Rest()));
        && ok == p.Ok?
        && (ok ==>
          && p.rest == Rest()
          && pp.full == old(pp.full) + [LeafLine(lc, p.value, key, prefix, tags, old(pp.depth), old(pp.path))]
          && pp.depth == old(pp.depth) && pp.path == old(pp.path))
    {
      hide Clipped, CborParser.ParseScalar, ScalarText, ScalarNumeric, ScalarKind;
      var text, kind, numeric;
      ok, text, kind, numeric := FormatScalar(h, VAL_LEN);
      if !ok { return; }
      var o := new CborOut(VAL_LEN);
      o.Str(prefix);
      o.Str(text);
      assert "" + prefix == prefix;
      ClipConcat(prefix, text, VAL_LEN);
      o.CloseTags(tags);
      pp.Emit(key, o.buf, kind, numeric && tags == 0);
    }

    method DecodeContainer(h: Head, key: string, prefix: string, tags: nat) returns (ok: bool)
      requires Valid() && tags <= MAX_TAGS && |prefix| <= 21 * tags
      requires CborParser.WfHead(h) && 4 <= h.major <= 5
      modifies `pos, pp
      ensures Valid() && pos >= old(pos)
      ensures var p := ParseContainer(h, old(Rest()), old(pp.depth));
        && ok == p.Ok?
        && (ok ==>
          && p.rest == Rest()
          && pp.full == old(pp.full) + ItemLines(lc, p.value, key, prefix, tags, old(pp.depth), old(pp.path))
          && pp.depth == old(pp.depth) && pp.path == old(pp.path))
      decreases |src| - pos, 3
    {
      hide Clipped, CborParser.ParseEntries, ItemLines, EntriesLines, OpenLine, CloseLine;
      if pp.depth + 1 >= MAX_DEPTH { return false; }
      EmitOpen(h, key, prefix, tags);
      pp.depth := pp.depth + 1;
      ghost var base := pp.full;
      ok := DecodeEntries(h);
      if !ok { return; }
      pp.depth := pp.depth - 1;
      EmitClose(h.major == 5, tags);
      Bracketed(old(pp.full), pp.full, base, lc, ParseContainer(h, old(Rest()), old(pp.depth)).value.entries,
                h, key, prefix, tags, old(pp.depth), old(pp.path));
    }

    /** The opening line of decode_container; its buffer is long enough for eight tags. */
    method EmitOpen(h: Head, key: string, prefix: string, tags: nat)
      requires pp.Valid() && tags <= MAX_TAGS && |prefix| <= 21 * tags
      modifies pp`lines, pp`full
      ensures pp.Valid()
      ensures pp.full == old(pp.full) + [OpenLine(h.major == 5, LengthOf(h), key, prefix, pp.depth, pp.path)]
    {
      hide Clipped, MkLine;
      var open := prefix + (if h.major == 5 then "{" else "[") + (if h.indefinite then "_" else "");
      ClipNothing(open, TAG_PREFIX_LEN + 4);
      pp.Emit(key, Clip(open, TAG_PREFIX_LEN + 4), Punct, false);
    }

    /** The closing line, with one parenthesis per tag. */
    method EmitClose(isMap: bool, tags: nat)
      requires pp.Valid() && tags <= MAX_TAGS
      modifies pp`lines, pp`full
      ensures pp.Valid() && pp.full == old(pp.full) + [CloseLine(isMap, tags, pp.depth, pp.path)]
    {
      hide Clipped, MkLine;
      var o := new CborOut(MAX_TAGS + 2);
      o.Ch(if isMap then '}' else ']');
      assert o.buf == if isMap then "}" else "]";
      o.AddTags(tags);
      pp.Emit("", o.buf, Punct, false);
    }

    /** The loop of decode_container. */
    method DecodeEntries(h: Head) returns (ok: bool)
      requires Valid() && CborParser.WfHead(h) && 4 <= h.major <= 5
      modifies `pos, pp
      ensures Valid() && pos >= old(pos)
      ensures var p := CborParser.ParseEntries(h.major == 5, Left(h, 0), old(Rest()), old(pp.depth));
        && ok == p.Ok?
        && (ok ==>
          && p.rest == Rest()
          && pp.full == old(pp.full) + EntriesLines(lc, h.major == 5, p.value, old(pp.depth), old(pp.path))
          && pp.depth == old(pp.depth) && pp.path == old(pp.path))
      decreases |src| - pos, 2
    {
      var isMap := h.major == 5;
      var remaining := |src| - pos;
      hide Clipped, EntriesLines, EntryLines, MarkLast, CborParser.ParseEntry, CborParser.ParseEntries;
      if !h.indefinite && h.arg > (if isMap then remaining / 2 else remaining) {
        CountTooLarge(isMap, h, Rest(), pp.depth);
        return false;
      }
      ghost var s0, depth, path := Rest(), pp.depth, pp.path;
      ghost var done: seq<Entry> := [];
      AfterNothing(CborParser.ParseEntries(isMap, Left(h, 0), s0, depth));
      NoEntries(lc, isMap, pp.full, depth, path);
      var i := 0;
      while h.indefinite || i < h.arg
        invariant Valid() && pos >= old(pos) && pp.depth == depth && pp.path == path && i == |done|
        invariant !h.indefinite ==> i <= h.arg
        invariant pp.full == old(pp.full) + EntriesLines(lc, isMap, done, depth, path)
        invariant CborParser.ParseEntries(isMap, Left(h, 0), s0, depth)
               == After(done, CborParser.ParseEntries(isMap, Left(h, i), Rest(), depth))
        decreases |src| - pos
      {
        EntriesEnd(isMap, h, i, Rest(), depth);
        if h.indefinite {
          if pos >= |src| { return false; }
          if src[pos] == 0xff {
            pos := pos + 1;
            assert done + [] == done;
            return true;
          }
        }
        EntriesStep(isMap, h, i, Rest(), depth);
        ghost var e := CborParser.ParseEntry(isMap, Rest(), depth);
        ok := DecodeEntry(isMap, i);
        if !ok { return false; }
        AfterStep(done, e.value, CborParser.ParseEntries(isMap, Left(h, i + 1), Rest(), depth));
        EntriesAppended(lc, isMap, old(pp.full), done, e.value, depth, path);
        done := done + [e.value];
        i := i + 1;
      }
      EntriesEnd(isMap, h, i, Rest(), depth);
      assert done + [] == done;
      ok := true;
    }

    /** One pass of that loop, past the break test. */
    method DecodeEntry(isMap: bool, i: nat) returns (ok: bool)
      requires Valid()
      modifies `pos, pp
      ensures Valid() && pos >= old(pos)
      ensures var p := CborParser.ParseEntry(isMap, old(Rest()), old(pp.depth));
        && ok == p.Ok?
        && (ok ==>
          && p.rest == Rest() && pos > old(pos)
          && pp.full == (if i > 0 then MarkLast(old(pp.full)) else old(pp.full))
             + EntryLines(lc, isMap, p.value, i, old(pp.depth), old(pp.path))
          && pp.depth == old(pp.depth) && pp.path == old(pp.path))
      decreases |src| - pos, 1
    {
      hide Clipped, CborParser.ParseKey, CborParser.ParseItem, ItemLines, KeyText, PathPush;
      if i > 0 { pp.MarkTrailingComma(); }
      var seg;
      if isMap {
        ok, seg := DecodeKey();
        if !ok { return; }
      } else {
        seg := Clip(Decimal(i), KEY_LEN);
      }
      var mark := pp.PushPath(seg);
      ok := DecodeItem(if isMap then seg else "", "", 0);
      if !ok { return; }
      pp.PopPath(mark);
    }
  }

  /** How many entries are still to come after `i` of them. */
  function Left(h: Head, i: nat): Option<nat> {
    if h.indefinite then None else if i <= h.arg then Some(h.arg - i) else Some(0)
  }

  lemma DefiniteBody(h: Head, s: seq<byte>)
    requires !h.indefinite
    ensures CborParser.ParseBody(h, s) ==
      if h.arg > |s| then CborParser.Fail
      else CborParser.Ok(Whole(CborGrammar.Chunk(CborParser.WidthOf(h.info), s[..h.arg])), s[h.arg..])
  {
  }

  /** How ParseChunks takes its next chunk. */
  lemma ChunksStep(major: nat, s: seq<byte>)
    ensures CborParser.ParseChunks(major, s) ==
      match CborParser.ReadHead(s)
      case Fail => CborParser.Fail
      case Ok(c, s1) =>
        if c.major == 7 && c.info == 31 then CborParser.Ok([], s1)
        else if c.major != major || c.indefinite || c.arg > |s1| then CborParser.Fail
        else After([CborGrammar.Chunk(CborParser.WidthOf(c.info), s1[..c.arg])], CborParser.ParseChunks(major, s1[c.arg..]))
  {
  }

  /** How ParseEntries takes its next entry. */
  lemma EntriesStep(isMap: bool, h: Head, i: nat, s: seq<byte>, depth: nat)
    requires h.indefinite || i < h.arg
    requires h.indefinite ==> s != [] && s[0] != BREAK
    ensures var e := CborParser.ParseEntry(isMap, s, depth);
      CborParser.ParseEntries(isMap, Left(h, i), s, depth)
      == if e.Fail? then CborParser.Fail else After([e.value], CborParser.ParseEntries(isMap, Left(h, i + 1), e.rest, depth))
  {
    hide CborParser.ParseEntry;
  }

  lemma EntriesEnd(isMap: bool, h: Head, i: nat, s: seq<byte>, depth: nat)
    ensures !h.indefinite && i == h.arg ==> CborParser.ParseEntries(isMap, Left(h, i), s, depth) == CborParser.Ok([], s)
    ensures h.indefinite && s == [] ==> CborParser.ParseEntries(isMap, Left(h, i), s, depth).Fail?
    ensures h.indefinite && s != [] && s[0] == BREAK ==>
      CborParser.ParseEntries(isMap, Left(h, i), s, depth) == CborParser.Ok([], s[1..])
  {
  }

  /** A count the remaining bytes cannot hold never parses. */
  lemma CountTooLarge(isMap: bool, h: Head, s: seq<byte>, depth: nat)
    requires !h.indefinite && h.arg > if isMap then |s| / 2 else |s|
    ensures CborParser.ParseEntries(isMap, Left(h, 0), s, depth).Fail?
  {
  }

  /** The container branch of ParseItem. */
  function ParseContainer(h: Head, s: seq<byte>, depth: nat): CborParser.Parsed<Item> {
    if depth + 1 > MAX_NESTING then CborParser.Fail
    else match CborParser.ParseEntries(h.major == 5, Left(h, 0), s, depth + 1)
      case Fail => CborParser.Fail
      case Ok(es, rest) =>
        CborParser.Ok(Container(h.major == 5, LengthOf(h), es), rest)
  }

  function LengthOf(h: Head): Length {
    if h.indefinite then Open else Counted(CborParser.WidthOf(h.info))
  }

  lemma NoEntries(lc: Libc, isMap: bool, base: seq<Line>, depth: nat, path: string)
    ensures base + EntriesLines(lc, isMap, [], depth, path) == base
  {
  }

  /** The comma of the previous entry, then the new one. */
  lemma EntriesAppended(lc: Libc, isMap: bool, base: seq<Line>, done: seq<Entry>, e: Entry, depth: nat, path: string)
    ensures var lines := base + EntriesLines(lc, isMap, done, depth, path);
      (if |done| > 0 then MarkLast(lines) else lines) + EntryLines(lc, isMap, e, |done|, depth, path)
      == base + EntriesLines(lc, isMap, done + [e], depth, path)
  {
    hide EntryLines, MarkLast;
    var lines, entry := EntriesLines(lc, isMap, done, depth, path), EntryLines(lc, isMap, e, |done|, depth, path);
    assert (done + [e])[..|done|] == done;
    assert EntriesLines(lc, isMap, done + [e], depth, path) == MarkLast(lines) + entry;
    if |done| > 0 { MarkLastConcat(base, lines); }
    Assoc(base, MarkLast(lines), entry);
  }

  /** Opening line, entries and closing line are the lines of the container. */
  lemma Bracketed(before: seq<Line>, after: seq<Line>, base: seq<Line>, lc: Libc, es: seq<Entry>, h: Head, key: string, prefix: string,
                  tags: nat, depth: nat, path: string)
    requires CborParser.WfHead(h) && 4 <= h.major <= 5
    requires var isMap, length := h.major == 5, LengthOf(h);
      && base == before + [OpenLine(isMap, length, key, prefix, depth, path)]
      && after == base + EntriesLines(lc, isMap, es, depth + 1, path) + [CloseLine(isMap, tags, depth, path)]
    ensures var isMap, length := h.major == 5, LengthOf(h);
      after == before + ItemLines(lc, Container(isMap, length, es), key, prefix, tags, depth, path)
  {
    hide EntriesLines, OpenLine, CloseLine;
  }

  lemma HeadDigits(h: Head)
    requires CborParser.WfHead(h) && !h.indefinite
    ensures |Decimal(h.arg)| <= 20
  {
    assert Pow256(2) == 0x1_0000 && Pow256(4) == 0x1_0000_0000 && Pow256(6) == 0x1_0000_0000_0000;
    assert Pow256(8) == 0x1_0000_0000_0000_0000;
    assert Pow10(4) == 1_0000 && Pow10(8) == 1_0000_0000 && Pow10(12) == 1_0000_0000_0000;
    assert Pow10(16) == 1_0000_0000_0000_0000 && Pow10(20) == 1_0000_0000_0000_0000_0000;
    DecimalLength(h.arg, 20);
  }

  /** 2^64, whose negation is the literal the C code prints because arg + 1 would wrap. */
  lemma MostNegative()
    ensures "-" + Decimal(UINT64_MAX + 1) == "-18446744073709551616"
  {
    hide Decimal;
    UpperHalf();
    FourDigits(1844_6744_0737, 0955);
    FourDigits(1844_6744_0737_0955, 1616);
  }

  lemma UpperHalf()
    ensures Decimal(1844_6744_0737) == "184467440737"
  {
    hide Decimal;
    LeadingDigits();
    FourDigits(1844, 6744);
    FourDigits(1844_6744, 0737);
  }

  lemma FourDigits(q: nat, r: nat)
    requires 0 < q && r < 10000
    ensures Decimal(10000 * q + r)
         == Decimal(q) + [Digit(r / 1000), Digit(r / 100 % 10), Digit(r / 10 % 10), Digit(r % 10)]
  {
    hide Decimal;
    var n1, n2, n3 := 1000 * q + r / 10, 100 * q + r / 100, 10 * q + r / 1000;
    OneDigit(q, r / 1000);
    assert 10 * n3 + r / 100 % 10 == n2;
    OneDigit(n3, r / 100 % 10);
    assert 10 * n2 + r / 10 % 10 == n1;
    OneDigit(n2, r / 10 % 10);
    assert 10 * n1 + r % 10 == 10000 * q + r;
    OneDigit(n1, r % 10);
  }

  lemma OneDigit(q: nat, d: nat)
    requires 0 < q && d < 10
    ensures Decimal(10 * q + d) == Decimal(q) + [Digit(d)]
  {
    assert (10 * q + d) / 10 == q && (10 * q + d) % 10 == d;
  }

  lemma LeadingDigits()
    ensures Decimal(1844) == "1844"
  {
  }

  /** `done` put in front of what the rest of a run yields. */
  function After<T>(done: seq<T>, p: CborParser.Parsed<seq<T>>): CborParser.Parsed<seq<T>> {
    match p case Fail => CborParser.Fail case Ok(v, rest) => CborParser.Ok(done + v, rest)
  }

  lemma AfterNothing<T>(p: CborParser.Parsed<seq<T>>)
    ensures After([], p) == p
  {
    if p.Ok? { assert [] + p.value == p.value; }
  }

  lemma AfterEnd<T>(done: seq<T>, rest: seq<byte>)
    ensures After(done, CborParser.Ok([], rest)) == CborParser.Ok(done, rest)
  {
    assert done + [] == done;
  }

  lemma AfterFail<T>(done: seq<T>)
    ensures After(done, CborParser.Fail) == CborParser.Fail
    ensures forall x: T :: After([x], CborParser.Fail) == CborParser.Fail
  {
  }

  lemma AfterStep<T>(done: seq<T>, x: T, p: CborParser.Parsed<seq<T>>)
    ensures After(done + [x], p) == After(done, After([x], p))
  {
    if p.Ok? { assert done + [x] + p.value == done + ([x] + p.value); }
  }

  /** Adding data to a clipped buffer is clipping the longer text. */
  lemma ContentAppended(text: bool, before: string, a: seq<byte>, b: seq<byte>, cap: nat)
    requires cap > 0
    ensures Clip(Clip(before + Content(text, a), cap) + Content(text, b), cap) == Clip(before + Content(text, a + b), cap)
    ensures |b| == 1 ==> Content(text, b) == ByteText(text, b[0])
  {
    hide Content, ByteText;
    ClipConcat(before + Content(text, a), Content(text, b), cap);
    ContentConcat(text, a, b);
    Assoc(before, Content(text, a), Content(text, b));
    if |b| == 1 {
      ContentSnoc(text, [], b[0]);
      ContentEmpty(text);
      assert b == [] + [b[0]];
    }
  }

  lemma NoChunks(text: bool, before: string, cap: nat)
    requires |before| < cap
    ensures Clip(before + Content(text, ChunksData([])), cap) == before
  {
  }

  /** One more chunk of the same string. */
  lemma ChunkAppended(text: bool, before: string, done: seq<Chunk>, c: Chunk, cap: nat)
    requires cap > 0
    ensures Clip(Clip(before + Content(text, ChunksData(done)), cap) + Content(text, c.data), cap)
         == Clip(before + Content(text, ChunksData(done + [c])), cap)
  {
    hide Content, Clip;
    ContentAppended(text, before, ChunksData(done), c.data, cap);
    assert (done + [c])[..|done|] == done;
  }

  lemma ContentEmpty(text: bool)
    ensures forall s :: Content(text, []) + s == s && s + Content(text, []) == s
  {
  }

  lemma ClipNothing(s: string, cap: nat)
    requires |s| < cap
    ensures Clip(s, cap) == s
  {
  }

  /** The table of an accepted payload: its item's lines as far as they fit, with commas between
      entries only; and when fewer than 2048 result and every column fits, lines that read
      back as the item, marked as numbers where they show one. */
  ghost predicate TableShows(lc: Libc, lines: seq<Line>, it: Item) {
    && Clipped(lines, Render(lc, it))
    && LineOutline.CommasStandIn(lines)
    && (CborDisplay.PrintsFloats(lc) && |lines| < 2048 && CborDisplay.FitsColumns(lc, it, 0) ==>
         CborDisplay.Displays(lc, lines, it) && forall l :: l in lines ==> CborDisplay.NumberMarked(lc, l))
  }

  lemma TableOfItem(lc: Libc, src: seq<byte>, it: Item, lines: seq<Line>)
    requires IsItem(src, it) && Clipped(lines, Render(lc, it))
    ensures TableShows(lc, lines, it)
  {
    hide Render, CborDisplay.PrintsFloats, CborDisplay.FitsColumns, CborDisplay.Displays, CborDisplay.NumberMarked;
    hide LineOutline.CommasStand, LineOutline.CommasStandIn;
    CborDisplay.ItemLinesStand(lc, it);
    LineOutline.ClippedCommas(lines, Render(lc, it));
    if CborDisplay.PrintsFloats(lc) && |lines| < MAX_LINES && CborDisplay.FitsColumns(lc, it, 0) {
      CborDisplay.ItemIsDisplayed(lc, it);
      CborDisplay.ItemNumbersMarked(lc, it);
    }
  }

  /** Which items the payload is, in terms of what was parsed. */
  lemma ItemsOf(src: seq<byte>)
    ensures forall it :: IsItem(src, it) <==> CborParser.ParseItem(src, 0, 0) == CborParser.Ok(it, [])
  {
    hide CborParser.ParseItem, IsItem;
    forall it
      ensures IsItem(src, it) <==> CborParser.ParseItem(src, 0, 0) == CborParser.Ok(it, [])
    {
      CborParser.AcceptanceIsGrammar(src, it);
    }
  }

  /** Strict decoding of a whole payload: accepted exactly when it is one item of the grammar,
      shown as that item, and nothing shown otherwise. */
  method CborPpRun(pp: LineTable, src: seq<byte>, lc: Libc) returns (ok: bool)
    modifies pp
    ensures ok <==> exists it :: IsItem(src, it)
    ensures forall it :: IsItem(src, it) ==> TableShows(lc, pp.lines, it)
    ensures !ok ==> pp.lines == []
    ensures pp.depth == 0 && pp.path == ""
  {
    hide CborParser.ParseItem, ItemLines, IsItem, TableShows;
    pp.Begin();
    var d := new CborDec(src, pp, lc);
    assert src[0..] == src;
    ok := |src| > 0;
    if ok { ok := d.DecodeItem("", "", 0); }
    ok := ok && d.pos == |src|;
    ghost var p := CborParser.ParseItem(src, 0, 0);
    ItemsOf(src);
    if ok {
      assert IsItem(src, p.value);
      assert [] + Render(lc, p.value) == Render(lc, p.value);
      TableOfItem(lc, src, p.value, pp.lines);
    } else {
      EmptyFails();
      pp.Begin();
    }
  }

  lemma EmptyFails()
    ensures CborParser.ParseItem([], 0, 0).Fail?
  {
  }
}
