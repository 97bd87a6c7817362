/** src/model/json_pp.c in its own form: a cursor over the source, moved by loops, and a line
    table appended to while descending.  Every method computes its function of JsonScan. */
module JsonFormatter {
  import opened Text
  import opened LineModel
  import opened JsonScan

  const INT32_MAX: nat := 0x7fff_ffff

  lemma SkipWsHere(s: string)
    ensures s != "" && IsWs(s[0]) ==> SkipWs(s) == SkipWs(s[1..])
    ensures s == "" || !IsWs(s[0]) ==> SkipWs(s) == s
  {
  }

  class JsonPP {
    const src: string
    var pos: nat
    const pp: LineTable
    const lc: Libc

    /** The cursor may step one past the end, never further. */
    ghost predicate Valid()
      reads this, pp
    {
      pos <= |src| + 1 && pp.Valid()
    }

    ghost function Rest(): string
      reads this
    {
      if pos <= |src| then src[pos..] else ""
    }

    constructor (src: string, pp: LineTable, lc: Libc)
      requires pp.Valid()
      ensures Valid() && pos == 0 && this.src == src && this.pp == pp && this.lc == lc
    {
      this.src, this.pp, this.lc := src, pp, lc;
      pos := 0;
    }

    method SkipSpace()
      requires pos <= |src| + 1
      modifies `pos
      ensures old(pos) <= pos <= |src| + 1 && (old(pos) <= |src| ==> pos <= |src|)
      ensures Rest() == SkipWs(old(Rest()))
      ensures pos < |src| ==> !IsWs(src[pos])
    {
      while pos < |src|
        invariant old(pos) <= pos <= |src| + 1 && (old(pos) <= |src| ==> pos <= |src|)
        invariant SkipWs(Rest()) == SkipWs(old(Rest()))
        decreases |src| - pos
      {
        var c := src[pos];
        SkipWsHere(Rest());
        if c != ' ' && c != '\t' && c != '\n' && c != '\r' { break; }
        assert Rest()[1..] == src[pos + 1..];
        pos := pos + 1;
      }
      SkipWsHere(Rest());
    }

    method ScanString(cap: nat) returns (buf: string)
      requires pos < |src| && cap > 0
      modifies `pos
      ensures old(pos) < pos <= |src|
      ensures pos == old(pos) + 1 + BodyLen(old(Rest())[1..])
      ensures buf == Copied(old(Rest())[..pos - old(pos)], cap) && Rest() == old(Rest())[pos - old(pos)..]
    {
      hide Copied, BodyLen;
      var start := pos;
      SliceSplit(src, start, 1);
      pos := pos + 1;
      SkipBody();
      SliceSplit(src, start, pos - start);
      buf := Copied(src[start..pos], cap);
    }

    /** The loop of scan_string. */
    method SkipBody()
      requires pos <= |src|
      modifies `pos
      ensures old(pos) <= pos <= |src| && pos == old(pos) + BodyLen(old(src[pos..]))
    {
      while pos < |src|
        invariant old(pos) <= pos <= |src|
        invariant pos + BodyLen(src[pos..]) == old(pos) + BodyLen(old(src[pos..]))
        decreases |src| - pos
      {
        SliceSplit(src, pos, 1);
        if src[pos] == '\\' && pos + 1 < |src| {
          SliceSplit(src, pos, 2);
          pos := pos + 2;
          continue;
        }
        if src[pos] == '\"' {
          pos := pos + 1;
          break;
        }
        pos := pos + 1;
      }
    }

    method ScanAtom(cap: nat) returns (buf: string)
      requires pos < |src| && cap > 0
      modifies `pos
      ensures old(pos) <= pos <= |src|
      ensures pos == old(pos) + AtomLen(old(Rest()))
      ensures buf == Copied(old(Rest())[..pos - old(pos)], cap) && Rest() == old(Rest())[pos - old(pos)..]
    {
      hide Copied, AtomLen;
      var start := pos;
      SkipAtom();
      SliceSplit(src, start, pos - start);
      buf := Copied(src[start..pos], cap);
    }

    /** The loop of scan_atom. */
    method SkipAtom()
      requires pos <= |src|
      modifies `pos
      ensures old(pos) <= pos <= |src| && pos == old(pos) + AtomLen(old(src[pos..]))
    {
      while pos < |src|
        invariant old(pos) <= pos <= |src|
        invariant pos + AtomLen(src[pos..]) == old(pos) + AtomLen(old(src[pos..]))
        decreases |src| - pos
      {
        SliceSplit(src, pos, 1);
        if IsDelimiter(src[pos]) { break; }
        pos := pos + 1;
      }
    }

    method FormatValue(key: string)
      requires Valid()
      modifies `pos, pp
      ensures Valid() && pos >= old(pos)
      ensures Out(Rest(), pp.lines) == FmtValue(lc, old(Rest()), old(pp.lines), key, old(pp.depth), old(pp.path))
      ensures pp.depth == old(pp.depth) && pp.path == old(pp.path)
      decreases |src| + 1 - pos, 1
    {
      hide Clipped, FmtContainer, FmtScalar;
      SkipSpace();
      if pos >= |src| || |pp.lines| >= MAX_LINES { return; }
      if pp.depth >= MAX_DEPTH { return; }
      if src[pos] == '{' || src[pos] == '[' {
        FormatContainer(key, src[pos] == '{');
      } else {
        FormatScalar(key);
      }
    }

    /** The two bracket branches of format_value. */
    method FormatContainer(key: string, isObj: bool)
      requires Valid() && pos < |src| && |pp.lines| < MAX_LINES && [src[pos]] == Opening(isObj)
      modifies `pos, pp
      ensures Valid() && pos >= old(pos)
      ensures Out(Rest(), pp.lines) == FmtContainer(lc, isObj, old(Rest()), old(pp.lines), key, old(pp.depth), old(pp.path))
      ensures pp.depth == old(pp.depth) && pp.path == old(pp.path)
      decreases |src| + 1 - pos, 0
    {
      hide Clipped, FmtContainer, FmtItems, MkLine, Emit;
      SliceSplit(src, pos, 1);
      ContainerUnfold(lc, isObj, Rest(), pp.lines, key, pp.depth, pp.path);
      EmitKept(pp.lines, MkLine(pp.depth, pp.path, key, Opening(isObj), Punct, false));
      pp.Emit(key, Opening(isObj), Punct, false);
      pos := pos + 1;
      pp.depth := pp.depth + 1;
      FormatContents(isObj);
      pp.depth := pp.depth - 1;
      EmitKept(pp.lines, MkLine(pp.depth, pp.path, "", Closing(isObj), Punct, false));
      pp.Emit("", Closing(isObj), Punct, false);
    }

    method FormatContents(isObj: bool)
      requires Valid()
      modifies `pos, pp
      ensures Valid() && pos >= old(pos)
      ensures Out(Rest(), pp.lines) == FmtItems(lc, isObj, old(Rest()), old(pp.lines), 0, old(pp.depth), old(pp.path))
      ensures pp.depth == old(pp.depth) && pp.path == old(pp.path)
      decreases |src| + 1 - pos, 5
    {
      hide FmtItems, Clipped;
      if isObj { FormatObjectContents(); } else { FormatArrayContents(); }
    }

    /** The string and atom branches of format_value. */
    method FormatScalar(key: string)
      requires Valid() && pos < |src| && |pp.lines| < MAX_LINES
      modifies `pos, pp`lines, pp`full
      ensures Valid() && pos >= old(pos)
      ensures Out(Rest(), pp.lines) == FmtScalar(lc, old(Rest()), old(pp.lines), key, pp.depth, pp.path)
    {
      hide Clipped, MkLine, Emit, BodyLen, AtomLen, Copied, QuotedNumeric, AtomNumeric, FmtScalar;
      ghost var t := Rest();
      ScalarUnfold(lc, t, pp.lines, key, pp.depth, pp.path);
      if src[pos] == '\"' {
        var val := ScanString(VAL_LEN);
        EmitKept(pp.lines, MkLine(pp.depth, pp.path, key, val, Str, QuotedNumeric(lc, val)));
        pp.Emit(key, val, Str, QuotedNumeric(lc, val));
      } else {
        var val := ScanAtom(VAL_LEN);
        EmitKept(pp.lines, MkLine(pp.depth, pp.path, key, val, Atom, AtomNumeric(lc, val)));
        pp.Emit(key, val, Atom, AtomNumeric(lc, val));
      }
    }

    method FormatObjectContents()
      requires Valid()
      modifies `pos, pp
      ensures Valid() && pos >= old(pos)
      ensures Out(Rest(), pp.lines) == FmtItems(lc, true, old(Rest()), old(pp.lines), 0, old(pp.depth), old(pp.path))
      ensures pp.depth == old(pp.depth) && pp.path == old(pp.path)
      decreases |src| + 1 - pos, 4
    {
      hide Clipped, FmtItems, FmtItem;
      ItemsSkip(lc, true, Rest(), pp.lines, 0, pp.depth, pp.path);
      SkipSpace();
      ghost var i := 0;
      while pos < |src| && src[pos] != '}' && |pp.lines| < MAX_LINES
        invariant Valid() && pos >= old(pos) && pp.depth == old(pp.depth) && pp.path == old(pp.path)
        invariant SkipWs(Rest()) == Rest()
        invariant FmtItems(lc, true, Rest(), pp.lines, i, pp.depth, pp.path)
               == FmtItems(lc, true, old(Rest()), old(pp.lines), 0, old(pp.depth), old(pp.path))
        decreases |src| + 1 - pos
      {
        LoopUnfold(lc, true, Rest(), pp.lines, i, pp.depth, pp.path);
        FormatMember(i);
        SkipSpace();
        i := i + 1;
      }
      LoopUnfold(lc, true, Rest(), pp.lines, i, pp.depth, pp.path);
      if pos < |src| && src[pos] == '}' { pos := pos + 1; }
    }

    /** The body of that loop, without its last skip. */
    method FormatMember(ghost i: nat)
      requires Valid() && pos < |src| && SkipWs(Rest()) == Rest()
      modifies `pos, pp
      ensures Valid() && pos > old(pos) && pp.depth == old(pp.depth) && pp.path == old(pp.path)
      ensures Out(Rest(), pp.lines) == FmtItem(lc, true, old(Rest()), old(pp.lines), i, old(pp.depth), old(pp.path))
      decreases |src| + 1 - pos, 3
    {
      hide Clipped, FmtProgress, FmtKey, PastComma, PathPush;
      var key := ReadKey();
      var mark := pp.PushPath(key);
      FormatOrSkip(key);
      pp.PopPath(mark);
      TakeComma();
    }

    /** One value of either loop; malformed input loses a character instead. */
    method FormatOrSkip(key: string)
      requires Valid() && pos <= |src|
      modifies `pos, pp
      ensures Valid() && pos > old(pos) && pp.depth == old(pp.depth) && pp.path == old(pp.path)
      ensures Out(Rest(), pp.lines) == FmtProgress(lc, old(Rest()), old(pp.lines), key, old(pp.depth), old(pp.path))
      decreases |src| + 1 - pos, 2
    {
      hide Clipped, FmtValue;
      ghost var u := Rest();
      var posBefore := pos;
      FormatValue(key);
      if pos == posBefore {
        pos := pos + 1;
        assert u != "" ==> Rest() == u[1..];
      }
    }

    /** The comma after an item, in both loops. */
    method TakeComma()
      requires Valid()
      modifies `pos, pp`lines, pp`full
      ensures Valid() && pos >= old(pos)
      ensures Out(Rest(), pp.lines) == PastComma(old(Rest()), old(pp.lines))
    {
      hide Clipped, MarkLast;
      SkipSpace();
      ghost var v := Rest();
      if pos < |src| && src[pos] == ',' {
        pos := pos + 1;
        assert Rest() == v[1..];
        pp.MarkTrailingComma();
      }
    }

    /** The part of the loop body that reads `"key" :`. */
    method ReadKey() returns (key: string)
      requires pos < |src|
      modifies `pos
      ensures old(pos) <= pos <= |src| && (key, Rest()) == FmtKey(old(Rest()))
    {
      hide BodyLen, Copied, PastColon;
      key := "";
      CopiedNothing(KEY_LEN);
      if src[pos] == '\"' {
        key := ScanString(KEY_LEN);
      }
      TakeColon();
      var klen := |key|;
      if klen >= 2 && key[0] == '\"' && key[klen - 1] == '\"' {
        key := key[1..klen - 1];
      }
    }

    method TakeColon()
      requires pos <= |src|
      modifies `pos
      ensures old(pos) <= pos <= |src| && Rest() == PastColon(old(Rest()))
    {
      SkipSpace();
      ghost var t := Rest();
      if pos < |src| && src[pos] == ':' {
        pos := pos + 1;
        assert Rest() == t[1..];
      }
      SkipSpace();
    }

    method FormatArrayContents()
      requires Valid()
      modifies `pos, pp
      ensures Valid() && pos >= old(pos)
      ensures Out(Rest(), pp.lines) == FmtItems(lc, false, old(Rest()), old(pp.lines), 0, old(pp.depth), old(pp.path))
      ensures pp.depth == old(pp.depth) && pp.path == old(pp.path)
      decreases |src| + 1 - pos, 4
    {
      hide Clipped, FmtItems, FmtItem;
      ItemsSkip(lc, false, Rest(), pp.lines, 0, pp.depth, pp.path);
      SkipSpace();
      var idx := 0;
      while pos < |src| && src[pos] != ']' && |pp.lines| < MAX_LINES
        invariant Valid() && pos >= old(pos) && pp.depth == old(pp.depth) && pp.path == old(pp.path)
        invariant SkipWs(Rest()) == Rest()
        invariant FmtItems(lc, false, Rest(), pp.lines, idx, pp.depth, pp.path)
               == FmtItems(lc, false, old(Rest()), old(pp.lines), 0, old(pp.depth), old(pp.path))
        decreases |src| + 1 - pos
      {
        LoopUnfold(lc, false, Rest(), pp.lines, idx, pp.depth, pp.path);
        FormatElement(idx);
        idx := idx + 1;
        SkipSpace();
      }
      LoopUnfold(lc, false, Rest(), pp.lines, idx, pp.depth, pp.path);
      if pos < |src| && src[pos] == ']' { pos := pos + 1; }
    }

    /** The body of that loop, without its last skip. */
    method FormatElement(idx: nat)
      requires Valid() && pos < |src| && SkipWs(Rest()) == Rest()
      modifies `pos, pp
      ensures Valid() && pos > old(pos) && pp.depth == old(pp.depth) && pp.path == old(pp.path)
      ensures Out(Rest(), pp.lines) == FmtItem(lc, false, old(Rest()), old(pp.lines), idx, old(pp.depth), old(pp.path))
      decreases |src| + 1 - pos, 3
    {
      hide Clipped, FmtProgress, PastComma, PathPush;
      var mark := pp.PushPath(Decimal(idx));
      FormatOrSkip("");
      pp.PopPath(mark);
      TakeComma();
    }
  }

  lemma ContainerUnfold(lc: Libc, isObj: bool, t: string, lines: seq<Line>, key: string, depth: nat, path: string)
    requires t != ""
    ensures var o := FmtItems(lc, isObj, t[1..], Emit(lines, MkLine(depth, path, key, Opening(isObj), Punct, false)), 0, depth + 1, path);
      FmtContainer(lc, isObj, t, lines, key, depth, path)
      == Out(o.rest, Emit(o.lines, MkLine(depth, path, "", Closing(isObj), Punct, false)))
  {
    hide FmtItems, MkLine, Emit;
  }

  lemma ScalarUnfold(lc: Libc, t: string, lines: seq<Line>, key: string, depth: nat, path: string)
    requires t != ""
    ensures var n := if t[0] == '\"' then 1 + BodyLen(t[1..]) else AtomLen(t);
      var val := Copied(t[..n], VAL_LEN);
      FmtScalar(lc, t, lines, key, depth, path) == Out(t[n..], Emit(lines,
        if t[0] == '\"' then MkLine(depth, path, key, val, Str, QuotedNumeric(lc, val))
        else MkLine(depth, path, key, val, Atom, AtomNumeric(lc, val))))
  {
    hide MkLine, Emit, BodyLen, AtomLen, Copied, QuotedNumeric, AtomNumeric;
  }

  lemma EmitKept(lines: seq<Line>, l: Line)
    ensures Emit(lines, l) == if |lines| < MAX_LINES then lines + [l] else lines
  {
  }

  lemma CopiedNothing(cap: nat)
    requires cap > 0
    ensures Copied("", cap) == ""
  {
  }

  lemma ItemsSkip(lc: Libc, isObj: bool, s: string, lines: seq<Line>, i: nat, depth: nat, path: string)
    ensures FmtItems(lc, isObj, SkipWs(s), lines, i, depth, path) == FmtItems(lc, isObj, s, lines, i, depth, path)
  {
    SkipWsHere(SkipWs(s));
  }

  /** One unfolding of FmtItems on input without leading whitespace. */
  lemma LoopUnfold(lc: Libc, isObj: bool, t: string, lines: seq<Line>, i: nat, depth: nat, path: string)
    requires SkipWs(t) == t
    ensures FmtItems(lc, isObj, t, lines, i, depth, path) ==
      if t == "" then Out(t, lines)
      else if [t[0]] == Closing(isObj) then Out(t[1..], lines)
      else if |lines| >= MAX_LINES then Out(t, lines)
      else
        var o := FmtItem(lc, isObj, t, lines, i, depth, path);
        FmtItems(lc, isObj, SkipWs(o.rest), o.lines, i + 1, depth, path)
  {
    if t != "" && [t[0]] != Closing(isObj) && |lines| < MAX_LINES {
      var o := FmtItem(lc, isObj, t, lines, i, depth, path);
      ItemsSkip(lc, isObj, o.rest, o.lines, i + 1, depth, path);
    }
  }

  /** json_pp_run_len: total on every byte string, stays within the source, leaves depth and
      path as they were, and opens no bracket it does not close unless the table fills up. */
  method RunLen(pp: LineTable, src: string, lc: Libc) returns (pos: nat)
    modifies pp
    ensures var s := if |src| > INT32_MAX then src[..INT32_MAX] else src;
      pp.lines == FmtValue(lc, s, [], "", 0, "").lines && pos <= |s| + 1
    ensures pp.Valid() && pp.depth == 0 && pp.path == ""
    ensures |pp.lines| < MAX_LINES ==> Nested(pp.lines) == Some("")
  {
    pp.Begin();
    var s := if |src| > INT32_MAX then src[..INT32_MAX] else src;
    var j := new JsonPP(s, pp, lc);
    assert s[0..] == s;
    j.FormatValue("");
    ValueNests(lc, s, [], "", 0, "", "");
    pos := j.pos;
  }
}
