/** The lenient JSON formatter of src/model/json_pp.c as functions from the unread input to
    the input left over and the lines so far.  It accepts every string. */
module JsonScan {
  import opened Text
  import opened LineModel

  predicate IsWs(c: char) { c == ' ' || c == '\t' || c == '\n' || c == '\r' }

  predicate IsDelimiter(c: char) { c in {',', '}', ']', '{', '['} || IsWs(c) }

  function SkipWs(s: string): (r: string)
    ensures |r| <= |s|
    ensures r != "" ==> !IsWs(r[0])
  {
    if s != "" && IsWs(s[0]) then SkipWs(s[1..]) else s
  }

  /** Length of a string body up to and including its closing quote; an escaped character never closes. */
  function BodyLen(s: string): (n: nat)
    ensures n <= |s|
    ensures s != "" ==> n > 0
    decreases |s|
  {
    if s == "" then 0
    else if s[0] == '\\' && |s| > 1 then 2 + BodyLen(s[2..])
    else if s[0] == '\"' then 1
    else 1 + BodyLen(s[1..])
  }

  function AtomLen(s: string): (n: nat)
    ensures n <= |s|
  {
    if s == "" || IsDelimiter(s[0]) then 0 else 1 + AtomLen(s[1..])
  }

  /** A token copied into a buffer of `cap` bytes and read back as a C string. */
  function Copied(token: string, cap: nat): (r: string)
    requires cap > 0
    ensures |r| < cap
  {
    CStr(Clip(token, cap))
  }

  /** The key without the quotes scan_string kept. */
  function Unquoted(k: string): (r: string)
    ensures |r| <= |k|
  {
    if |k| >= 2 && k[0] == '\"' && k[|k| - 1] == '\"' then k[1..|k| - 1] else k
  }

  predicate AtomNumeric(lc: Libc, val: string) {
    if val == "" then false
    else
      var p := if val[0] == '+' || val[0] == '-' then val[1..] else val;
      !(|p| >= 2 && p[0] == '0' && (p[1] == 'x' || p[1] == 'X')) && lc.IsNumber(val)
  }

  function Emit(lines: seq<Line>, l: Line): (r: seq<Line>)
    ensures |r| <= Max(|lines|, MAX_LINES)
  {
    if |lines| < MAX_LINES then lines + [l] else lines
  }

  datatype Out = Out(rest: string, lines: seq<Line>)

  /** One value. */
  function FmtValue(lc: Libc, s: string, lines: seq<Line>, key: string, depth: nat, path: string): (r: Out)
    ensures |r.rest| <= |s|
    decreases |s|, 1
  {
    var t := SkipWs(s);
    if t == "" || |lines| >= MAX_LINES || depth >= MAX_DEPTH then Out(t, lines)
    else if t[0] == '{' || t[0] == '[' then FmtContainer(lc, t[0] == '{', t, lines, key, depth, path)
    else FmtScalar(lc, t, lines, key, depth, path)
  }

  /** An opening bracket, its items, and a closing bracket whether or not the input has one. */
  function FmtContainer(lc: Libc, isObj: bool, t: string, lines: seq<Line>, key: string, depth: nat, path: string): (r: Out)
    requires t != ""
    ensures |r.rest| < |t|
    decreases |t|, 0
  {
    var o := FmtItems(lc, isObj, t[1..], Emit(lines, MkLine(depth, path, key, Opening(isObj), Punct, false)), 0, depth + 1, path);
    o.(lines := Emit(o.lines, MkLine(depth, path, "", Closing(isObj), Punct, false)))
  }

  /** A string or an atom. */
  function FmtScalar(lc: Libc, t: string, lines: seq<Line>, key: string, depth: nat, path: string): (r: Out)
    requires t != ""
    ensures |r.rest| <= |t|
  {
    if t[0] == '\"' then
      var n := 1 + BodyLen(t[1..]);
      var val := Copied(t[..n], VAL_LEN);
      Out(t[n..], Emit(lines, MkLine(depth, path, key, val, Str, QuotedNumeric(lc, val))))
    else
      var n := AtomLen(t);
      var val := Copied(t[..n], VAL_LEN);
      Out(t[n..], Emit(lines, MkLine(depth, path, key, val, Atom, AtomNumeric(lc, val))))
  }

  function Opening(isObj: bool): string { if isObj then "{" else "[" }

  function Closing(isObj: bool): string { if isObj then "}" else "]" }

  /** The members of an object or the elements of an array from number `i` on. */
  function FmtItems(lc: Libc, isObj: bool, s: string, lines: seq<Line>, i: nat, depth: nat, path: string): (r: Out)
    ensures |r.rest| <= |s|
    decreases |s|, 4
  {
    var t := SkipWs(s);
    if t == "" then Out(t, lines)
    else if [t[0]] == Closing(isObj) then Out(t[1..], lines)
    else if |lines| >= MAX_LINES then Out(t, lines)
    else
      var o := FmtItem(lc, isObj, t, lines, i, depth, path);
      FmtItems(lc, isObj, o.rest, o.lines, i + 1, depth, path)
  }

  /** The key and colon of a member, however broken, and what follows them. */
  function FmtKey(s: string): (r: (string, string))
    ensures |r.1| <= |s|
    ensures |r.0| < KEY_LEN
  {
    var n := if s != "" && s[0] == '\"' then 1 + BodyLen(s[1..]) else 0;
    (Unquoted(Copied(s[..n], KEY_LEN)), PastColon(s[n..]))
  }

  function PastColon(s: string): (r: string)
    ensures |r| <= |s|
  {
    var t := SkipWs(s);
    SkipWs(if t != "" && t[0] == ':' then t[1..] else t)
  }

  /** One member or element and the comma after it; input that yields nothing loses a character. */
  function FmtItem(lc: Libc, isObj: bool, t: string, lines: seq<Line>, i: nat, depth: nat, path: string): (r: Out)
    requires t != ""
    ensures |r.rest| < |t|
    decreases |t|, 3
  {
    var (key, u) := if isObj then FmtKey(t) else ("", t);
    var o := FmtProgress(lc, u, lines, key, depth, PathPush(path, if isObj then key else Decimal(i)));
    PastComma(o.rest, o.lines)
  }

  /** A value, or one character lost when there is none. */
  function FmtProgress(lc: Libc, u: string, lines: seq<Line>, key: string, depth: nat, path: string): (r: Out)
    ensures |r.rest| <= |u| && (u != "" ==> |r.rest| < |u|)
    decreases |u|, 2
  {
    var o := FmtValue(lc, u, lines, key, depth, path);
    if |o.rest| == |u| && u != "" then Out(u[1..], o.lines) else o
  }

  function PastComma(s: string, lines: seq<Line>): (r: Out)
    ensures |r.rest| <= |s|
  {
    var v := SkipWs(s);
    if v != "" && v[0] == ',' then Out(v[1..], MarkLast(lines)) else Out(v, lines)
  }

  // ----- what holds for every input, well formed or not

  /** The brackets still open after a line, outermost first, or None if the line does not
      fit: wrong bracket, or a depth other than the number of open brackets. */
  function NestStep(open: Option<string>, l: Line): Option<string> {
    if open.None? then None
    else
      var st := open.value;
      if l.kind == Punct && (l.val == "{" || l.val == "[") then
        if l.depth == |st| then Some(st + l.val) else None
      else if l.kind == Punct then
        if st != "" && l.depth == |st| - 1 && l.val == Closing(st[|st| - 1] == '{') then Some(st[..|st| - 1]) else None
      else if l.depth == |st| then open else None
  }

  function Nested(lines: seq<Line>): Option<string> {
    if lines == [] then Some("") else NestStep(Nested(lines[..|lines| - 1]), lines[|lines| - 1])
  }

  lemma NestedEmit(lines: seq<Line>, l: Line)
    ensures Nested(lines + [l]) == NestStep(Nested(lines), l)
  {
    assert (lines + [l])[..|lines|] == lines;
  }

  lemma NestedMark(lines: seq<Line>)
    ensures Nested(MarkLast(lines)) == Nested(lines)
  {
    if lines != [] { assert MarkLast(lines)[..|lines| - 1] == lines[..|lines| - 1]; }
  }

  lemma NestedBracket(lines: seq<Line>, isObj: bool, depth: nat, path: string, key: string, st: string)
    requires Nested(lines) == Some(st) && |st| == depth
    ensures Nested(lines + [MkLine(depth, path, key, Opening(isObj), Punct, false)]) == Some(st + Opening(isObj))
  {
    NestedEmit(lines, MkLine(depth, path, key, Opening(isObj), Punct, false));
  }

  lemma NestedClose(lines: seq<Line>, isObj: bool, depth: nat, path: string, st: string)
    requires Nested(lines) == Some(st + Opening(isObj)) && |st| == depth
    ensures Nested(lines + [MkLine(depth, path, "", Closing(isObj), Punct, false)]) == Some(st)
  {
    NestedEmit(lines, MkLine(depth, path, "", Closing(isObj), Punct, false));
    assert (st + Opening(isObj))[..|st|] == st;
  }

  lemma NestedScalar(lines: seq<Line>, st: string, depth: nat, path: string, key: string, val: string, kind: Kind, numeric: bool)
    requires Nested(lines) == Some(st) && |st| == depth && kind != Punct
    ensures Nested(lines + [MkLine(depth, path, key, val, kind, numeric)]) == Some(st)
  {
    NestedEmit(lines, MkLine(depth, path, key, val, kind, numeric));
  }

  /** Whatever the bytes, each value closes the brackets it opens, at their own depth, unless
      the table fills up. */
  lemma {:induction false} ValueNests(lc: Libc, s: string, lines: seq<Line>, key: string, depth: nat, path: string, st: string)
    requires Nested(lines) == Some(st) && |st| == depth
    ensures var r := FmtValue(lc, s, lines, key, depth, path); |r.lines| < MAX_LINES ==> Nested(r.lines) == Some(st)
    decreases |s|, 1
  {
    hide Nested, FmtContainer, FmtScalar;
    var t := SkipWs(s);
    if t == "" || |lines| >= MAX_LINES || depth >= MAX_DEPTH {
    } else if t[0] == '{' || t[0] == '[' {
      ContainerNests(lc, t[0] == '{', t, lines, key, depth, path, st);
    } else {
      ScalarNests(lc, t, lines, key, depth, path, st);
    }
  }

  lemma ScalarNests(lc: Libc, t: string, lines: seq<Line>, key: string, depth: nat, path: string, st: string)
    requires t != "" && |lines| < MAX_LINES && Nested(lines) == Some(st) && |st| == depth
    ensures Nested(FmtScalar(lc, t, lines, key, depth, path).lines) == Some(st)
  {
    hide Nested, MkLine, Copied, AtomNumeric, QuotedNumeric, AtomLen, BodyLen;
    if t[0] == '\"' {
      var val := Copied(t[..1 + BodyLen(t[1..])], VAL_LEN);
      NestedScalar(lines, st, depth, path, key, val, Str, QuotedNumeric(lc, val));
    } else {
      var val := Copied(t[..AtomLen(t)], VAL_LEN);
      NestedScalar(lines, st, depth, path, key, val, Atom, AtomNumeric(lc, val));
    }
  }

  lemma {:induction false} ContainerNests(lc: Libc, isObj: bool, t: string, lines: seq<Line>, key: string, depth: nat,
                                          path: string, st: string)
    requires t != "" && |lines| < MAX_LINES && Nested(lines) == Some(st) && |st| == depth
    ensures var r := FmtContainer(lc, isObj, t, lines, key, depth, path); |r.lines| < MAX_LINES ==> Nested(r.lines) == Some(st)
    decreases |t|, 0
  {
    hide Nested, MkLine, FmtItems;
    var under := lines + [MkLine(depth, path, key, Opening(isObj), Punct, false)];
    NestedBracket(lines, isObj, depth, path, key, st);
    ItemsNest(lc, isObj, t[1..], under, 0, depth + 1, path, st + Opening(isObj));
    var o := FmtItems(lc, isObj, t[1..], under, 0, depth + 1, path);
    if |o.lines| < MAX_LINES { NestedClose(o.lines, isObj, depth, path, st); }
  }

  lemma {:induction false} ItemsNest(lc: Libc, isObj: bool, s: string, lines: seq<Line>, i: nat, depth: nat, path: string, st: string)
    requires Nested(lines) == Some(st) && |st| == depth
    ensures var r := FmtItems(lc, isObj, s, lines, i, depth, path); |r.lines| < MAX_LINES ==> Nested(r.lines) == Some(st)
    decreases |s|, 4
  {
    hide Nested, FmtItem;
    var t := SkipWs(s);
    if t != "" && [t[0]] != Closing(isObj) && |lines| < MAX_LINES {
      ItemNests(lc, isObj, t, lines, i, depth, path, st);
      var o := FmtItem(lc, isObj, t, lines, i, depth, path);
      if |o.lines| < MAX_LINES {
        ItemsNest(lc, isObj, o.rest, o.lines, i + 1, depth, path, st);
      } else {
        FullStays(lc, isObj, o.rest, o.lines, i + 1, depth, path);
      }
    }
  }

  lemma FullStays(lc: Libc, isObj: bool, s: string, lines: seq<Line>, i: nat, depth: nat, path: string)
    requires |lines| >= MAX_LINES
    ensures FmtItems(lc, isObj, s, lines, i, depth, path).lines == lines
  {
  }

  lemma {:induction false} ItemNests(lc: Libc, isObj: bool, t: string, lines: seq<Line>, i: nat, depth: nat, path: string, st: string)
    requires t != "" && Nested(lines) == Some(st) && |st| == depth
    ensures var r := FmtItem(lc, isObj, t, lines, i, depth, path); |r.lines| < MAX_LINES ==> Nested(r.lines) == Some(st)
    decreases |t|, 2
  {
    hide Nested, FmtValue, FmtKey, PathPush;
    var (key, u) := if isObj then FmtKey(t) else ("", t);
    var p := PathPush(path, if isObj then key else Decimal(i));
    ValueNests(lc, u, lines, key, depth, p, st);
    NestedMark(FmtValue(lc, u, lines, key, depth, p).lines);
  }
}
