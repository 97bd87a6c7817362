/** The line table both formatters fill (src/model/json_pp.h:14-55): depth, key,
    value, trailing comma and dot path per line, at most MAX_LINES of them. */
module LineModel {
  import opened Text

  const MAX_LINES := 2048
  const MAX_DEPTH := 64
  const KEY_LEN := 128
  const VAL_LEN := 272
  const PATH_LEN := 128

  datatype Kind = Punct | Str | Atom

  datatype Line = Line(depth: nat, key: string, sep: string, val: string, comma: bool,
                       kind: Kind, path: string, numeric: bool)

  /** The line json_pp_emit stores for C strings `key` and `val`. */
  function MkLine(depth: nat, path: string, key: string, val: string, kind: Kind, numeric: bool): Line {
    Line(depth, Clip(key, KEY_LEN), if key == "" then "" else ": ", Clip(val, VAL_LEN), false,
         kind, Clip(path, PATH_LEN), numeric)
  }

  /** json_pp_quoted_is_numeric. */
  predicate QuotedNumeric(lc: Libc, val: string) {
    |val| >= 2 && val[0] == '\"' && val[|val| - 1] == '\"' && lc.IsNumber(val[1..|val| - 1])
  }

  /** The dot path after json_pp_path_push: a segment that does not fit is left out whole. */
  function PathPush(path: string, seg: string): (r: string)
    ensures path <= r
    ensures |path| < PATH_LEN ==> |r| < PATH_LEN
  {
    var dot := if path == "" then "" else ".";
    if seg == "" || |path| + |dot| + |seg| + 1 > PATH_LEN then path else path + dot + seg
  }

  /** Sets the comma of the last line (json_pp_mark_trailing_comma). */
  function MarkLast(ls: seq<Line>): (r: seq<Line>)
    ensures |r| == |ls|
  {
    if ls == [] then [] else ls[..|ls| - 1] + [ls[|ls| - 1].(comma := true)]
  }

  lemma MarkLastConcat(a: seq<Line>, b: seq<Line>)
    requires b != []
    ensures MarkLast(a + b) == a + MarkLast(b)
  {
    assert (a + b)[..|a + b| - 1] == a + b[..|b| - 1];
  }

  /** What a table of MAX_LINES slots keeps of an unbounded list of lines: the first
      MAX_LINES of them.  Once lines have been dropped, commas meant for a dropped line land
      on the last kept one, so there the comma is left open. */
  ghost predicate Clipped(kept: seq<Line>, full: seq<Line>) {
    if |full| <= MAX_LINES then kept == full
    else
      && |kept| == MAX_LINES
      && kept[..MAX_LINES - 1] == full[..MAX_LINES - 1]
      && SameButComma(kept[MAX_LINES - 1], full[MAX_LINES - 1])
  }

  ghost predicate SameButComma(a: Line, b: Line) {
    a.(comma := b.comma) == b
  }

  lemma ClippedEmit(kept: seq<Line>, full: seq<Line>, l: Line)
    requires Clipped(kept, full)
    ensures Clipped(if |kept| < MAX_LINES then kept + [l] else kept, full + [l])
  {
    if |full| > MAX_LINES { assert (full + [l])[..MAX_LINES - 1] == full[..MAX_LINES - 1]; }
  }

  lemma ClippedMark(kept: seq<Line>, full: seq<Line>)
    requires Clipped(kept, full)
    ensures Clipped(MarkLast(kept), MarkLast(full))
  {
    if |full| > MAX_LINES {
      assert MarkLast(full)[..MAX_LINES - 1] == full[..MAX_LINES - 1];
    }
  }

  /** Once the table is full, later lines and a comma on the last kept line make no difference. */
  lemma ClippedExtend(kept: seq<Line>, kept': seq<Line>, full: seq<Line>, full': seq<Line>)
    requires Clipped(kept, full) && |full| > MAX_LINES
    requires kept' == kept || kept' == MarkLast(kept)
    requires |full'| >= |full| && full'[..MAX_LINES] == full[..MAX_LINES]
    ensures Clipped(kept', full')
  {
    assert full'[..MAX_LINES][..MAX_LINES - 1] == full'[..MAX_LINES - 1];
    assert full[..MAX_LINES][..MAX_LINES - 1] == full[..MAX_LINES - 1];
    assert full'[..MAX_LINES][MAX_LINES - 1] == full'[MAX_LINES - 1];
    assert full[..MAX_LINES][MAX_LINES - 1] == full[MAX_LINES - 1];
  }

  /** A table filled exactly, with more lines to come. */
  lemma ClippedFull(kept: seq<Line>, more: seq<Line>)
    requires |kept| == MAX_LINES
    ensures Clipped(kept, kept + more)
  {
    if more == [] {
      assert kept + more == kept;
    } else {
      assert (kept + more)[..MAX_LINES - 1] == kept[..MAX_LINES - 1];
    }
  }

  /** The JsonPP object without its tokenizer cursor.  `full` is the list an unbounded
      table would hold. */
  class LineTable {
    var lines: seq<Line>
    var depth: nat
    var path: string
    ghost var full: seq<Line>

    ghost predicate Valid()
      reads this
    {
      && |lines| <= MAX_LINES
      && |path| < PATH_LEN
      && Clipped(lines, full)
    }

    constructor ()
      ensures Valid() && lines == [] && full == [] && depth == 0 && path == ""
    {
      lines, full, depth, path := [], [], 0, "";
    }

    method Begin()
      modifies this
      ensures Valid() && lines == [] && full == [] && depth == 0 && path == ""
    {
      lines, full, depth, path := [], [], 0, "";
    }

    method Emit(key: string, val: string, kind: Kind, numeric: bool)
      requires Valid()
      modifies `lines, `full
      ensures Valid()
      ensures full == old(full) + [MkLine(depth, path, key, val, kind, numeric)]
      ensures lines == if |old(lines)| < MAX_LINES
                       then old(lines) + [MkLine(depth, path, key, val, kind, numeric)] else old(lines)
    {
      var l := MkLine(depth, path, key, val, kind, numeric);
      ClippedEmit(lines, full, l);
      full := full + [l];
      if |lines| >= MAX_LINES { return; }
      lines := lines + [l];
    }

    method MarkTrailingComma()
      requires Valid()
      modifies `lines, `full
      ensures Valid()
      ensures full == MarkLast(old(full)) && lines == MarkLast(old(lines))
    {
      ClippedMark(lines, full);
      full := MarkLast(full);
      if |lines| > 0 {
        lines := lines[|lines| - 1 := lines[|lines| - 1].(comma := true)];
      }
    }

    method PushPath(seg: string) returns (mark: nat)
      requires Valid()
      modifies `path
      ensures Valid()
      ensures path == PathPush(old(path), seg) && mark == |old(path)|
    {
      mark := |path|;
      if seg == "" { return; }
      var needDot := if |path| > 0 then 1 else 0;
      if |path| + needDot + |seg| + 1 > PATH_LEN { return; }
      if needDot == 1 { path := path + "."; }
      path := path + seg;
    }

    method PopPath(mark: nat)
      requires Valid() && mark <= |path|
      modifies `path
      ensures Valid() && path == old(path)[..mark]
    {
      path := path[..mark];
    }
  }
}
