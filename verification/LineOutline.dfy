/** What a reader of the line table sees: brackets, values and keys, nested as their depths say,
    each under the dot path it should have.  It knows nothing of the formatters. */
module LineOutline {
  import opened Text
  import opened LineModel

  /** The columns of a line that show the tree; commas and numbers have statements of their own. */
  datatype Row = Row(depth: nat, key: string, sep: string, val: string, kind: Kind, path: string)

  function RowOf(l: Line): Row { Row(l.depth, l.key, l.sep, l.val, l.kind, l.path) }

  function Rows(ls: seq<Line>): (r: seq<Row>)
    ensures |r| == |ls| && forall i :: 0 <= i < |ls| ==> r[i] == RowOf(ls[i])
  {
    seq(|ls|, i requires 0 <= i < |ls| => RowOf(ls[i]))
  }

  datatype Outline = Value(kind: Kind, val: string) | Bracket(open: string, close: string, parts: seq<Part>)

  datatype Part = Part(key: string, body: Outline)

  predicate StartsClosing(s: string) { s != "" && (s[0] == '}' || s[0] == ']') }

  predicate Closes(r: Row) { r.kind == Punct && StartsClosing(r.val) }

  /** A colon stands after a key and only there. */
  predicate Separated(r: Row) { r.sep == if r.key == "" then "" else ": " }

  /** The dot path below `path`, of at most 127 characters; a segment is left out whole. */
  function Reached(path: string, seg: string): string {
    var j := if path == "" then seg else path + ("." + seg);
    if seg == "" || |j| > 127 then path else j
  }

  // ----- reading

  function Read(rs: seq<Row>, depth: nat, path: string): (r: Option<(Outline, seq<Row>)>)
    ensures r.Some? ==> |r.value.1| < |rs|
    decreases |rs|, 0
  {
    if rs == [] || rs[0].depth != depth || rs[0].path != path || !Separated(rs[0]) || Closes(rs[0]) then None
    else if rs[0].kind != Punct then Some((Value(rs[0].kind, rs[0].val), rs[1..]))
    else match ReadParts(rs[1..], '{' in rs[0].val, 0, depth + 1, path)
      case None => None
      case Some((parts, t)) =>
        if t != [] && Closes(t[0]) && t[0].depth == depth && t[0].path == path && t[0].key == t[0].sep == "" then
          Some((Bracket(rs[0].val, t[0].val, parts), t[1..]))
        else None
  }

  /** The members or elements from number i on, up to a closing line. */
  function ReadParts(rs: seq<Row>, isMap: bool, i: nat, depth: nat, path: string): (r: Option<(seq<Part>, seq<Row>)>)
    ensures r.Some? ==> |r.value.1| <= |rs|
    decreases |rs|, 1
  {
    if rs == [] then None
    else if Closes(rs[0]) then Some(([], rs))
    else if !isMap && rs[0].key != "" then None
    else match Read(rs, depth, Reached(path, if isMap then rs[0].key else Decimal(i)))
      case None => None
      case Some((o, t)) =>
        match ReadParts(t, isMap, i + 1, depth, path)
        case None => None
        case Some((ps, u)) => Some(([Part(rs[0].key, o)] + ps, u))
  }

  /** The outline of a whole table. */
  function Seen(ls: seq<Line>): Option<Outline> {
    match Read(Rows(ls), 0, "")
    case None => None
    case Some((o, t)) => if t == [] && ls[0].key == "" then Some(o) else None
  }

  // ----- the rows of an outline

  function RowsOf(o: Outline, key: string, depth: nat, path: string): (r: seq<Row>)
    ensures |r| > 0 && r[0].key == key
    decreases o, 1
  {
    var sep := if key == "" then "" else ": ";
    match o
    case Value(kind, val) => [Row(depth, key, sep, val, kind, path)]
    case Bracket(open, close, parts) =>
      [Row(depth, key, sep, open, Punct, path)]
      + PartsRows(parts, '{' in open, 0, depth + 1, path)
      + [Row(depth, "", "", close, Punct, path)]
  }

  function PartsRows(ps: seq<Part>, isMap: bool, i: nat, depth: nat, path: string): seq<Row>
    decreases ps, 0
  {
    if ps == [] then [] else PartRows(ps[0], isMap, i, depth, path) + PartsRows(ps[1..], isMap, i + 1, depth, path)
  }

  function PartRows(p: Part, isMap: bool, i: nat, depth: nat, path: string): (r: seq<Row>)
    ensures |r| > 0 && r[0].key == p.key
    decreases p, 2
  {
    RowsOf(p.body, p.key, depth, Reached(path, if isMap then p.key else Decimal(i)))
  }

  predicate Shaped(o: Outline) {
    match o
    case Value(kind, _) => kind != Punct
    case Bracket(open, close, ps) =>
      && !StartsClosing(open) && StartsClosing(close)
      && forall i :: 0 <= i < |ps| ==> ShapedPart(ps[i], '{' in open)
  }

  predicate ShapedPart(p: Part, isMap: bool)
    decreases p
  {
    Shaped(p.body) && (!isMap ==> p.key == "")
  }

  lemma {:induction false} OutlineReads(o: Outline, key: string, depth: nat, path: string, tail: seq<Row>)
    requires Shaped(o)
    ensures Read(RowsOf(o, key, depth, path) + tail, depth, path) == Some((o, tail))
    decreases o, 1
  {
    var rs := RowsOf(o, key, depth, path) + tail;
    if o.Value? {
      assert rs[1..] == tail;
    } else {
      var close := [Row(depth, "", "", o.close, Punct, path)];
      var body := PartsRows(o.parts, '{' in o.open, 0, depth + 1, path);
      PartsRead(o.parts, '{' in o.open, 0, depth + 1, path, close + tail);
      assert rs[1..] == body + (close + tail);
      assert (close + tail)[1..] == tail;
    }
  }

  lemma {:induction false} PartsRead(ps: seq<Part>, isMap: bool, i: nat, depth: nat, path: string, tail: seq<Row>)
    requires forall k :: 0 <= k < |ps| ==> ShapedPart(ps[k], isMap)
    requires tail != [] && Closes(tail[0])
    ensures ReadParts(PartsRows(ps, isMap, i, depth, path) + tail, isMap, i, depth, path) == Some((ps, tail))
    decreases ps, 0
  {
    if ps == [] {
      assert PartsRows(ps, isMap, i, depth, path) + tail == tail;
    } else {
      var rest := PartsRows(ps[1..], isMap, i + 1, depth, path);
      var first := PartRows(ps[0], isMap, i, depth, path);
      Assoc(first, rest, tail);
      PartReads(ps[0], isMap, i, depth, path, rest + tail);
      PartsRead(ps[1..], isMap, i + 1, depth, path, tail);
      assert ps == [ps[0]] + ps[1..];
    }
  }

  lemma {:induction false} PartReads(p: Part, isMap: bool, i: nat, depth: nat, path: string, tail: seq<Row>)
    requires ShapedPart(p, isMap)
    ensures var rs, r := PartRows(p, isMap, i, depth, path) + tail, Reached(path, if isMap then p.key else Decimal(i));
      && rs[0].key == p.key && !Closes(rs[0])
      && Read(rs, depth, r) == Some((p.body, tail))
    decreases p, 2
  {
    OutlineReads(p.body, p.key, depth, Reached(path, if isMap then p.key else Decimal(i)), tail);
  }

  /** A table with the rows of an outline shows it. */
  lemma SeenBack(ls: seq<Line>, o: Outline)
    requires Shaped(o) && Rows(ls) == RowsOf(o, "", 0, "")
    ensures Seen(ls) == Some(o)
  {
    OutlineReads(o, "", 0, "", []);
    assert RowsOf(o, "", 0, "") + [] == RowsOf(o, "", 0, "");
    assert Rows(ls)[0] == RowOf(ls[0]);
  }

  // ----- the formatters' building blocks

  lemma RowsConcat(a: seq<Line>, b: seq<Line>)
    ensures Rows(a + b) == Rows(a) + Rows(b)
  {
  }

  lemma RowsMarked(ls: seq<Line>)
    ensures Rows(MarkLast(ls)) == Rows(ls)
  {
  }

  lemma ReachedIsPushed(path: string, seg: string)
    ensures Reached(path, seg) == PathPush(path, seg)
  {
    if path != "" { Assoc(path, ".", seg); } else { assert "" + "" + seg == seg; }
  }

  // ----- commas

  predicate OpensBracket(l: Line) { l.kind == Punct && !StartsClosing(l.val) }

  predicate EndsBracket(l: Line) { l.kind == Punct && StartsClosing(l.val) }

  /** A comma stands exactly after what another item of the same bracket follows: never after
      an opening line, the last line, or a line before a closing one. */
  predicate CommasStand(ls: seq<Line>) {
    forall k :: 0 <= k < |ls| ==> CommaStands(ls, k)
  }

  predicate CommaStands(ls: seq<Line>, k: nat)
    requires k < |ls|
  {
    ls[k].comma <==> !OpensBracket(ls[k]) && k + 1 < |ls| && !EndsBracket(ls[k + 1])
  }

  /** Lines of whole items: they neither start with a closing line nor end with an opening one. */
  predicate WholeItems(ls: seq<Line>) {
    |ls| > 0 && CommasStand(ls) && !EndsBracket(ls[0]) && !OpensBracket(ls[|ls| - 1])
  }

  lemma WholeOne(l: Line)
    requires l.kind != Punct && !l.comma
    ensures WholeItems([l])
  {
  }

  lemma WholeJoined(a: seq<Line>, b: seq<Line>)
    requires WholeItems(a) && WholeItems(b)
    ensures WholeItems(MarkLast(a) + b)
  {
    var ls := MarkLast(a) + b;
    forall k | 0 <= k < |ls|
      ensures CommaStands(ls, k)
    {
      if k < |a| - 1 {
        assert CommaStands(a, k);
        assert ls[k] == a[k] && ls[k + 1].kind == a[k + 1].kind && ls[k + 1].val == a[k + 1].val;
      } else if k == |a| - 1 {
        assert ls[k + 1] == b[0];
      } else {
        assert CommaStands(b, k - |a|);
        assert ls[k] == b[k - |a|];
        assert k + 1 < |ls| ==> ls[k + 1] == b[k + 1 - |a|];
      }
    }
    assert ls[0].kind == a[0].kind && ls[0].val == a[0].val;
    assert ls[|ls| - 1] == b[|b| - 1];
  }

  lemma Between<T>(x: T, body: seq<T>, y: T)
    ensures var s := [x] + body + [y];
      && |s| == |body| + 2 && s[0] == x && s[|body| + 1] == y
      && forall k :: 0 <= k < |body| ==> s[k + 1] == body[k]
  {
  }

  lemma WholeBracketed(open: Line, body: seq<Line>, close: Line)
    requires OpensBracket(open) && !open.comma && EndsBracket(close) && !close.comma && (body == [] || WholeItems(body))
    ensures WholeItems([open] + body + [close])
  {
    hide StartsClosing;
    var ls := [open] + body + [close];
    Between(open, body, close);
    forall k | 0 <= k < |ls|
      ensures CommaStands(ls, k)
    {
      if 0 < k <= |body| {
        assert CommaStands(body, k - 1);
        assert ls[k - 1 + 1] == body[k - 1];
        if k < |body| { assert ls[k + 1] == body[k]; }
      }
    }
  }

  /** What a table that may have filled up keeps of that: all but perhaps its last comma. */
  predicate CommasStandIn(ls: seq<Line>) {
    forall k :: 0 <= k < |ls| && (k + 1 < |ls| || |ls| < 2048) ==> CommaStands(ls, k)
  }

  lemma ClippedCommas(kept: seq<Line>, full: seq<Line>)
    requires Clipped(kept, full) && CommasStand(full)
    ensures CommasStandIn(kept)
  {
    if |full| > MAX_LINES {
      forall k | 0 <= k < MAX_LINES - 1
        ensures CommaStands(kept, k)
      {
        assert CommaStands(full, k);
        assert kept[k] == kept[..MAX_LINES - 1][k] == full[..MAX_LINES - 1][k] == full[k];
        if k + 1 < MAX_LINES - 1 {
          assert kept[k + 1] == kept[..MAX_LINES - 1][k + 1] == full[..MAX_LINES - 1][k + 1] == full[k + 1];
        }
      }
    }
  }
}
