/** The index of topics of src/model/topic_tree.c as a value: nodes that point at their parent and
    children, and the set of paths they stand for. */
module TopicPaths {
  import opened Text

  const MAX_CHILDREN := 64
  const SEGMENT_CAP := 128
  const TOPIC_CAP := 512

  /** A node; a pointer to one is its place in the pool, which never moves or frees a node. */
  datatype Node = Node(segment: string, parent: Option<nat>, children: seq<nat>, messages: nat, subtree: nat)

  datatype Tree = Tree(nodes: seq<Node>, roots: seq<nat>)

  const EMPTY := Tree([], [])

  /** A node, or None for the place above all roots. */
  predicate At(t: Tree, p: Option<nat>) { p.Some? ==> p.value < |t.nodes| }

  function Kids(t: Tree, p: Option<nat>): seq<nat>
    requires At(t, p)
  {
    if p.None? then t.roots else t.nodes[p.value].children
  }

  // ----- what every tree keeps

  predicate Segment(s: string) { s != "" && '/' !in s }

  predicate AllSegments(segs: seq<string>) { forall i :: 0 <= i < |segs| ==> Segment(segs[i]) }

  /** Parents are created before their children. */
  predicate Ordered(nodes: seq<Node>) {
    forall i :: 0 <= i < |nodes| && nodes[i].parent.Some? ==> nodes[i].parent.value < i
  }

  predicate Named(nodes: seq<Node>) {
    forall i :: 0 <= i < |nodes| ==> Segment(nodes[i].segment) && |nodes[i].segment| < SEGMENT_CAP
  }

  /** The children of p are exactly the nodes that name p as their parent, each listed once. */
  predicate Linked(t: Tree, p: Option<nat>)
    requires At(t, p)
  {
    var kids := Kids(t, p);
    && |kids| <= MAX_CHILDREN
    && (forall i, j :: 0 <= i < j < |kids| ==> kids[i] != kids[j])
    && (forall i :: 0 <= i < |kids| ==> kids[i] < |t.nodes| && t.nodes[kids[i]].parent == p)
    && (forall c :: 0 <= c < |t.nodes| && t.nodes[c].parent == p ==> c in kids)
  }

  ghost predicate WellFormed(t: Tree) {
    Ordered(t.nodes) && Named(t.nodes) && forall p: Option<nat> :: At(t, p) ==> Linked(t, p)
  }

  /** Siblings have different segments. */
  predicate Distinct(nodes: seq<Node>) {
    forall i, j :: 0 <= i < j < |nodes| && nodes[i].parent == nodes[j].parent ==> nodes[i].segment != nodes[j].segment
  }

  // ----- the walk

  /** find_child. */
  function FindChild(nodes: seq<Node>, kids: seq<nat>, seg: string): (r: Option<nat>)
    requires forall i :: 0 <= i < |kids| ==> kids[i] < |nodes|
    ensures r.Some? ==> r.value in kids && nodes[r.value].segment == seg
    ensures r.None? ==> forall i :: 0 <= i < |kids| ==> nodes[kids[i]].segment != seg
  {
    if kids == [] then None
    else if nodes[kids[0]].segment == seg then Some(kids[0])
    else FindChild(nodes, kids[1..], seg)
  }

  ghost function Child(t: Tree, p: Option<nat>, seg: string): (r: Option<nat>)
    requires WellFormed(t) && At(t, p)
    ensures r.Some? ==> r.value < |t.nodes| && t.nodes[r.value].parent == p && t.nodes[r.value].segment == seg
    ensures r.None? ==> forall c :: 0 <= c < |t.nodes| && t.nodes[c].parent == p ==> t.nodes[c].segment != seg
  {
    assert Linked(t, p);
    FindChild(t.nodes, Kids(t, p), seg)
  }

  /** topic_tree_find from a place on. */
  ghost function Descend(t: Tree, p: Option<nat>, segs: seq<string>): (r: Option<nat>)
    requires WellFormed(t) && At(t, p)
    ensures At(t, r)
    decreases |segs|
  {
    if segs == [] then p
    else
      var c := Child(t, p, segs[0]);
      if c.None? then None else Descend(t, c, segs[1..])
  }

  /** node_new and add_child below p, where there is room. */
  function AddNode(t: Tree, p: Option<nat>, seg: string): Tree
    requires At(t, p)
  {
    var n := |t.nodes|;
    var node := Node(seg, p, [], 0, 0);
    if p.None? then Tree(t.nodes + [node], t.roots + [n])
    else
      var q := t.nodes[p.value];
      Tree(t.nodes[p.value := q.(children := q.children + [n])] + [node], t.roots)
  }

  lemma AddedKids(t: Tree, p: Option<nat>, seg: string, q: Option<nat>)
    requires At(t, p) && At(AddNode(t, p, seg), q)
    ensures Kids(AddNode(t, p, seg), q) ==
      if q == Some(|t.nodes|) then [] else Kids(t, q) + if q == p then [|t.nodes|] else []
  {
  }

  lemma AddedNode(t: Tree, p: Option<nat>, seg: string, i: nat)
    requires At(t, p) && i <= |t.nodes|
    ensures var u := AddNode(t, p, seg);
      && |u.nodes| == |t.nodes| + 1
      && (i < |t.nodes| ==> u.nodes[i].(children := t.nodes[i].children) == t.nodes[i])
      && (i == |t.nodes| ==> u.nodes[i] == Node(seg, p, [], 0, 0))
  {
  }

  lemma ParentsAfter(t: Tree, p: Option<nat>, seg: string)
    requires At(t, p)
    ensures var u := AddNode(t, p, seg);
      && |u.nodes| == |t.nodes| + 1
      && (forall i :: 0 <= i < |t.nodes| ==> u.nodes[i].parent == t.nodes[i].parent)
      && u.nodes[|t.nodes|].parent == p
  {
  }

  /** Nothing points at a node that is not there yet. */
  lemma NewPlaceLinked(t: Tree, p: Option<nat>, seg: string)
    requires Ordered(t.nodes) && At(t, p)
    ensures var u := AddNode(t, p, seg); At(u, Some(|t.nodes|)) && Linked(u, Some(|t.nodes|))
  {
    hide AddNode;
    ParentsAfter(t, p, seg);
    AddedKids(t, p, seg, Some(|t.nodes|));
  }

  lemma OtherLinked(t: Tree, p: Option<nat>, seg: string, q: Option<nat>)
    requires At(t, p) && At(t, q) && q != p && Linked(t, q)
    ensures At(AddNode(t, p, seg), q) && Linked(AddNode(t, p, seg), q)
  {
    hide AddNode, Kids;
    ParentsAfter(t, p, seg);
    AddedKids(t, p, seg, q);
    assert Kids(t, q) + [] == Kids(t, q);
  }

  lemma ParentLinked(t: Tree, p: Option<nat>, seg: string)
    requires At(t, p) && Linked(t, p) && |Kids(t, p)| < MAX_CHILDREN
    ensures At(AddNode(t, p, seg), p) && Linked(AddNode(t, p, seg), p)
  {
    hide AddNode, Kids;
    ParentsAfter(t, p, seg);
    AddedKids(t, p, seg, p);
    var u := AddNode(t, p, seg);
    var n := |t.nodes|;
    assert Kids(u, p)[|Kids(t, p)|] == n;
    forall c | 0 <= c < |u.nodes| && u.nodes[c].parent == p
      ensures c in Kids(u, p)
    {
      assert c < n ==> c in Kids(t, p);
    }
  }

  lemma AddKeepsLinked(t: Tree, p: Option<nat>, seg: string, q: Option<nat>)
    requires WellFormed(t) && At(t, p) && |Kids(t, p)| < MAX_CHILDREN && At(AddNode(t, p, seg), q)
    ensures Linked(AddNode(t, p, seg), q)
  {
    hide AddNode, Linked, Kids, Ordered, Named;
    ParentsAfter(t, p, seg);
    if q == Some(|t.nodes|) {
      NewPlaceLinked(t, p, seg);
    } else if q == p {
      ParentLinked(t, p, seg);
    } else {
      OtherLinked(t, p, seg, q);
    }
  }

  lemma AddKeepsWellFormed(t: Tree, p: Option<nat>, seg: string)
    requires WellFormed(t) && At(t, p) && |Kids(t, p)| < MAX_CHILDREN && Segment(seg) && |seg| < SEGMENT_CAP
    ensures WellFormed(AddNode(t, p, seg))
  {
    hide AddNode, Linked;
    var u := AddNode(t, p, seg);
    AddedNode(t, p, seg, |t.nodes|);
    forall i | 0 <= i <= |t.nodes|
      ensures u.nodes[i].parent == (if i < |t.nodes| then t.nodes[i].parent else p)
      ensures u.nodes[i].segment == if i < |t.nodes| then t.nodes[i].segment else seg
    {
      AddedNode(t, p, seg, i);
    }
    forall q: Option<nat> | At(u, q)
      ensures Linked(u, q)
    {
      AddKeepsLinked(t, p, seg, q);
    }
  }

  lemma ClipSegment(seg: string)
    requires Segment(seg)
    ensures Segment(Clip(seg, SEGMENT_CAP))
  {
    assert Clip(seg, SEGMENT_CAP)[0] == seg[0];
  }

  /** topic_tree_insert from a place on: the new tree and the node, or None when a level is full. */
  ghost function Grow(t: Tree, p: Option<nat>, segs: seq<string>): (r: (Tree, Option<nat>))
    requires WellFormed(t) && At(t, p) && AllSegments(segs)
    ensures WellFormed(r.0) && At(r.0, r.1)
    decreases |segs|
  {
    if segs == [] then (t, p)
    else
      var c := Child(t, p, segs[0]);
      if c.Some? then Grow(t, c, segs[1..])
      else if |Kids(t, p)| >= MAX_CHILDREN then (t, None)
      else
        var seg := Clip(segs[0], SEGMENT_CAP);
        ClipSegment(segs[0]);
        AddKeepsWellFormed(t, p, seg);
        AddedNode(t, p, seg, |t.nodes|);
        Grow(AddNode(t, p, seg), Some(|t.nodes|), segs[1..])
  }

  // ----- paths

  /** The segments from the root down to node i. */
  function Path(nodes: seq<Node>, i: nat): (r: seq<string>)
    requires Ordered(nodes) && i < |nodes|
    ensures |r| > 0
    decreases i
  {
    (if nodes[i].parent.None? then [] else Path(nodes, nodes[i].parent.value)) + [nodes[i].segment]
  }

  function PathTo(t: Tree, p: Option<nat>): seq<string>
    requires Ordered(t.nodes) && At(t, p)
  {
    if p.None? then [] else Path(t.nodes, p.value)
  }

  ghost function Paths(t: Tree): set<seq<string>>
    requires Ordered(t.nodes)
  {
    set i | 0 <= i < |t.nodes| :: Path(t.nodes, i)
  }

  /** Nodes keep their name, place and counts. */
  predicate Extends(u: seq<Node>, t: seq<Node>) {
    |t| <= |u| && forall i :: 0 <= i < |t| ==> u[i].(children := t[i].children) == t[i]
  }

  lemma {:induction false} SamePath(t: seq<Node>, u: seq<Node>, i: nat)
    requires Ordered(t) && Ordered(u) && i < |t| <= |u|
    requires forall j :: 0 <= j < |t| ==> u[j].parent == t[j].parent && u[j].segment == t[j].segment
    ensures Path(u, i) == Path(t, i)
    decreases i
  {
    if t[i].parent.Some? { SamePath(t, u, t[i].parent.value); }
  }

  lemma ExtendsTrans(a: seq<Node>, b: seq<Node>, c: seq<Node>)
    requires Extends(b, a) && Extends(c, b)
    ensures Extends(c, a)
  {
    forall i | 0 <= i < |a|
      ensures c[i].(children := a[i].children) == a[i]
    {
      assert b[i].(children := a[i].children) == a[i];
      assert c[i].(children := b[i].children) == b[i];
    }
  }

  /** Whatever is inserted, nodes only gain children, and new nodes have counted nothing. */
  lemma {:induction false} GrowExtends(t: Tree, p: Option<nat>, segs: seq<string>)
    requires WellFormed(t) && At(t, p) && AllSegments(segs)
    ensures var u := Grow(t, p, segs).0;
      Extends(u.nodes, t.nodes) && forall i :: |t.nodes| <= i < |u.nodes| ==> u.nodes[i].messages == u.nodes[i].subtree == 0
    decreases |segs|
  {
    hide Linked, Named, Ordered, AddNode;
    if segs != [] {
      var c := Child(t, p, segs[0]);
      if c.Some? {
        GrowExtends(t, c, segs[1..]);
      } else if |Kids(t, p)| < MAX_CHILDREN {
        var seg := Clip(segs[0], SEGMENT_CAP);
        GrowNew(t, p, segs);
        var v := AddNode(t, p, seg);
        GrowExtends(v, Some(|t.nodes|), segs[1..]);
        AddedNode(t, p, seg, |t.nodes|);
        assert Extends(v.nodes, t.nodes) by {
          forall i | 0 <= i < |t.nodes|
            ensures v.nodes[i].(children := t.nodes[i].children) == t.nodes[i]
          {
            AddedNode(t, p, seg, i);
          }
        }
        ExtendsTrans(t.nodes, v.nodes, Grow(t, p, segs).0.nodes);
      }
    }
  }

  /** The step that makes a node. */
  lemma GrowNew(t: Tree, p: Option<nat>, segs: seq<string>)
    requires WellFormed(t) && At(t, p) && AllSegments(segs) && segs != []
    requires Child(t, p, segs[0]).None? && |Kids(t, p)| < MAX_CHILDREN
    ensures var v := AddNode(t, p, Clip(segs[0], SEGMENT_CAP));
      && WellFormed(v) && At(v, Some(|t.nodes|)) && AllSegments(segs[1..])
      && Grow(t, p, segs) == Grow(v, Some(|t.nodes|), segs[1..])
  {
    var seg := Clip(segs[0], SEGMENT_CAP);
    ClipSegment(segs[0]);
    AddKeepsWellFormed(t, p, seg);
    AddedNode(t, p, seg, |t.nodes|);
  }

  lemma PathOfNew(t: Tree, p: Option<nat>, seg: string)
    requires WellFormed(t) && At(t, p) && WellFormed(AddNode(t, p, seg))
    ensures var v := AddNode(t, p, seg);
      At(v, Some(|t.nodes|)) && PathTo(v, Some(|t.nodes|)) == PathTo(t, p) + [seg]
  {
    hide AddNode, Linked, Named;
    var v := AddNode(t, p, seg);
    AddedNode(t, p, seg, |t.nodes|);
    assert Extends(v.nodes, t.nodes) by {
      forall i | 0 <= i < |t.nodes|
        ensures v.nodes[i].(children := t.nodes[i].children) == t.nodes[i]
      {
        AddedNode(t, p, seg, i);
      }
    }
    if p.Some? { SamePath(t.nodes, v.nodes, p.value); }
  }

  function Clipped(segs: seq<string>): (r: seq<string>)
    ensures |r| == |segs|
  {
    seq(|segs|, i requires 0 <= i < |segs| => Clip(segs[i], SEGMENT_CAP))
  }

  lemma ClippedStep(segs: seq<string>)
    requires segs != []
    ensures Clipped(segs) == [Clip(segs[0], SEGMENT_CAP)] + Clipped(segs[1..])
  {
  }

  lemma PathBelow(t: Tree, c: nat)
    requires WellFormed(t) && c < |t.nodes|
    ensures At(t, t.nodes[c].parent)
    ensures Path(t.nodes, c) == PathTo(t, t.nodes[c].parent) + [t.nodes[c].segment]
    ensures Segment(t.nodes[c].segment) && |t.nodes[c].segment| < SEGMENT_CAP
  {
  }

  /** A node that is returned has the topic's segments, cut to what a node can hold. */
  lemma {:induction false} GrowPath(t: Tree, p: Option<nat>, segs: seq<string>)
    requires WellFormed(t) && At(t, p) && AllSegments(segs)
    ensures var (u, r) := Grow(t, p, segs);
      r.Some? || segs == [] ==> PathTo(u, r) == PathTo(t, p) + Clipped(segs)
    decreases |segs|
  {
    hide Linked, Named, Ordered, AddNode, Path, Clip;
    if segs == [] {
      assert PathTo(t, p) + [] == PathTo(t, p);
    } else {
      ClippedStep(segs);
      var seg := Clip(segs[0], SEGMENT_CAP);
      var c := Child(t, p, segs[0]);
      Assoc(PathTo(t, p), [seg], Clipped(segs[1..]));
      if c.Some? {
        GrowPath(t, c, segs[1..]);
        PathBelow(t, c.value);
        assert Clip(segs[0], SEGMENT_CAP) == segs[0];
      } else if |Kids(t, p)| < MAX_CHILDREN {
        GrowNew(t, p, segs);
        GrowPath(AddNode(t, p, seg), Some(|t.nodes|), segs[1..]);
        PathOfNew(t, p, seg);
      }
    }
  }

  // ----- finding is membership

  lemma {:induction false} DescendPath(t: Tree, p: Option<nat>, segs: seq<string>)
    requires WellFormed(t) && At(t, p)
    requires segs == [] || Descend(t, p, segs).Some?
    ensures PathTo(t, Descend(t, p, segs)) == PathTo(t, p) + segs
    decreases |segs|
  {
    hide Linked, Named, Ordered, Path;
    if segs != [] {
      var c := Child(t, p, segs[0]);
      PathBelow(t, c.value);
      DescendPath(t, c, segs[1..]);
      Assoc(PathTo(t, p), [segs[0]], segs[1..]);
      assert segs == [segs[0]] + segs[1..];
    }
  }

  lemma {:induction false} DescendOneMore(t: Tree, p: Option<nat>, segs: seq<string>, x: string)
    requires WellFormed(t) && At(t, p)
    requires segs == [] || Descend(t, p, segs).Some?
    ensures Descend(t, p, segs + [x]) == Child(t, Descend(t, p, segs), x)
    decreases |segs|
  {
    hide Linked, Named, Ordered;
    assert (segs + [x])[0] == if segs == [] then x else segs[0];
    if segs == [] {
      assert (segs + [x])[1..] == [];
    } else {
      assert (segs + [x])[1..] == segs[1..] + [x];
      DescendOneMore(t, Child(t, p, segs[0]), segs[1..], x);
    }
  }

  /** With distinct siblings, every node is found under its own path. */
  lemma {:induction false} DescendFinds(t: Tree, i: nat)
    requires WellFormed(t) && Distinct(t.nodes) && i < |t.nodes|
    ensures Descend(t, None, Path(t.nodes, i)) == Some(i)
    decreases i
  {
    hide Linked, Named;
    var p := t.nodes[i].parent;
    if p.Some? { DescendFinds(t, p.value); }
    DescendOneMore(t, None, PathTo(t, p), t.nodes[i].segment);
    PathBelow(t, i);
    var c := Child(t, p, t.nodes[i].segment);
    assert t.nodes[c.value].parent == p;
  }

  /** topic_tree_find succeeds exactly on the paths in the tree, and returns their node. */
  lemma FindIsMembership(t: Tree, segs: seq<string>)
    requires WellFormed(t) && Distinct(t.nodes) && segs != []
    ensures Descend(t, None, segs).Some? <==> segs in Paths(t)
    ensures forall i :: 0 <= i < |t.nodes| ==> (Descend(t, None, segs) == Some(i) <==> Path(t.nodes, i) == segs)
  {
    hide Linked, Named, Path, Descend, Distinct;
    if Descend(t, None, segs).Some? {
      DescendPath(t, None, segs);
      assert [] + segs == segs;
      assert Path(t.nodes, Descend(t, None, segs).value) in Paths(t);
    }
    forall i | 0 <= i < |t.nodes|
      ensures Descend(t, None, Path(t.nodes, i)) == Some(i)
    {
      DescendFinds(t, i);
    }
  }

  /** Every part of a path from its root is a path too. */
  lemma {:induction false} PathsArePrefixClosed(t: Tree, i: nat, k: nat)
    requires Ordered(t.nodes) && i < |t.nodes| && 0 < k <= |Path(t.nodes, i)|
    ensures Path(t.nodes, i)[..k] in Paths(t)
    decreases i
  {
    var q := Path(t.nodes, i);
    assert q in Paths(t);
    var p := t.nodes[i].parent;
    if k == |q| {
      assert q[..k] == q;
    } else {
      PathsArePrefixClosed(t, p.value, k);
      assert q[..k] == Path(t.nodes, p.value)[..k];
    }
  }

  // ----- how many

  lemma {:induction false} CountDistinct<T>(s: seq<T>)
    requires forall i, j :: 0 <= i < j < |s| ==> s[i] != s[j]
    ensures |set x | x in s| == |s|
  {
    if s != [] {
      var n := |s| - 1;
      var r := s[..n];
      CountDistinct(r);
      assert s == r + [s[n]];
      assert s[n] !in r;
      assert (set x | x in s) == (set x | x in r) + {s[n]};
    }
  }

  /** total_count is the size of the set. */
  lemma NodesCountPaths(t: Tree)
    requires WellFormed(t) && Distinct(t.nodes)
    ensures |Paths(t)| == |t.nodes|
  {
    hide Linked, Named, Path, Distinct, Descend;
    var s := seq(|t.nodes|, i requires 0 <= i < |t.nodes| => Path(t.nodes, i));
    forall i, j | 0 <= i < j < |s|
      ensures s[i] != s[j]
    {
      DescendFinds(t, i);
      DescendFinds(t, j);
    }
    CountDistinct(s);
    forall q
      ensures q in s <==> q in Paths(t)
    {
      if q in s {
        var i :| 0 <= i < |s| && s[i] == q;
        assert Path(t.nodes, i) in Paths(t);
      }
      if q in Paths(t) {
        var i :| 0 <= i < |t.nodes| && Path(t.nodes, i) == q;
        assert s[i] == q;
      }
    }
    assert (set x | x in s) == Paths(t);
  }

  /** The paths one level below `above`. */
  ghost function Fan(paths: set<seq<string>>, above: seq<string>): set<seq<string>> {
    set q | q in paths && |q| == |above| + 1 && q[..|above|] == above
  }

  lemma KidsAreFan(t: Tree, p: Option<nat>)
    requires WellFormed(t) && Distinct(t.nodes) && At(t, p)
    ensures |Fan(Paths(t), PathTo(t, p))| == |Kids(t, p)|
  {
    hide Named, Path, Distinct, Descend;
    assert Linked(t, p);
    var kids := Kids(t, p);
    var s := seq(|kids|, i requires 0 <= i < |kids| => Path(t.nodes, kids[i]));
    forall i, j | 0 <= i < j < |s|
      ensures s[i] != s[j]
    {
      DescendFinds(t, kids[i]);
      DescendFinds(t, kids[j]);
    }
    CountDistinct(s);
    forall q
      ensures q in s <==> q in Fan(Paths(t), PathTo(t, p))
    {
      if q in s {
        var i :| 0 <= i < |s| && s[i] == q;
        PathBelow(t, kids[i]);
        assert Path(t.nodes, kids[i]) in Paths(t);
      }
      if q in Fan(Paths(t), PathTo(t, p)) {
        var c :| 0 <= c < |t.nodes| && Path(t.nodes, c) == q;
        FanIsChild(t, p, c);
        var i :| 0 <= i < |kids| && kids[i] == c;
        assert s[i] == q;
      }
    }
    assert (set x | x in s) == Fan(Paths(t), PathTo(t, p));
  }

  lemma FanIsChild(t: Tree, p: Option<nat>, c: nat)
    requires WellFormed(t) && Distinct(t.nodes) && At(t, p) && c < |t.nodes|
    requires |Path(t.nodes, c)| == |PathTo(t, p)| + 1 && Path(t.nodes, c)[..|PathTo(t, p)|] == PathTo(t, p)
    ensures t.nodes[c].parent == p
  {
    hide Linked, Named, Path, Distinct, Descend;
    PathBelow(t, c);
    var q := t.nodes[c].parent;
    SplitConcat(PathTo(t, q), [t.nodes[c].segment]);
    if q.Some? { DescendFinds(t, q.value); }
    if p.Some? { DescendFinds(t, p.value); }
  }

  // ----- insertion refines adding a path and its prefixes

  /** A place without children takes any path. */
  lemma {:induction false} GrowBelowNew(t: Tree, p: Option<nat>, segs: seq<string>)
    requires WellFormed(t) && At(t, p) && p.Some? && AllSegments(segs) && Kids(t, p) == []
    ensures Grow(t, p, segs).1.Some?
    decreases |segs|
  {
    hide Named, Ordered, AddNode;
    assert Linked(t, p);
    if segs != [] {
      GrowNew(t, p, segs);
      AddedKids(t, p, Clip(segs[0], SEGMENT_CAP), Some(|t.nodes|));
      GrowBelowNew(AddNode(t, p, Clip(segs[0], SEGMENT_CAP)), Some(|t.nodes|), segs[1..]);
    }
  }

  /** An insert that gives no node has changed nothing: the limit can only be met before the
      first node is made. */
  lemma {:induction false} FailedInsertKeepsTree(t: Tree, p: Option<nat>, segs: seq<string>)
    requires WellFormed(t) && At(t, p) && AllSegments(segs)
    ensures var (u, r) := Grow(t, p, segs); r.None? ==> u == t
    decreases |segs|
  {
    hide Linked, Named, Ordered, AddNode;
    if segs != [] {
      var c := Child(t, p, segs[0]);
      if c.Some? {
        FailedInsertKeepsTree(t, c, segs[1..]);
      } else if |Kids(t, p)| < MAX_CHILDREN {
        GrowNew(t, p, segs);
        AddedKids(t, p, Clip(segs[0], SEGMENT_CAP), Some(|t.nodes|));
        GrowBelowNew(AddNode(t, p, Clip(segs[0], SEGMENT_CAP)), Some(|t.nodes|), segs[1..]);
      }
    }
  }

  /** Segments as the tree holds them. */
  predicate Short(segs: seq<string>) { forall i :: 0 <= i < |segs| ==> |segs[i]| < 128 }

  /** Following `segs` below `above` ends at a level that is missing where MAX_CHILDREN others
      are present. */
  ghost predicate Full(paths: set<seq<string>>, above: seq<string>, segs: seq<string>)
    decreases |segs|
  {
    segs != [] &&
    if above + [segs[0]] in paths then Full(paths, above + [segs[0]], segs[1..])
    else |Fan(paths, above)| >= 64
  }

  lemma ChildIsMember(t: Tree, p: Option<nat>, x: string)
    requires WellFormed(t) && Distinct(t.nodes) && At(t, p)
    ensures Child(t, p, x).Some? <==> PathTo(t, p) + [x] in Paths(t)
    ensures Child(t, p, x).Some? ==> PathTo(t, Child(t, p, x)) == PathTo(t, p) + [x]
  {
    hide Linked, Named, Path, Distinct, Descend;
    var q := PathTo(t, p) + [x];
    var c := Child(t, p, x);
    if c.Some? {
      PathBelow(t, c.value);
      assert Path(t.nodes, c.value) in Paths(t);
    }
    if q in Paths(t) {
      var d :| 0 <= d < |t.nodes| && Path(t.nodes, d) == q;
      SplitConcat(PathTo(t, p), [x]);
      FanIsChild(t, p, d);
      PathBelow(t, d);
      SameLast(PathTo(t, p), x, t.nodes[d].segment);
    }
  }

  lemma SameLast(a: seq<string>, x: string, y: string)
    ensures a + [x] == a + [y] ==> x == y
  {
    assert (a + [x])[|a|] == x && (a + [y])[|a|] == y;
  }

  lemma {:induction false} RefusedWhenFull(t: Tree, p: Option<nat>, segs: seq<string>)
    requires WellFormed(t) && Distinct(t.nodes) && At(t, p) && AllSegments(segs)
    ensures Grow(t, p, segs).1.None? <==> Full(Paths(t), PathTo(t, p), segs) || (segs == [] && p == None)
    decreases |segs|
  {
    hide Linked, Named, Ordered, AddNode, Path, Paths, Distinct, Fan;
    if segs != [] {
      var c := Child(t, p, segs[0]);
      ChildIsMember(t, p, segs[0]);
      KidsAreFan(t, p);
      if c.Some? {
        RefusedWhenFull(t, c, segs[1..]);
      } else if |Kids(t, p)| < MAX_CHILDREN {
        GrowNew(t, p, segs);
        AddedKids(t, p, Clip(segs[0], SEGMENT_CAP), Some(|t.nodes|));
        GrowBelowNew(AddNode(t, p, Clip(segs[0], SEGMENT_CAP)), Some(|t.nodes|), segs[1..]);
      }
    }
  }

  /** Where the nodes made by an insert lie. */
  lemma {:induction false} NewPaths(t: Tree, p: Option<nat>, segs: seq<string>, i: nat)
    requires WellFormed(t) && At(t, p) && AllSegments(segs) && |t.nodes| <= i < |Grow(t, p, segs).0.nodes|
    ensures Path(Grow(t, p, segs).0.nodes, i) <= PathTo(t, p) + Clipped(segs)
    decreases |segs|
  {
    hide Linked, Named, Ordered, AddNode, Path, Clip;
    if segs != [] {
      ClippedStep(segs);
      var seg := Clip(segs[0], SEGMENT_CAP);
      var c := Child(t, p, segs[0]);
      Assoc(PathTo(t, p), [seg], Clipped(segs[1..]));
      if c.Some? {
        NewPaths(t, c, segs[1..], i);
        PathBelow(t, c.value);
        assert Clip(segs[0], SEGMENT_CAP) == segs[0];
      } else if |Kids(t, p)| < MAX_CHILDREN {
        GrowNew(t, p, segs);
        PathOfNew(t, p, seg);
        if i == |t.nodes| {
          var v := AddNode(t, p, seg);
          AddedNode(t, p, seg, |t.nodes|);
          GrowExtends(v, Some(i), segs[1..]);
          SamePath(v.nodes, Grow(t, p, segs).0.nodes, i);
        } else {
          AddedNode(t, p, seg, |t.nodes|);
          NewPaths(AddNode(t, p, seg), Some(|t.nodes|), segs[1..], i);
        }
      }
    }
  }

  /** The paths an insert adds: every non-empty beginning of the topic's segments. */
  ghost function Beginnings(segs: seq<string>): set<seq<string>> {
    set k | 0 < k <= |segs| :: segs[..k]
  }

  /** topic_tree_insert adds the topic and everything above it to the set of paths, each segment
      cut to what a node holds, and nothing else; it refuses exactly when there is no segment or
      a level is full, and then it has changed nothing. */
  lemma InsertRefines(t: Tree, segs: seq<string>)
    requires WellFormed(t) && Distinct(t.nodes) && AllSegments(segs)
    ensures var (u, r) := Grow(t, None, segs);
      && (r.None? <==> segs == [] || Full(Paths(t), [], segs))
      && (r.None? ==> u == t)
      && (r.Some? ==> Path(u.nodes, r.value) == Clipped(segs) && Paths(u) == Paths(t) + Beginnings(Clipped(segs)))
    ensures Short(segs) ==> Clipped(segs) == segs
  {
    hide Linked, Named, Ordered, AddNode, Path, Paths, Distinct, Full, Grow, Beginnings;
    RefusedWhenFull(t, None, segs);
    FailedInsertKeepsTree(t, None, segs);
    GrowPath(t, None, segs);
    assert [] + Clipped(segs) == Clipped(segs);
    if Grow(t, None, segs).1.Some? { InsertedPaths(t, segs); }
    if Short(segs) { assert Clipped(segs) == segs; }
  }

  lemma InsertedPaths(t: Tree, segs: seq<string>)
    requires WellFormed(t) && AllSegments(segs) && Grow(t, None, segs).1.Some?
    ensures Paths(Grow(t, None, segs).0) == Paths(t) + Beginnings(Clipped(segs))
  {
    hide Linked, Named, AddNode, Path, Grow, Clipped;
    var (u, r) := Grow(t, None, segs);
    GrowPath(t, None, segs);
    GrowExtends(t, None, segs);
    var held := Clipped(segs);
    assert [] + held == held;
    forall q | q in Paths(u)
      ensures q in Paths(t) + Beginnings(held)
    {
      var i :| 0 <= i < |u.nodes| && Path(u.nodes, i) == q;
      if i < |t.nodes| {
        SamePath(t.nodes, u.nodes, i);
      } else {
        NewPaths(t, None, segs, i);
        assert q == held[..|q|];
      }
    }
    forall q | q in Paths(t)
      ensures q in Paths(u)
    {
      var i :| 0 <= i < |t.nodes| && Path(t.nodes, i) == q;
      SamePath(t.nodes, u.nodes, i);
    }
    forall q | q in Beginnings(held)
      ensures q in Paths(u)
    {
      PathsArePrefixClosed(u, r.value, |q|);
    }
  }

  // ----- when siblings stay distinct

  /** The first missing level is named by a segment too long for a node, and a sibling already
      bears what is left of it. */
  ghost predicate Collides(t: Tree, p: Option<nat>, segs: seq<string>)
    requires WellFormed(t) && At(t, p)
    decreases |segs|
  {
    segs != [] &&
    var c := Child(t, p, segs[0]);
    if c.Some? then Collides(t, c, segs[1..])
    else |Kids(t, p)| < MAX_CHILDREN && Child(t, p, Clip(segs[0], SEGMENT_CAP)).Some?
  }

  lemma AddKeepsDistinct(t: Tree, p: Option<nat>, seg: string)
    requires WellFormed(t) && Distinct(t.nodes) && At(t, p)
    ensures Distinct(AddNode(t, p, seg).nodes) <==> Child(t, p, seg).None?
  {
    hide Linked, Named, AddNode;
    var u := AddNode(t, p, seg);
    var n := |t.nodes|;
    AddedNode(t, p, seg, n);
    forall i | 0 <= i < n
      ensures u.nodes[i].parent == t.nodes[i].parent && u.nodes[i].segment == t.nodes[i].segment
    {
      AddedNode(t, p, seg, i);
    }
    var c := Child(t, p, seg);
    if c.Some? {
      assert u.nodes[c.value].parent == u.nodes[n].parent && u.nodes[c.value].segment == u.nodes[n].segment;
    }
  }

  lemma DuplicatesStay(t: seq<Node>, u: seq<Node>)
    requires Extends(u, t) && Distinct(u)
    ensures Distinct(t)
  {
    forall i | 0 <= i < |t|
      ensures u[i].parent == t[i].parent && u[i].segment == t[i].segment
    {
      assert u[i].(children := t[i].children) == t[i];
    }
    forall i, j | 0 <= i < j < |t| && t[i].parent == t[j].parent
      ensures t[i].segment != t[j].segment
    {
      assert u[i].parent == u[j].parent;
    }
  }

  lemma {:induction false} BelowNewDistinct(t: Tree, p: Option<nat>, segs: seq<string>)
    requires WellFormed(t) && Distinct(t.nodes) && At(t, p) && p.Some? && AllSegments(segs) && Kids(t, p) == []
    ensures Distinct(Grow(t, p, segs).0.nodes)
    decreases |segs|
  {
    hide Named, Ordered, AddNode, Distinct;
    assert Linked(t, p);
    if segs != [] {
      var seg := Clip(segs[0], SEGMENT_CAP);
      GrowNew(t, p, segs);
      AddedKids(t, p, seg, Some(|t.nodes|));
      AddKeepsDistinct(t, p, seg);
      BelowNewDistinct(AddNode(t, p, seg), Some(|t.nodes|), segs[1..]);
    }
  }

  /** An insert keeps siblings distinct exactly when it does not collide. */
  lemma {:induction false} DistinctUnlessColliding(t: Tree, p: Option<nat>, segs: seq<string>)
    requires WellFormed(t) && Distinct(t.nodes) && At(t, p) && AllSegments(segs)
    ensures Distinct(Grow(t, p, segs).0.nodes) <==> !Collides(t, p, segs)
    decreases |segs|
  {
    hide Linked, Named, Ordered, AddNode, Distinct;
    if segs != [] {
      var c := Child(t, p, segs[0]);
      if c.Some? {
        DistinctUnlessColliding(t, c, segs[1..]);
      } else if |Kids(t, p)| < MAX_CHILDREN {
        var seg := Clip(segs[0], SEGMENT_CAP);
        var v := AddNode(t, p, seg);
        GrowNew(t, p, segs);
        AddedKids(t, p, seg, Some(|t.nodes|));
        AddKeepsDistinct(t, p, seg);
        if Child(t, p, seg).None? {
          BelowNewDistinct(v, Some(|t.nodes|), segs[1..]);
        } else {
          GrowExtends(v, Some(|t.nodes|), segs[1..]);
          if Distinct(Grow(t, p, segs).0.nodes) { DuplicatesStay(v.nodes, Grow(t, p, segs).0.nodes); }
        }
      }
    }
  }

  /** The same as seen in the set of paths. */
  ghost predicate Clashes(paths: set<seq<string>>, above: seq<string>, segs: seq<string>)
    decreases |segs|
  {
    segs != [] &&
    if above + [segs[0]] in paths then Clashes(paths, above + [segs[0]], segs[1..])
    else |Fan(paths, above)| < 64 && above + [Clip(segs[0], SEGMENT_CAP)] in paths
  }

  lemma {:induction false} CollidesInPaths(t: Tree, p: Option<nat>, segs: seq<string>)
    requires WellFormed(t) && Distinct(t.nodes) && At(t, p)
    ensures Collides(t, p, segs) <==> Clashes(Paths(t), PathTo(t, p), segs)
    decreases |segs|
  {
    hide Linked, Named, Ordered, Path, Paths, Distinct, Fan, Clip;
    if segs != [] {
      ChildIsMember(t, p, segs[0]);
      ChildIsMember(t, p, Clip(segs[0], SEGMENT_CAP));
      KidsAreFan(t, p);
      var c := Child(t, p, segs[0]);
      if c.Some? { CollidesInPaths(t, c, segs[1..]); }
    }
  }

  /** Segments that fit in a node never clash. */
  lemma {:induction false} ShortNeverClashes(paths: set<seq<string>>, above: seq<string>, segs: seq<string>)
    requires Short(segs)
    ensures !Clashes(paths, above, segs)
    decreases |segs|
  {
    if segs != [] { ShortNeverClashes(paths, above + [segs[0]], segs[1..]); }
  }

  // ----- finding what was inserted

  lemma {:induction false} PathIsSegments(t: Tree, i: nat)
    requires Ordered(t.nodes) && Named(t.nodes) && i < |t.nodes|
    ensures AllSegments(Path(t.nodes, i)) && Short(Path(t.nodes, i))
    decreases i
  {
    var p := t.nodes[i].parent;
    if p.Some? { PathIsSegments(t, p.value); }
  }

  /** A topic just inserted is found exactly when none of its segments had to be cut. */
  lemma InsertedIsFoundIffShort(t: Tree, segs: seq<string>)
    requires WellFormed(t) && Distinct(t.nodes) && AllSegments(segs)
    ensures var (u, r) := Grow(t, None, segs);
      r.Some? ==>
        && (Descend(u, None, segs).Some? <==> Short(segs))
        && (Short(segs) ==> Descend(u, None, segs) == r)
  {
    hide Linked, Path, Grow, Descend, Paths, Distinct, Full, Beginnings;
    var (u, r) := Grow(t, None, segs);
    InsertRefines(t, segs);
    if r.Some? && Short(segs) {
      ShortNeverClashes(Paths(t), [], segs);
      CollidesInPaths(t, None, segs);
      DistinctUnlessColliding(t, None, segs);
      FindIsMembership(u, segs);
    } else if r.Some? && Descend(u, None, segs).Some? {
      DescendPath(u, None, segs);
      assert [] + segs == segs;
      PathIsSegments(u, Descend(u, None, segs).value);
    }
  }

  /** The tree that holds one root. */
  lemma OneRoot(x: string)
    requires Segment(x)
    ensures WellFormed(EMPTY)
    ensures var u := Grow(EMPTY, None, [x]).0;
      u.nodes == [Node(Clip(x, SEGMENT_CAP), None, [], 0, 0)] && u.roots == [0]
  {
    hide Clip;
    GrowNew(EMPTY, None, [x]);
    assert [x][1..] == [];
  }

  lemma SecondRoot(u: Tree, x: string)
    requires WellFormed(u) && Segment(x) && |u.roots| < MAX_CHILDREN && Child(u, None, x).None?
    ensures Grow(u, None, [x]).0.nodes == u.nodes + [Node(Clip(x, SEGMENT_CAP), None, [], 0, 0)]
  {
    hide Clip, Linked, Named, Ordered;
    GrowNew(u, None, [x]);
    assert [x][1..] == [];
  }

  /** A segment too long for a node: inserting it twice makes two siblings of the same name, and
      it cannot be found. */
  lemma LongSegmentIsDuplicated(x: string)
    requires Segment(x) && |x| >= SEGMENT_CAP
    ensures WellFormed(EMPTY)
    ensures var u := Grow(EMPTY, None, [x]).0;
      Descend(u, None, [x]).None? && !Distinct(Grow(u, None, [x]).0.nodes)
  {
    hide Clip, Grow, Linked, Ordered;
    OneRoot(x);
    var u := Grow(EMPTY, None, [x]).0;
    SecondRoot(u, x);
    var v := Grow(u, None, [x]).0;
    assert v.nodes[0] == v.nodes[1];
  }
}
