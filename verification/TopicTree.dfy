/** src/model/topic_tree.c: the tree of topics seen, its message counts and the way back from a
    node to its topic. */
module TopicTree {
  import opened Text
  import opened TopicPaths
  import TopicFilter

  const MAX_DEPTH := 64

  // ----- tokens

  /** The tokens strtok_r cuts at '/': never empty. */
  function Tokens(s: string): seq<string>
    decreases |s|
  {
    if s == "" then []
    else if s[0] == '/' then Tokens(s[1..])
    else [s[..TopicFilter.LevelLen(s)]] + Tokens(s[TopicFilter.LevelLen(s)..])
  }

  lemma TokensStep(s: string, i: nat)
    requires i <= |s|
    ensures i == |s| ==> Tokens(s[i..]) == []
    ensures i < |s| && s[i] == '/' ==> Tokens(s[i..]) == Tokens(s[i + 1..])
    ensures i < |s| && s[i] != '/' ==>
      var n := TopicFilter.LevelLen(s[i..]); Tokens(s[i..]) == [s[i..i + n]] + Tokens(s[i + n..])
  {
    if i < |s| {
      SliceSplit(s, i, 1);
      SliceSplit(s, i, TopicFilter.LevelLen(s[i..]));
    }
  }

  lemma {:induction false} TokensAreSegments(s: string)
    ensures AllSegments(Tokens(s))
    decreases |s|
  {
    if s != "" {
      if s[0] == '/' { TokensAreSegments(s[1..]); } else { TokensAreSegments(s[TopicFilter.LevelLen(s)..]); }
    }
  }

  function NonEmpty(levels: seq<string>): seq<string> {
    if levels == [] then [] else (if levels[0] == "" then [] else [levels[0]]) + NonEmpty(levels[1..])
  }

  /** They are the topic's levels without the empty ones. */
  lemma {:induction false} TokensAreLevels(s: string)
    ensures Tokens(s) == NonEmpty(TopicFilter.Levels(s))
    decreases |s|
  {
    var n := TopicFilter.LevelLen(s);
    if n == |s| {
      assert s[n..] == "" && s[..n] == s;
      assert [s][1..] == [];
    } else {
      assert s[n..][1..] == s[n + 1..];
      TokensAreLevels(s[n + 1..]);
      assert ([s[..n]] + TopicFilter.Levels(s[n + 1..]))[1..] == TopicFilter.Levels(s[n + 1..]);
      assert Tokens(s[n..]) == Tokens(s[n + 1..]);
    }
  }

  function Join(segs: seq<string>): string {
    if segs == [] then "" else if |segs| == 1 then segs[0] else segs[0] + ("/" + Join(segs[1..]))
  }

  lemma {:induction false} TokensOfJoin(segs: seq<string>)
    requires AllSegments(segs)
    ensures Tokens(Join(segs)) == segs
  {
    if |segs| == 1 {
      TopicFilter.LevelLenIs(segs[0], "");
      assert segs[0] + "" == segs[0];
      assert Join(segs)[|segs[0]|..] == "";
    } else if |segs| > 1 {
      TokensOfJoin(segs[1..]);
      var r := "/" + Join(segs[1..]);
      TopicFilter.LevelLenIs(segs[0], r);
      SplitConcat(segs[0], r);
      assert r[1..] == Join(segs[1..]);
      assert Join(segs)[0] == segs[0][0];
      assert segs == [segs[0]] + segs[1..];
    }
  }

  lemma {:induction false} JoinOneMore(segs: seq<string>, x: string)
    ensures Join(segs + [x]) == if segs == [] then x else Join(segs) + ("/" + x)
  {
    assert (segs + [x])[0] == if segs == [] then x else segs[0];
    if segs != [] {
      assert (segs + [x])[1..] == segs[1..] + [x];
      JoinOneMore(segs[1..], x);
      if |segs| > 1 {
        Assoc("/", Join(segs[1..]), "/" + x);
        Assoc(segs[0], "/" + Join(segs[1..]), "/" + x);
      }
    }
  }

  // ----- counts

  const WIDTH := 0x1_0000_0000

  /** Node i is j or above it. */
  predicate Above(nodes: seq<Node>, i: nat, j: nat)
    requires Ordered(nodes) && j < |nodes|
    decreases j
  {
    i == j || (nodes[j].parent.Some? && Above(nodes, i, nodes[j].parent.value))
  }

  /** The messages counted on the first n nodes that i is above. */
  function SubtreeSum(nodes: seq<Node>, i: nat, n: nat): nat
    requires Ordered(nodes) && n <= |nodes|
  {
    if n == 0 then 0
    else SubtreeSum(nodes, i, n - 1) + if Above(nodes, i, n - 1) then nodes[n - 1].messages else 0
  }

  function Total(nodes: seq<Node>, n: nat): nat
    requires n <= |nodes|
  {
    if n == 0 then 0 else Total(nodes, n - 1) + nodes[n - 1].messages
  }

  /** Every node shows exactly what has been counted on it and below it. */
  predicate Exact(nodes: seq<Node>)
    requires Ordered(nodes)
  {
    forall i :: 0 <= i < |nodes| ==> nodes[i].subtree == SubtreeSum(nodes, i, |nodes|)
  }

  /** The same tree with other counts. */
  predicate SameShape(t: seq<Node>, u: seq<Node>) {
    |t| == |u| && forall i :: 0 <= i < |t| ==> u[i] == t[i].(messages := u[i].messages, subtree := u[i].subtree)
  }

  /** The loop up the parent chain. */
  function Climb(nodes: seq<Node>, p: Option<nat>, f: nat -> nat): (r: seq<Node>)
    requires Ordered(nodes) && (p.Some? ==> p.value < |nodes|)
    ensures SameShape(nodes, r)
    decreases if p.None? then 0 else p.value + 1
  {
    if p.None? then nodes
    else
      var n := nodes[p.value];
      Climb(nodes[p.value := n.(subtree := f(n.subtree))], n.parent, f)
  }

  lemma ClimbStep(nodes: seq<Node>, p: nat, f: nat -> nat)
    requires Ordered(nodes) && p < |nodes|
    ensures var q := nodes[p];
      var u := nodes[p := q.(subtree := f(q.subtree))];
      && Ordered(u) && (q.parent.Some? ==> q.parent.value < p)
      && Climb(nodes, Some(p), f) == Climb(u, q.parent, f)
  {
  }

  lemma ClimbNowhere(nodes: seq<Node>, f: nat -> nat)
    requires Ordered(nodes)
    ensures Climb(nodes, None, f) == nodes
  {
  }

  lemma {:induction false} AboveSame(t: seq<Node>, u: seq<Node>, i: nat, j: nat)
    requires Ordered(t) && Ordered(u) && |t| <= |u| && j < |t|
    requires forall k :: 0 <= k < |t| ==> u[k].parent == t[k].parent
    ensures Above(u, i, j) == Above(t, i, j)
    decreases j
  {
    if t[j].parent.Some? { AboveSame(t, u, i, t[j].parent.value); }
  }

  lemma {:induction false} AboveIsBefore(nodes: seq<Node>, i: nat, j: nat)
    requires Ordered(nodes) && j < |nodes| && Above(nodes, i, j)
    ensures i <= j
    decreases j
  {
    if i != j { AboveIsBefore(nodes, i, nodes[j].parent.value); }
  }

  /** The climb changes the subtree counts of p and the nodes above it, each once. */
  lemma {:induction false} ClimbAt(nodes: seq<Node>, p: Option<nat>, f: nat -> nat, j: nat)
    requires Ordered(nodes) && (p.Some? ==> p.value < |nodes|) && j < |nodes|
    ensures Climb(nodes, p, f)[j] ==
      if p.Some? && Above(nodes, j, p.value) then nodes[j].(subtree := f(nodes[j].subtree)) else nodes[j]
    decreases if p.None? then 0 else p.value + 1
  {
    if p.Some? {
      var n := nodes[p.value];
      var u := nodes[p.value := n.(subtree := f(n.subtree))];
      ClimbAt(u, n.parent, f, j);
      if n.parent.Some? {
        AboveSame(nodes, u, j, n.parent.value);
        if Above(nodes, p.value, n.parent.value) { AboveIsBefore(nodes, p.value, n.parent.value); }
      }
    }
  }

  /** What another message count on node i does to the sum over k's subtree. */
  lemma {:induction false} SumUpdate(t: seq<Node>, u: seq<Node>, i: nat, k: nat, n: nat)
    requires Ordered(t) && SameShape(t, u) && Ordered(u) && i < |t| && n <= |t|
    requires forall j :: 0 <= j < |t| && j != i ==> u[j].messages == t[j].messages
    ensures var here := i < n && Above(t, k, i);
      SubtreeSum(u, k, n) + (if here then t[i].messages else 0) == SubtreeSum(t, k, n) + if here then u[i].messages else 0
  {
    if n > 0 {
      SumUpdate(t, u, i, k, n - 1);
      AboveSame(t, u, k, n - 1);
    }
  }

  lemma {:induction false} SumIsPart(nodes: seq<Node>, k: nat, n: nat)
    requires Ordered(nodes) && n <= |nodes|
    ensures SubtreeSum(nodes, k, n) <= Total(nodes, n)
  {
    if n > 0 { SumIsPart(nodes, k, n - 1); }
  }

  lemma {:induction false} TotalUpdate(t: seq<Node>, u: seq<Node>, i: nat, n: nat)
    requires |t| == |u| && i < |t| && n <= |t|
    requires forall j :: 0 <= j < |t| && j != i ==> u[j].messages == t[j].messages
    ensures Total(u, n) + (if i < n then t[i].messages else 0) == Total(t, n) + if i < n then u[i].messages else 0
  {
    if n > 0 { TotalUpdate(t, u, i, n - 1); }
  }

  /** A uint32_t increment. */
  function Increment(x: nat): nat { (x + 1) % WIDTH }

  /** The subtraction that stops at zero. */
  function Less(cleared: nat): nat -> nat { x => if x > cleared then x - cleared else 0 }

  /** topic_node_count_message. */
  function Counted(nodes: seq<Node>, i: nat): (r: seq<Node>)
    requires Ordered(nodes) && i < |nodes|
    ensures SameShape(nodes, r)
  {
    Climb(nodes[i := nodes[i].(messages := Increment(nodes[i].messages))], Some(i), Increment)
  }

  /** topic_node_clear_messages. */
  function Cleared(nodes: seq<Node>, i: nat): (r: seq<Node>)
    requires Ordered(nodes) && i < |nodes|
    ensures SameShape(nodes, r)
  {
    var n := nodes[i].messages;
    var u := if n > 0 then Climb(nodes, Some(i), Less(n)) else nodes;
    u[i := u[i].(messages := 0)]
  }

  lemma CountKeepsExact(nodes: seq<Node>, i: nat)
    requires Ordered(nodes) && i < |nodes| && Exact(nodes) && Total(nodes, |nodes|) + 1 < WIDTH
    ensures Exact(Counted(nodes, i))
    ensures Total(Counted(nodes, i), |nodes|) == Total(nodes, |nodes|) + 1
  {
    hide Climb, Above, SubtreeSum, Total;
    var v := nodes[i := nodes[i].(messages := Increment(nodes[i].messages))];
    var u := Counted(nodes, i);
    MessagesPart(nodes, i, |nodes|);
    forall k | 0 <= k < |nodes|
      ensures u[k].messages == v[k].messages
      ensures u[k].subtree == if Above(nodes, k, i) then nodes[k].subtree + 1 else nodes[k].subtree
    {
      ClimbAt(v, Some(i), Increment, k);
      AboveSame(nodes, v, k, i);
      SumIsPart(nodes, k, |nodes|);
    }
    TotalUpdate(nodes, u, i, |nodes|);
    forall k | 0 <= k < |nodes|
      ensures u[k].subtree == SubtreeSum(u, k, |u|)
    {
      SumUpdate(nodes, u, i, k, |nodes|);
    }
  }

  lemma {:induction false} MessagesPart(nodes: seq<Node>, i: nat, n: nat)
    requires i < n <= |nodes|
    ensures nodes[i].messages <= Total(nodes, n)
  {
    if i < n - 1 { MessagesPart(nodes, i, n - 1); }
  }

  /** The saturating subtraction never bites: each node loses exactly what was cleared below it. */
  lemma ClearKeepsExact(nodes: seq<Node>, i: nat)
    requires Ordered(nodes) && i < |nodes| && Exact(nodes)
    ensures Exact(Cleared(nodes, i))
    ensures forall k :: 0 <= k < |nodes| && Above(nodes, k, i) ==> Cleared(nodes, i)[k].subtree == nodes[k].subtree - nodes[i].messages
    ensures Total(Cleared(nodes, i), |nodes|) == Total(nodes, |nodes|) - nodes[i].messages
  {
    hide Climb, Above, SubtreeSum, Total;
    var n := nodes[i].messages;
    var u := Cleared(nodes, i);
    forall k | 0 <= k < |nodes|
      ensures u[k].messages == if k == i then 0 else nodes[k].messages
      ensures u[k].subtree == if Above(nodes, k, i) && n > 0 then Less(n)(nodes[k].subtree) else nodes[k].subtree
    {
      ClimbAt(nodes, Some(i), Less(n), k);
    }
    TotalUpdate(nodes, u, i, |nodes|);
    forall k | 0 <= k < |nodes|
      ensures u[k].subtree == SubtreeSum(u, k, |u|)
      ensures Above(nodes, k, i) ==> u[k].subtree == nodes[k].subtree - n
    {
      SumUpdate(nodes, u, i, k, |nodes|);
    }
  }

  /** New nodes bring no messages. */
  lemma {:induction false} SumGrows(t: seq<Node>, u: seq<Node>, k: nat, n: nat)
    requires Ordered(t) && Ordered(u) && Extends(u, t) && n <= |u|
    requires forall i :: |t| <= i < |u| ==> u[i].messages == 0
    ensures SubtreeSum(u, k, n) == SubtreeSum(t, k, if n < |t| then n else |t|)
    ensures Total(u, n) == Total(t, if n < |t| then n else |t|)
  {
    if n > 0 {
      SumGrows(t, u, k, n - 1);
      if n <= |t| {
        assert u[n - 1].(children := t[n - 1].children) == t[n - 1];
        forall i | 0 <= i < |t|
          ensures u[i].parent == t[i].parent
        {
          assert u[i].(children := t[i].children) == t[i];
        }
        AboveSame(t, u, k, n - 1);
      }
    }
  }

  lemma {:induction false} SumBeyond(nodes: seq<Node>, k: nat, n: nat)
    requires Ordered(nodes) && n <= |nodes| && k >= n
    ensures SubtreeSum(nodes, k, n) == 0
  {
    if n > 0 {
      SumBeyond(nodes, k, n - 1);
      if Above(nodes, k, n - 1) { AboveIsBefore(nodes, k, n - 1); }
    }
  }

  lemma GrowKeepsExact(t: Tree, segs: seq<string>)
    requires WellFormed(t) && AllSegments(segs) && Exact(t.nodes)
    ensures var u := Grow(t, None, segs).0;
      Exact(u.nodes) && Total(u.nodes, |u.nodes|) == Total(t.nodes, |t.nodes|)
  {
    hide Linked, Named, Grow, Above, SubtreeSum, Total;
    var u := Grow(t, None, segs).0;
    GrowExtends(t, None, segs);
    SumGrows(t.nodes, u.nodes, 0, |u.nodes|);
    forall k | 0 <= k < |u.nodes|
      ensures u.nodes[k].subtree == SubtreeSum(u.nodes, k, |u.nodes|)
    {
      SumGrows(t.nodes, u.nodes, k, |u.nodes|);
      if k < |t.nodes| {
        assert u.nodes[k].(children := t.nodes[k].children) == t.nodes[k];
      } else {
        SumBeyond(t.nodes, k, |t.nodes|);
      }
    }
  }

  lemma ShapeKeeps(t: Tree, nodes: seq<Node>)
    requires WellFormed(t) && SameShape(t.nodes, nodes)
    ensures WellFormed(Tree(nodes, t.roots))
    ensures Distinct(nodes) == Distinct(t.nodes)
    ensures Paths(Tree(nodes, t.roots)) == Paths(t)
  {
    hide Named, Path;
    var u := Tree(nodes, t.roots);
    forall i | 0 <= i < |nodes|
      ensures Path(nodes, i) == Path(t.nodes, i)
    {
      SamePath(t.nodes, nodes, i);
    }
    assert Named(nodes) by { NamedShape(t.nodes, nodes); }
    forall p: Option<nat> | At(u, p)
      ensures Linked(u, p)
    {
      assert Linked(t, p);
      assert Kids(u, p) == Kids(t, p);
    }
  }

  lemma NamedShape(t: seq<Node>, u: seq<Node>)
    requires Named(t) && SameShape(t, u)
    ensures Named(u)
  {
  }

  // ----- runs

  /** What the rest of the program may ask for; a node always comes from the tree. */
  datatype Event = Insert(topic: string) | Count(node: nat) | Clear(node: nat)

  /** The segments topic_tree_insert and topic_tree_find work on. */
  function SegmentsOf(topic: string): seq<string> { Tokens(Clip(topic, TOPIC_CAP)) }

  ghost function Step(t: Tree, e: Event): (u: Tree)
    requires WellFormed(t)
    ensures WellFormed(u)
  {
    match e
    case Insert(topic) =>
      TokensAreSegments(Clip(topic, TOPIC_CAP));
      Grow(t, None, SegmentsOf(topic)).0
    case Count(i) =>
      if i < |t.nodes| then
        ShapeKeeps(t, Counted(t.nodes, i));
        Tree(Counted(t.nodes, i), t.roots)
      else t
    case Clear(i) =>
      if i < |t.nodes| then
        ShapeKeeps(t, Cleared(t.nodes, i));
        Tree(Cleared(t.nodes, i), t.roots)
      else t
  }

  ghost function Run(events: seq<Event>): (t: Tree)
    ensures WellFormed(t)
  {
    if events == [] then EMPTY else Step(Run(events[..|events| - 1]), events[|events| - 1])
  }

  /** The messages counted on node i and not cleared since, in unbounded numbers. */
  ghost function Tally(events: seq<Event>, i: nat): nat {
    if events == [] then 0
    else
      var n := |events| - 1;
      var before := Tally(events[..n], i);
      match events[n]
      case Insert(_) => before
      case Count(j) => if j == i && i < |Run(events[..n]).nodes| then before + 1 else before
      case Clear(j) => if j == i then 0 else before
  }

  /** The tallies of the first n nodes together. */
  ghost function Outstanding(events: seq<Event>, n: nat): nat {
    if n == 0 then 0 else Outstanding(events, n - 1) + Tally(events, n - 1)
  }

  /** Whenever a message was counted, fewer than 2^32 - 1 were outstanding. */
  ghost predicate HasRoom(events: seq<Event>) {
    events == [] ||
    var n := |events| - 1;
    HasRoom(events[..n]) && (events[n].Count? ==> Outstanding(events[..n], |Run(events[..n]).nodes|) + 1 < 0x1_0000_0000)
  }

  lemma {:induction false} TallyBeyond(events: seq<Event>, i: nat)
    requires i >= |Run(events).nodes|
    ensures Tally(events, i) == 0
  {
    hide WellFormed, Grow, Counted, Cleared;
    if events != [] {
      var n := |events| - 1;
      var t := Run(events[..n]);
      StepKeepsNodes(t, events[n]);
      TallyBeyond(events[..n], i);
    }
  }

  lemma StepKeepsNodes(t: Tree, e: Event)
    requires WellFormed(t)
    ensures |t.nodes| <= |Step(t, e).nodes|
  {
    hide Linked, Named, Grow, Counted, Cleared;
    if e.Insert? {
      TokensAreSegments(Clip(e.topic, TOPIC_CAP));
      GrowExtends(t, None, SegmentsOf(e.topic));
    }
  }

  /** The counts on the nodes are the tallies. */
  ghost predicate Tallied(nodes: seq<Node>, events: seq<Event>) {
    forall i :: 0 <= i < |nodes| ==> nodes[i].messages == Tally(events, i)
  }

  lemma {:induction false} TotalIsOutstanding(nodes: seq<Node>, events: seq<Event>, n: nat)
    requires Tallied(nodes, events) && n <= |nodes|
    ensures Total(nodes, n) == Outstanding(events, n)
  {
    if n > 0 { TotalIsOutstanding(nodes, events, n - 1); }
  }

  lemma StepKeepsTallied(events: seq<Event>, e: Event)
    requires var t := Run(events);
      Tallied(t.nodes, events) && (e.Count? ==> Total(t.nodes, |t.nodes|) + 1 < WIDTH)
    ensures Tallied(Step(Run(events), e).nodes, events + [e])
  {
    hide Linked, Named, Grow, Total, Run, Counted, Cleared;
    var t := Run(events);
    var u := Step(t, e);
    assert (events + [e])[..|events|] == events;
    match e
    case Insert(topic) =>
      TokensAreSegments(Clip(topic, TOPIC_CAP));
      GrowExtends(t, None, SegmentsOf(topic));
      forall i | 0 <= i < |u.nodes|
        ensures u.nodes[i].messages == Tally(events + [e], i)
      {
        if i < |t.nodes| {
          assert u.nodes[i].(children := t.nodes[i].children) == t.nodes[i];
        } else {
          TallyBeyond(events, i);
        }
      }
    case Count(j) =>
      if j < |t.nodes| {
        MessagesPart(t.nodes, j, |t.nodes|);
        CountedMessages(t.nodes, j);
      }
    case Clear(j) =>
      if j < |t.nodes| { ClearedMessages(t.nodes, j); }
  }

  lemma CountedMessages(nodes: seq<Node>, i: nat)
    requires Ordered(nodes) && i < |nodes|
    ensures forall k :: 0 <= k < |nodes| ==>
      Counted(nodes, i)[k].messages == if k == i then Increment(nodes[i].messages) else nodes[k].messages
  {
    hide Climb, Above;
    var v := nodes[i := nodes[i].(messages := Increment(nodes[i].messages))];
    forall k | 0 <= k < |nodes|
      ensures Counted(nodes, i)[k].messages == v[k].messages
    {
      ClimbAt(v, Some(i), Increment, k);
    }
  }

  lemma ClearedMessages(nodes: seq<Node>, i: nat)
    requires Ordered(nodes) && i < |nodes|
    ensures forall k :: 0 <= k < |nodes| ==> Cleared(nodes, i)[k].messages == if k == i then 0 else nodes[k].messages
  {
    hide Climb, Above;
    forall k | 0 <= k < |nodes|
      ensures Cleared(nodes, i)[k].messages == if k == i then 0 else nodes[k].messages
    {
      ClimbAt(nodes, Some(i), Less(nodes[i].messages), k);
    }
  }

  /** After any run in which no more than 2^32 - 1 messages were ever outstanding, every node
      shows the messages counted on it and not cleared since, and the sum of those below it. */
  lemma {:induction false} CountsStayExact(events: seq<Event>)
    requires HasRoom(events)
    ensures var t := Run(events); Exact(t.nodes) && Tallied(t.nodes, events)
  {
    hide Linked, Named, Grow, Counted, Cleared, Exact, Total, Tallied, Outstanding;
    if events == [] {
      NothingCounted();
      NothingTallied();
    } else {
      var n := |events| - 1;
      var t := Run(events[..n]);
      CountsStayExact(events[..n]);
      TotalIsOutstanding(t.nodes, events[..n], |t.nodes|);
      StepKeepsTallied(events[..n], events[n]);
      assert events[..n] + [events[n]] == events;
      match events[n]
      case Insert(topic) =>
        TokensAreSegments(Clip(topic, TOPIC_CAP));
        GrowKeepsExact(t, SegmentsOf(topic));
      case Count(i) =>
        if i < |t.nodes| { CountKeepsExact(t.nodes, i); }
      case Clear(i) =>
        if i < |t.nodes| { ClearKeepsExact(t.nodes, i); }
    }
  }

  lemma NothingTallied()
    ensures Tallied(EMPTY.nodes, [])
  {
  }

  function Counts(events: seq<Event>): nat {
    if events == [] then 0 else Counts(events[..|events| - 1]) + if events[|events| - 1].Count? then 1 else 0
  }

  /** In particular after any run that counts fewer than 2^32 messages in all. */
  lemma {:induction false} FewCountsHaveRoom(events: seq<Event>)
    requires Counts(events) < WIDTH
    ensures HasRoom(events) && Outstanding(events, |Run(events).nodes|) <= Counts(events)
  {
    hide Linked, Named, Grow, Counted, Cleared, Exact, Total, Tallied, Tally, Outstanding;
    if events == [] {
      CountsStayExact(events);
      NothingCounted();
      TotalIsOutstanding(Run(events).nodes, events, 0);
    } else {
      var n := |events| - 1;
      var t := Run(events[..n]);
      FewCountsHaveRoom(events[..n]);
      CountsStayExact(events[..n]);
      TotalIsOutstanding(t.nodes, events[..n], |t.nodes|);
      CountsStayExact(events);
      TotalIsOutstanding(Run(events).nodes, events, |Run(events).nodes|);
      match events[n]
      case Insert(topic) =>
        TokensAreSegments(Clip(topic, TOPIC_CAP));
        GrowKeepsExact(t, SegmentsOf(topic));
      case Count(i) =>
        if i < |t.nodes| { CountKeepsExact(t.nodes, i); }
      case Clear(i) =>
        if i < |t.nodes| { ClearKeepsExact(t.nodes, i); }
    }
  }

  lemma NothingCounted()
    ensures WellFormed(EMPTY) && Exact(EMPTY.nodes) && Total(EMPTY.nodes, 0) == 0
  {
  }

  /** The set of paths the run should leave: segments as nodes hold them. */
  ghost function PathsAfter(events: seq<Event>): set<seq<string>> {
    if events == [] then {}
    else
      var n := |events| - 1;
      var before := PathsAfter(events[..n]);
      if !events[n].Insert? then before
      else
        var segs := SegmentsOf(events[n].topic);
        if segs == [] || Full(before, [], segs) then before else before + Beginnings(Clipped(segs))
  }

  /** No insert of the run cuts a segment down to the name of a sibling it stands beside. */
  ghost predicate NeverClashes(events: seq<Event>) {
    events == [] ||
    var n := |events| - 1;
    NeverClashes(events[..n])
    && (events[n].Insert? ==> !Clashes(PathsAfter(events[..n]), [], SegmentsOf(events[n].topic)))
  }

  predicate ShortTopics(events: seq<Event>) {
    forall i :: 0 <= i < |events| && events[i].Insert? ==> Short(SegmentsOf(events[i].topic))
  }

  /** As when all segments fit in a node. */
  lemma {:induction false} ShortTopicsNeverClash(events: seq<Event>)
    requires ShortTopics(events)
    ensures NeverClashes(events)
  {
    hide Short, Clashes;
    if events != [] {
      var n := |events| - 1;
      ShortTopicsNeverClash(events[..n]);
      if events[n].Insert? { ShortNeverClashes(PathsAfter(events[..n]), [], SegmentsOf(events[n].topic)); }
    }
  }

  /** What a step never undoes: equal siblings. */
  lemma StepKeepsDuplicates(t: Tree, e: Event)
    requires WellFormed(t) && Distinct(Step(t, e).nodes)
    ensures Distinct(t.nodes)
  {
    hide Linked, Named, Grow, Counted, Cleared, Distinct;
    match e
    case Insert(topic) =>
      TokensAreSegments(Clip(topic, TOPIC_CAP));
      GrowExtends(t, None, SegmentsOf(topic));
      DuplicatesStay(t.nodes, Step(t, e).nodes);
    case Count(i) =>
      if i < |t.nodes| { ShapeKeeps(t, Counted(t.nodes, i)); }
    case Clear(i) =>
      if i < |t.nodes| { ShapeKeeps(t, Cleared(t.nodes, i)); }
  }

  /** One step on a tree that is its paths. */
  lemma StepOnPaths(t: Tree, e: Event)
    requires WellFormed(t) && Distinct(t.nodes)
    ensures var u := Step(t, e);
      match e
      case Insert(topic) =>
        var segs := SegmentsOf(topic);
        && (Distinct(u.nodes) <==> !Clashes(Paths(t), [], segs))
        && Paths(u) == if segs == [] || Full(Paths(t), [], segs) then Paths(t) else Paths(t) + Beginnings(Clipped(segs))
      case _ => Distinct(u.nodes) && Paths(u) == Paths(t)
  {
    hide Linked, Named, Grow, Counted, Cleared, Distinct, Paths, Full, Clashes, Beginnings;
    match e
    case Insert(topic) =>
      var segs := SegmentsOf(topic);
      TokensAreSegments(Clip(topic, TOPIC_CAP));
      InsertRefines(t, segs);
      DistinctUnlessColliding(t, None, segs);
      CollidesInPaths(t, None, segs);
    case Count(i) =>
      if i < |t.nodes| { ShapeKeeps(t, Counted(t.nodes, i)); }
    case Clear(i) =>
      if i < |t.nodes| { ShapeKeeps(t, Cleared(t.nodes, i)); }
  }

  /** After any run the siblings are distinct exactly when no insert has clashed, and then the
      tree is the set of paths and total_count the set's size. */
  lemma {:induction false} TreeIsItsPaths(events: seq<Event>)
    ensures var t := Run(events);
      && (Distinct(t.nodes) <==> NeverClashes(events))
      && (NeverClashes(events) ==> Paths(t) == PathsAfter(events) && |t.nodes| == |PathsAfter(events)|)
  {
    hide Linked, Named, Step, Distinct, Paths, Full, Clashes, Beginnings;
    if events == [] {
      NothingThere();
    } else {
      var n := |events| - 1;
      var t := Run(events[..n]);
      TreeIsItsPaths(events[..n]);
      if Distinct(t.nodes) {
        StepOnPaths(t, events[n]);
      } else if Distinct(Step(t, events[n]).nodes) {
        StepKeepsDuplicates(t, events[n]);
      }
    }
    if Distinct(Run(events).nodes) { NodesCountPaths(Run(events)); }
  }

  lemma NothingThere()
    ensures Distinct(EMPTY.nodes) && WellFormed(EMPTY) && Paths(EMPTY) == {}
  {
  }

  /** Finding after any run without a clash: exactly the topics whose segments, and all above
      them, some insert has brought in. */
  lemma FoundIffInserted(events: seq<Event>, topic: string)
    requires NeverClashes(events)
    ensures Descend(Run(events), None, SegmentsOf(topic)).Some? <==> SegmentsOf(topic) in PathsAfter(events)
  {
    hide Linked, Named, Distinct, Descend, Path, NeverClashes;
    var t := Run(events);
    TreeIsItsPaths(events);
    if SegmentsOf(topic) == [] {
      NoEmptyPath(t);
      FindNothing(t);
    } else {
      FindIsMembership(t, SegmentsOf(topic));
    }
  }

  lemma NoEmptyPath(t: Tree)
    requires Ordered(t.nodes)
    ensures [] !in Paths(t)
  {
  }

  lemma FindNothing(t: Tree)
    requires WellFormed(t)
    ensures Descend(t, None, []).None?
  {
  }

  // ----- the tree in place

  class TopicIndex {
    var nodes: seq<Node>
    var roots: seq<nat>
    var total: nat

    ghost function Value(): Tree
      reads this
    {
      Tree(nodes, roots)
    }

    ghost predicate Valid()
      reads this
    {
      WellFormed(Value()) && total == |nodes|
    }

    /** topic_tree_init. */
    constructor ()
      ensures Valid() && Value() == EMPTY
    {
      nodes, roots, total := [], [], 0;
      new;
      NothingCounted();
    }

    /** find_child. */
    method FindChildOf(kids: seq<nat>, seg: string) returns (r: Option<nat>)
      requires forall i :: 0 <= i < |kids| ==> kids[i] < |nodes|
      ensures r == FindChild(nodes, kids, seg)
    {
      var i := 0;
      assert kids[0..] == kids;
      while i < |kids|
        invariant i <= |kids| && FindChild(nodes, kids[i..], seg) == FindChild(nodes, kids, seg)
      {
        assert kids[i..][0] == kids[i] && kids[i..][1..] == kids[i + 1..];
        if nodes[kids[i]].segment == seg { return Some(kids[i]); }
        i := i + 1;
      }
      r := None;
    }

    /** node_new, then add_child. */
    method MakeChild(parent: Option<nat>, seg: string) returns (n: nat)
      requires At(Value(), parent) && |Kids(Value(), parent)| < MAX_CHILDREN && total == |nodes|
      modifies this
      ensures Value() == AddNode(old(Value()), parent, Clip(seg, SEGMENT_CAP)) && n == |old(nodes)|
      ensures total == old(total) + 1 && total == |nodes|
    {
      n := |nodes|;
      nodes := nodes + [Node(Clip(seg, SEGMENT_CAP), parent, [], 0, 0)];
      total := total + 1;
      if parent.None? {
        if |roots| < MAX_CHILDREN { roots := roots + [n]; }
      } else {
        var q := nodes[parent.value];
        if |q.children| < MAX_CHILDREN {
          nodes := nodes[parent.value := q.(children := q.children + [n])];
        }
      }
    }

    /** The separators before a token. */
    static method SkipSlashes(buf: string, pos: nat) returns (start: nat)
      requires pos <= |buf|
      ensures pos <= start <= |buf| && (start < |buf| ==> buf[start] != '/')
      ensures Tokens(buf[start..]) == Tokens(buf[pos..])
    {
      hide Tokens;
      start := pos;
      while start < |buf| && buf[start] == '/'
        invariant pos <= start <= |buf| && Tokens(buf[start..]) == Tokens(buf[pos..])
      {
        TokensStep(buf, start);
        start := start + 1;
      }
    }

    /** strtok_r from `pos` on. */
    static method NextToken(buf: string, pos: nat) returns (seg: Option<string>, next: nat)
      requires pos <= |buf|
      ensures next <= |buf|
      ensures Tokens(buf[pos..]) == if seg.None? then [] else [seg.value] + Tokens(buf[next..])
    {
      hide Tokens;
      var start := SkipSlashes(buf, pos);
      TokensStep(buf, start);
      if start == |buf| { return None, start; }
      next := TopicFilter.SkipLevel(buf, start);
      seg := Some(buf[start..next]);
      TokensStep(buf, next);
      if next < |buf| { next := next + 1; }
    }

    /** topic_tree_insert. */
    method InsertTopic(topic: string) returns (r: Option<nat>)
      requires Valid()
      modifies this
      ensures Valid()
      ensures AllSegments(SegmentsOf(topic)) && (Value(), r) == Grow(old(Value()), None, SegmentsOf(topic))
    {
      hide Linked, Named, AddNode, Tokens;
      var buf := Clip(topic, TOPIC_CAP);
      TokensAreSegments(buf);
      assert buf[0..] == buf;
      r := None;
      var seg, pos: nat := NextToken(buf, 0);
      ghost var segs := SegmentsOf(topic);
      ghost var rest := segs;
      while seg.Some?
        invariant pos <= |buf| && Valid() && At(Value(), r) && AllSegments(rest)
        invariant rest == if seg.None? then [] else [seg.value] + Tokens(buf[pos..])
        invariant Grow(Value(), r, rest) == Grow(old(Value()), None, segs)
        decreases |rest|
      {
        assert rest[0] == seg.value && rest[1..] == Tokens(buf[pos..]);
        ghost var t := Value();
        assert Linked(t, r);
        var kids := if r.None? then roots else nodes[r.value].children;
        assert kids == Kids(t, r);
        KidsInRange(t, r);
        var c := FindChildOf(kids, seg.value);
        assert c == Child(t, r, seg.value);
        if c.None? {
          if |kids| >= MAX_CHILDREN { return None; }
          GrowNew(t, r, rest);
          var n := MakeChild(r, seg.value);
          c := Some(n);
        }
        r := c;
        rest := rest[1..];
        seg, pos := NextToken(buf, pos);
      }
    }

    /** topic_tree_find. */
    method FindTopic(topic: string) returns (r: Option<nat>)
      requires Valid()
      ensures r == Descend(Value(), None, SegmentsOf(topic))
    {
      hide Linked, Named, Tokens;
      var buf := Clip(topic, TOPIC_CAP);
      assert buf[0..] == buf;
      r := None;
      var seg, pos: nat := NextToken(buf, 0);
      ghost var segs := SegmentsOf(topic);
      ghost var rest := segs;
      while seg.Some?
        invariant pos <= |buf| && At(Value(), r)
        invariant rest == if seg.None? then [] else [seg.value] + Tokens(buf[pos..])
        invariant Descend(Value(), r, rest) == Descend(Value(), None, segs)
        decreases |rest|
      {
        assert rest[0] == seg.value && rest[1..] == Tokens(buf[pos..]);
        var kids := if r.None? then roots else nodes[r.value].children;
        assert kids == Kids(Value(), r);
        KidsInRange(Value(), r);
        r := FindChildOf(kids, seg.value);
        if r.None? { return; }
        rest := rest[1..];
        seg, pos := NextToken(buf, pos);
      }
    }

    /** The loop of topic_node_count_message. */
    method AddToChain(node: nat)
      requires Ordered(nodes) && node < |nodes|
      modifies this`nodes
      ensures nodes == Climb(old(nodes), Some(node), Increment)
    {
      hide Climb, Ordered, SameShape;
      ghost var all := Climb(nodes, Some(node), Increment);
      var n: Option<nat> := Some(node);
      while n.Some?
        invariant n.Some? ==> n.value < |nodes|
        invariant Ordered(nodes) && |nodes| == |old(nodes)| && Climb(nodes, n, Increment) == all
        decreases if n.None? then 0 else n.value + 1
      {
        ClimbStep(nodes, n.value, Increment);
        var q := nodes[n.value];
        nodes := nodes[n.value := q.(subtree := Increment(q.subtree))];
        n := q.parent;
      }
      ClimbNowhere(nodes, Increment);
    }

    /** topic_node_count_message. */
    method CountMessage(node: nat)
      requires Valid() && node < |nodes|
      modifies this`nodes
      ensures Valid() && nodes == Counted(old(nodes), node)
    {
      hide Linked, Named, Climb;
      ShapeKeeps(Value(), Counted(nodes, node));
      nodes := nodes[node := nodes[node].(messages := Increment(nodes[node].messages))];
      AddToChain(node);
    }

    /** The loop of topic_node_clear_messages. */
    method TakeFromChain(node: nat, cleared: nat)
      requires Ordered(nodes) && node < |nodes|
      modifies this`nodes
      ensures nodes == Climb(old(nodes), Some(node), Less(cleared))
    {
      hide Climb, Ordered, SameShape;
      ghost var all := Climb(nodes, Some(node), Less(cleared));
      var p: Option<nat> := Some(node);
      while p.Some?
        invariant p.Some? ==> p.value < |nodes|
        invariant Ordered(nodes) && |nodes| == |old(nodes)| && Climb(nodes, p, Less(cleared)) == all
        decreases if p.None? then 0 else p.value + 1
      {
        ClimbStep(nodes, p.value, Less(cleared));
        var q := nodes[p.value];
        nodes := nodes[p.value := q.(subtree := if q.subtree > cleared then q.subtree - cleared else 0)];
        p := q.parent;
      }
      ClimbNowhere(nodes, Less(cleared));
    }

    /** topic_node_clear_messages. */
    method ClearMessages(node: nat) returns (cleared: nat)
      requires Valid() && node < |nodes|
      modifies this`nodes
      ensures Valid() && nodes == Cleared(old(nodes), node) && cleared == old(nodes)[node].messages
    {
      hide Linked, Named, Climb;
      ShapeKeeps(Value(), Cleared(nodes, node));
      cleared := nodes[node].messages;
      if cleared > 0 { TakeFromChain(node, cleared); }
      nodes := nodes[node := nodes[node].(messages := 0)];
    }

    /** The segments from the node up, at most MAX_DEPTH of them. */
    method Stack(node: nat) returns (stack: seq<string>)
      requires Valid() && node < |nodes|
      ensures |stack| == |Tail(Path(nodes, node))|
      ensures forall j :: 0 <= j < |stack| ==> stack[j] == Tail(Path(nodes, node))[|stack| - 1 - j]
    {
      hide Linked, Named, Path;
      stack := [];
      var n: Option<nat> := Some(node);
      ghost var path := Path(nodes, node);
      ghost var tail: seq<string> := [];
      assert path + [] == path;
      while n.Some? && |stack| < MAX_DEPTH
        invariant n.Some? ==> n.value < |nodes|
        invariant PathTo(Value(), n) + tail == path && |stack| == |tail| <= MAX_DEPTH
        invariant forall j :: 0 <= j < |stack| ==> stack[j] == tail[|stack| - 1 - j]
        decreases if n.None? then 0 else n.value + 1
      {
        PathBelow(Value(), n.value);
        var seg := nodes[n.value].segment;
        Assoc(PathTo(Value(), nodes[n.value].parent), [seg], tail);
        stack := stack + [seg];
        tail := [seg] + tail;
        n := nodes[n.value].parent;
      }
      SplitConcat(PathTo(Value(), n), tail);
      assert [] + tail == tail;
    }

    /** topic_node_full_path; None where it returns without touching the buffer. */
    method FullPath(node: nat, bufSize: nat) returns (text: Option<string>)
      requires Valid() && node < |nodes|
      ensures text.None? <==> bufSize == 0
      ensures text.Some? ==> Fitting(Tail(Path(nodes, node)), text.value, bufSize)
    {
      hide Linked, Named, Path, Tail, Join;
      if bufSize == 0 { return None; }
      var stack := Stack(node);
      ghost var segs := Tail(Path(nodes, node));
      var buf := "";
      var i := |stack|;
      JoinNothing(segs);
      while i > 0
        invariant 0 <= i <= |stack| && |buf| < bufSize && buf == Join(segs[..|stack| - i])
      {
        ghost var k := |stack| - i;
        var seg := stack[i - 1];
        var first := i == |stack|;
        SliceStep(segs, 0, k);
        JoinOneMore(segs[..k], seg);
        if |buf| + |seg| + (if first then 0 else 1) >= bufSize {
          return Some(buf);
        }
        if !first { buf := buf + "/"; }
        Assoc(buf, "/", seg);
        buf := buf + seg;
        i := i - 1;
      }
      text := Some(buf);
    }
  }

  lemma JoinNothing(segs: seq<string>)
    ensures Join(segs[..0]) == ""
  {
  }

  // ----- from a node back to its topic

  /** As many of the segments, from the first on, as fit in a buffer of `cap` characters. */
  predicate Fitting(segs: seq<string>, text: string, cap: nat) {
    exists k :: 0 <= k <= |segs| && text == Join(segs[..k]) && |text| < cap
      && (k < |segs| ==> |Join(segs[..k + 1])| >= cap)
  }

  /** The last segments of a path, at most MAX_DEPTH of them. */
  function Tail(path: seq<string>): seq<string> {
    if |path| <= MAX_DEPTH then path else path[|path| - MAX_DEPTH..]
  }

  lemma FittingWhole(segs: seq<string>, text: string, cap: nat)
    requires Fitting(segs, text, cap) && |Join(segs)| < cap
    ensures text == Join(segs)
  {
    var k :| 0 <= k <= |segs| && text == Join(segs[..k]) && |text| < cap && (k < |segs| ==> |Join(segs[..k + 1])| >= cap);
    if k < |segs| { JoinPrefix(segs, k + 1); }
    assert segs[..|segs|] == segs;
  }

  lemma {:induction false} JoinPrefix(segs: seq<string>, k: nat)
    requires k <= |segs|
    ensures |Join(segs[..k])| <= |Join(segs)|
    decreases |segs| - k
  {
    if k == |segs| {
      assert segs[..k] == segs;
    } else {
      JoinPrefix(segs, k + 1);
      SliceStep(segs, 0, k);
      JoinOneMore(segs[..k], segs[k]);
    }
  }

  /** topic_node_full_path gives a node back its topic, and finding that topic gives back the
      node, when the path is no deeper than 64 levels and fits both buffers. */
  lemma PathFindsNode(t: Tree, i: nat, text: string, cap: nat)
    requires WellFormed(t) && Distinct(t.nodes) && i < |t.nodes|
    requires |Path(t.nodes, i)| <= 64 && |Join(Path(t.nodes, i))| < cap && |Join(Path(t.nodes, i))| < 512
    requires Fitting(Tail(Path(t.nodes, i)), text, cap)
    ensures text == Join(Path(t.nodes, i))
    ensures SegmentsOf(text) == Path(t.nodes, i) && Descend(t, None, SegmentsOf(text)) == Some(i)
  {
    hide Linked, Path, Descend, Tokens, Join, Fitting;
    FittingWhole(Path(t.nodes, i), text, cap);
    PathIsSegments(t, i);
    TokensOfJoin(Path(t.nodes, i));
    DescendFinds(t, i);
  }

  lemma KidsInRange(t: Tree, p: Option<nat>)
    requires WellFormed(t) && At(t, p)
    ensures forall i :: 0 <= i < |Kids(t, p)| ==> Kids(t, p)[i] < |t.nodes|
  {
    assert Linked(t, p);
  }
}
