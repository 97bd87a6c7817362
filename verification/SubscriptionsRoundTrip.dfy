/** Reading back a stored subscription list: the stored text is a JSON text, the formatter
    shows its tree, and the look-ups of the parser find every topic and QoS in it. */
module SubscriptionsRoundTrip {
  import opened Text
  import opened LineModel
  import opened JsonScan
  import opened JsonRender
  import opened JsonFind
  import opened Subscriptions
  import JsonFormatter

  /** What a profile in memory can be. */
  predicate Profile(subs: seq<Subscription>) {
    |subs| <= 16 && forall i :: 0 <= i < |subs| ==> Held(subs[i])
  }

  /** A topic the database gives back unchanged: its literal is short enough for a line of the
      formatter, or what the line cuts off is only the closing quote or half of a last escaped
      backslash. */
  predicate Survives(topic: string) {
    var n := |Literal(topic)|;
    || n < 272
    || (n == 272 && topic[|topic| - 1] != '\"')
    || (n == 273 && topic[|topic| - 1] == '\\')
  }

  /** strtod reads back what printf("%u") wrote. */
  ghost predicate ReadsDecimals(lc: Libc) {
    forall n: nat {:trigger Decimal(n)} :: lc.strtod(Decimal(n)) == Some(n as real)
  }

  // ----- the stored text as a tree

  function TopicItem(s: Subscription): Item { Item("", "topic", "", "", Quoted(Escaped(s.topic)), "") }

  function QosItem(s: Subscription): Item { Item("", "qos", "", "", Scalar(Decimal(s.qos)), "") }

  function EntryItem(s: Subscription): Item {
    Item("", "", "", "", Bracket(true, "", [TopicItem(s), QosItem(s)]), "")
  }

  function Items(subs: seq<Subscription>): (r: seq<Item>)
    ensures |r| == |subs| && forall i :: 0 <= i < |subs| ==> r[i] == EntryItem(subs[i])
  {
    seq(|subs|, i requires 0 <= i < |subs| => EntryItem(subs[i]))
  }

  function Tree(subs: seq<Subscription>): Json { Bracket(false, "", Items(subs)) }

  lemma ColonPlain(raw: string, t: string)
    ensures Colon(true, raw, "", "", t) == ("\"" + raw + "\":") + t
  {
    assert "" + t == t && "" + (":" + t) == ":" + t;
    Assoc("\"", ":", t);
    assert "\"" + ":" == "\":";
    Assoc(raw, "\":", t);
    Assoc("\"", raw + "\":", t);
    Assoc("\"", raw, "\":");
  }

  lemma PairPrints(key: string, v: Json, tail: string)
    ensures PrintItem(true, Item("", key, "", "", v, ""), tail) == ("\"" + key + "\":") + Print(v, tail)
  {
    hide Colon, Print;
    ColonPlain(key, Print(v, tail));
    assert "" + tail == tail;
    assert "" + Colon(true, key, "", "", Print(v, tail)) == Colon(true, key, "", "", Print(v, tail));
  }

  lemma TwoPairsPrint(a: Item, b: Item, tail: string)
    ensures PrintItems(true, [a, b], tail) == PrintItem(true, a, "," + PrintItem(true, b, "}" + tail))
  {
    assert [a, b][1..] == [b];
  }

  lemma Regroup(a: string, k: string, l: string, c: string, m: string, d: string, e: string, tail: string)
    ensures a + (k + (l + (c + (m + (d + (e + tail)))))) == ((a + k) + (l + ((c + m) + (d + e)))) + tail
  {
    Assoc(d, e, tail);
    Assoc(c, m, (d + e) + tail);
    Assoc(c + m, d + e, tail);
    Assoc(l, (c + m) + (d + e), tail);
    Assoc(a, k, (l + ((c + m) + (d + e))) + tail);
    Assoc(a + k, l + ((c + m) + (d + e)), tail);
  }

  lemma EntryKeys()
    ensures "{" + ("\"" + "topic" + "\":") == "{\"topic\":"
    ensures "," + ("\"" + "qos" + "\":") == ",\"qos\":"
  {
  }

  lemma EntryPrints(s: Subscription, tail: string)
    ensures PrintItem(false, EntryItem(s), tail) == Entry(s) + tail
  {
    hide PrintItem, PrintItems, Decimal, Escaped;
    var k, m := "\"" + "topic" + "\":", "\"" + "qos" + "\":";
    var inner := Bracket(true, "", [TopicItem(s), QosItem(s)]);
    TwoPairsPrint(TopicItem(s), QosItem(s), tail);
    PairPrints("qos", QosItem(s).value, "}" + tail);
    PairPrints("topic", TopicItem(s).value, "," + (m + (Decimal(s.qos) + ("}" + tail))));
    LiteralTail(s.topic, "," + (m + (Decimal(s.qos) + ("}" + tail))));
    Regroup("{", k, Literal(s.topic), ",", m, Decimal(s.qos), "}", tail);
    EntryKeys();
    ElementPrints(inner, tail);
  }

  lemma LiteralTail(s: string, tail: string)
    ensures Print(Quoted(Escaped(s)), tail) == Literal(s) + tail
  {
    hide Escaped;
    Assoc(Escaped(s), "\"", tail);
    Assoc("\"", Escaped(s) + "\"", tail);
  }

  lemma ElementPrints(v: Json, tail: string)
    ensures PrintItem(false, Item("", "", "", "", v, ""), tail) == Print(v, tail)
  {
    hide Print;
    assert "" + tail == tail && "" + Print(v, tail) == Print(v, tail);
  }

  lemma {:induction false} EntriesFront(subs: seq<Subscription>)
    requires |subs| > 1
    ensures Entries(subs) == Entry(subs[0]) + ("," + Entries(subs[1..]))
  {
    hide Entry;
    var init, last, tail := subs[..|subs| - 1], subs[|subs| - 1], subs[1..];
    assert tail[..|tail| - 1] == init[1..] && tail[|tail| - 1] == last;
    if |subs| == 2 {
      assert init == [subs[0]] && tail == [last];
      OneEntry(subs[0]);
      OneEntry(last);
      Assoc(Entry(subs[0]), ",", Entry(last));
    } else {
      EntriesFront(init);
      Assoc(Entry(subs[0]), "," + Entries(init[1..]), "," + Entry(last));
      Assoc(",", Entries(init[1..]), "," + Entry(last));
      Assoc(Entries(init[1..]), ",", Entry(last));
      Assoc(Entry(subs[0]) + ("," + Entries(init[1..])), ",", Entry(last));
    }
  }

  lemma OneEntry(s: Subscription)
    ensures Entries([s]) == Entry(s)
  {
    hide Entry;
    assert [s][..0] == [];
    assert "" + "" + Entry(s) == Entry(s);
  }

  lemma {:induction false} ItemsPrint(subs: seq<Subscription>, tail: string)
    requires subs != []
    ensures PrintItems(false, Items(subs), tail) == Entries(subs) + ("]" + tail)
  {
    hide Entry, Entries, PrintItem;
    var e := subs[0];
    if |subs| == 1 {
      assert subs == [e];
      OneEntry(e);
      EntryPrints(e, "]" + tail);
    } else {
      assert Items(subs)[1..] == Items(subs[1..]);
      ItemsPrint(subs[1..], tail);
      EntryPrints(e, "," + (Entries(subs[1..]) + ("]" + tail)));
      EntriesFront(subs);
      Assoc(",", Entries(subs[1..]), "]" + tail);
      Assoc(Entry(e), "," + Entries(subs[1..]), "]" + tail);
    }
  }

  /** The stored text is the printed tree. */
  lemma TreePrints(subs: seq<Subscription>)
    ensures Print(Tree(subs), "") == Stored(subs)
  {
    hide PrintItems, Entries;
    if subs == [] {
      NoEntries();
    } else {
      ItemsPrint(subs, "");
      Assoc("[", Entries(subs), "]");
    }
  }

  lemma NoEntries()
    ensures Print(Tree([]), "") == Stored([])
  {
  }

  // ----- the tree meets the formatter's conditions

  lemma NumberIsAtom(n: nat)
    ensures IsAtom(Decimal(n))
  {
  }

  lemma TreeWf(subs: seq<Subscription>)
    requires forall i :: 0 <= i < |subs| ==> Held(subs[i])
    ensures Wf(Tree(subs)) && FitsDepth(Tree(subs), 0)
  {
    forall i | 0 <= i < |subs|
      ensures WfItem(Items(subs)[i]) && ItemFits(Items(subs)[i], 1)
    {
      EntryWf(subs[i]);
    }
  }

  lemma EntryWf(s: Subscription)
    requires Held(s)
    ensures WfItem(EntryItem(s)) && ItemFits(EntryItem(s), 1)
  {
    EscapedClosed(s.topic);
    NumberIsAtom(s.qos);
    KeysClosed();
    assert WfItem(TopicItem(s)) && ItemFits(TopicItem(s), 2);
    assert WfItem(QosItem(s)) && ItemFits(QosItem(s), 2);
  }

  lemma KeysClosed()
    ensures Closed("topic") && Closed("qos")
  {
    var t, q := "topic", "qos";
    assert t[1..] == "opic" && "opic"[1..] == "pic" && "pic"[1..] == "ic" && "ic"[1..] == "c" && "c"[1..] == "";
    assert q[1..] == "os" && "os"[1..] == "s" && "s"[1..] == "";
  }

  lemma EntryKeysPlain()
    ensures KeyShown("topic") == "topic" && KeyShown("qos") == "qos"
    ensures SegmentOk("topic") && SegmentOk("qos")
  {
    PlainKey("topic");
    PlainKey("qos");
  }

  lemma IndexSegment(i: nat)
    requires i < MAX_PROFILE_SUBS
    ensures SegmentOk(Decimal(i)) && Join("", Decimal(i)) == Decimal(i) && |Decimal(i)| <= 2
  {
    assert Pow10(2) == 100;
    DecimalLength(i, 2);
    assert "" + "" + Decimal(i) == Decimal(i);
  }

  lemma TreeUnambiguous(subs: seq<Subscription>)
    requires |subs| <= MAX_PROFILE_SUBS
    ensures Unambiguous(Tree(subs), "")
  {
    forall i | 0 <= i < |subs|
      ensures ItemUnambiguous(false, Items(subs)[i], i, "")
    {
      IndexSegment(i);
      EntryUnambiguous(subs[i], Decimal(i));
    }
  }

  lemma EntryUnambiguous(s: Subscription, path: string)
    requires 0 < |path| <= 2
    ensures Unambiguous(EntryItem(s).value, path)
  {
    hide KeyShown;
    EntryKeysPlain();
    var items := [TopicItem(s), QosItem(s)];
    assert ItemUnambiguous(true, items[0], 0, path);
    assert ItemUnambiguous(true, items[1], 1, path);
    assert forall k :: 0 <= k < |items| ==> ItemUnambiguous(true, items[k], k, path);
  }

  lemma {:induction false} FourLinesEach(lc: Libc, subs: seq<Subscription>, i: nat, depth: nat, path: string)
    ensures |ItemsLines(lc, false, Items(subs), i, depth, path)| == 4 * |subs|
  {
    hide ItemLines;
    if subs != [] {
      EntryLinesFour(lc, subs[0], i, depth, path);
      assert Items(subs)[1..] == Items(subs[1..]);
      FourLinesEach(lc, subs[1..], i + 1, depth, path);
    }
  }

  lemma EntryLinesFour(lc: Libc, s: Subscription, i: nat, depth: nat, path: string)
    ensures |ItemLines(lc, false, EntryItem(s), i, depth, path)| == 4
  {
    hide MkLine, KeyShown, PathPush, ItemLines;
    var p := PathPush(path, Decimal(i));
    var t, q := TopicItem(s), QosItem(s);
    assert [t, q][1..] == [q] && [q][1..] == [];
    OneLine(lc, t, 0, depth + 1, p);
    OneLine(lc, q, 1, depth + 1, p);
    assert |ItemsLines(lc, true, [q], 1, depth + 1, p)| == 1;
    assert |ItemsLines(lc, true, [t, q], 0, depth + 1, p)| == 2;
    OneBracket(lc, s, i, depth, path);
  }

  lemma OneLine(lc: Libc, e: Item, i: nat, depth: nat, path: string)
    requires !e.value.Bracket?
    ensures |ItemLines(lc, true, e, i, depth, path)| == 1
  {
    hide MkLine, KeyShown, PathPush, Copied, AtomNumeric, QuotedNumeric;
  }

  lemma OneBracket(lc: Libc, s: Subscription, i: nat, depth: nat, path: string)
    ensures |ItemLines(lc, false, EntryItem(s), i, depth, path)|
         == 2 + |ItemsLines(lc, true, [TopicItem(s), QosItem(s)], 0, depth + 1, PathPush(path, Decimal(i)))|
  {
    hide MkLine, KeyShown, PathPush, ItemsLines;
  }

  // ----- what the look-ups find

  /** The lines of a stored list. */
  function StoredLines(lc: Libc, subs: seq<Subscription>): seq<Line> { Lines(lc, Tree(subs), "", 0, "") }

  lemma FormattedStored(lc: Libc, subs: seq<Subscription>)
    requires Profile(subs)
    ensures FmtValue(lc, Stored(subs), [], "", 0, "").lines == StoredLines(lc, subs)
    ensures |StoredLines(lc, subs)| == 4 * |subs| + 2 && StoredLines(lc, subs)[0].val == "["
  {
    hide FmtValue, ItemsLines, Wf, FitsDepth, Print, Stored;
    TreeWf(subs);
    TreePrints(subs);
    FourLinesEach(lc, subs, 0, 1, "");
    TextIsShown(lc, "", Tree(subs), "");
    assert "" + Stored(subs) == Stored(subs);
  }

  lemma StepsTo(subs: seq<Subscription>, i: nat, j: nat)
    requires i < |subs| <= MAX_PROFILE_SUBS && j < 2
    ensures var v, steps := Tree(subs), [i, j];
      && HasStep(v, steps)
      && At(v, steps) == (if j == 0 then TopicItem(subs[i]) else QosItem(subs[i])).value
      && PathOf(v, steps, "") == if j == 0 then TopicPath(i) else QosPath(i)
  {
    hide KeyShown, Join, TopicPath, QosPath, Decimal;
    IndexSegment(i);
    EntryKeysPlain();
    var v, e := Tree(subs), EntryItem(subs[i]);
    assert v.items[i] == e;
    assert [i, j][1..] == [j] && [j][1..] == [];
    assert HasStep(e.value, [j]);
    var item := e.value.items[j];
    assert At(e.value, [j]) == At(item.value, []) == item.value;
    JoinedPaths(i);
    assert PathOf(e.value, [j], Decimal(i)) == Join(Decimal(i), Segment(true, item, j));
  }

  lemma JoinedPaths(i: nat)
    ensures Join(Decimal(i), "topic") == TopicPath(i) && Join(Decimal(i), "qos") == QosPath(i)
  {
    hide Decimal;
  }

  lemma LookupOpens(lc: Libc, subs: seq<Subscription>, i: nat, j: nat)
    requires Profile(subs) && i < |subs| && j < 2
    ensures var l := Lookup(StoredLines(lc, subs), if j == 0 then TopicPath(i) else QosPath(i));
      && l.Some?
      && l.value.val == Lines(lc, (if j == 0 then TopicItem(subs[i]) else QosItem(subs[i])).value, "", 0, "")[0].val
      && l.value.kind == (if j == 0 then Str else Atom)
      && l.value.numeric == Lines(lc, (if j == 0 then TopicItem(subs[i]) else QosItem(subs[i])).value, "", 0, "")[0].numeric
  {
    var v, steps := Tree(subs), [i, j];
    StepsTo(subs, i, j);
    TreeUnambiguous(subs);
    OpensAt(lc, v, steps, PathOf(v, steps, ""));
  }

  lemma OpensAt(lc: Libc, v: Json, steps: seq<nat>, p: string)
    requires HasStep(v, steps) && Unambiguous(v, "") && p == PathOf(v, steps, "") && !At(v, steps).Bracket?
    ensures var l, u := Lookup(Lines(lc, v, "", 0, ""), p), Lines(lc, At(v, steps), "", 0, "")[0];
      l.Some? && l.value.val == u.val && l.value.kind == u.kind && l.value.numeric == u.numeric && u.kind == if At(v, steps).Quoted? then Str else Atom
  {
    hide Lookup, ItemsLines, Unambiguous, At, PathOf, KeyOf, Copied, AtomNumeric, QuotedNumeric;
    FindsInLines(lc, v, steps);
    var ls := Lines(lc, v, "", 0, "");
    var i: nat :| IsFirst(ls, p, i);
    LookupFound(ls, p, Some(i));
  }

  /** The topic read from the line that shows `topic`. */
  function TopicRead(topic: string): string {
    Unescape(Inner(Copied(Literal(topic), VAL_LEN)), "", TOPIC_LEN)
  }

  function Read(s: Subscription): Subscription { s.(topic := TopicRead(s.topic)) }

  lemma EntryReadBack(lc: Libc, subs: seq<Subscription>, i: nat)
    requires Profile(subs) && ReadsDecimals(lc) && i < |subs|
    ensures Present(StoredLines(lc, subs), i) && ReadEntry(lc, StoredLines(lc, subs), i) == Some(Read(subs[i]))
  {
    hide Lookup, Lines, Unescape, TopicPath, QosPath, Escaped, Decimal, AtomNumeric, Copied;
    var s, ls := subs[i], StoredLines(lc, subs);
    LookupOpens(lc, subs, i, 0);
    LookupOpens(lc, subs, i, 1);
    TopicLine(lc, s);
    QosValue(lc, s);
  }

  lemma TopicLine(lc: Libc, s: Subscription)
    ensures Lines(lc, Quoted(Escaped(s.topic)), "", 0, "")[0].val == Copied(Literal(s.topic), VAL_LEN)
  {
    hide QuotedNumeric, Escaped;
  }

  /** How the escaped text of a topic ends. */
  lemma EscapedEnd(s: string)
    requires s != ""
    ensures var e, c := Escaped(s), s[|s| - 1];
      && e != "" && (e[|e| - 1] == '\"' <==> c == '\"')
      && (c == '\\' ==> |e| >= 2 && e[|e| - 1] == '\\' && e[|e| - 2] == '\\')
  {
    var n := |s| - 1;
    assert s == s[..n] + [s[n]];
    EscapedSnoc(s[..n], s[n]);
  }

  /** A lone backslash stands for itself. */
  lemma CutInFirst(s: string, o: string, cap: nat)
    requires |o| + |s| < cap && s != "" && EscapeOf(s[0]).Some?
    ensures Unescape("\\", o, cap) == o + s <==> (|Escaped(s)| == 2 && s[|s| - 1] == '\\')
  {
    hide Escaped;
    var p := "\\";
    assert p[1..] == "";
    assert Unescape(p, o, cap) == Unescape("", o + [p[0]], cap) == o + p;
    SplitConcat(o, s);
    SplitConcat(o, p);
    EscapedHead(s);
    if s[1..] == "" { EmptyEscaped(); } else { EscapedEnd(s[1..]); }
    assert s == [s[0]] + s[1..];
  }

  lemma EscapedHead(s: string)
    requires s != "" && EscapeOf(s[0]).Some?
    ensures |Escaped(s)| == 2 + |Escaped(s[1..])|
  {
  }

  /** One character more: plain, or escaped. */
  lemma UnescapeOne(s: string, o: string, k: nat, cap: nat)
    requires s != "" && |o| < cap - 1 && k <= |Escaped(s)|
    ensures var rest, w := s[1..], if EscapeOf(s[0]).Some? then 2 else 1;
      && |Escaped(s)| == w + |Escaped(rest)|
      && (k >= w ==> Unescape(Escaped(s)[..k], o, cap) == Unescape(Escaped(rest)[..k - w], o + [s[0]], cap))
      && (k < w ==> Escaped(s)[..k] == if k == 0 then "" else "\\")
  {
    var first := if EscapeOf(s[0]).Some? then ['\\', EscapeOf(s[0]).value] else [s[0]];
    assert Escaped(s) == first + Escaped(s[1..]);
    CutFront(first, Escaped(s[1..]), k);
  }

  lemma CutFront(a: string, b: string, k: nat)
    requires k <= |a + b|
    ensures k >= |a| ==> (a + b)[..k][|a|..] == b[..k - |a|] && (a + b)[..k][..|a|] == a
    ensures k <= |a| ==> (a + b)[..k] == a[..k]
  {
  }

  /** Unescaping the beginning of an escaped text gives the text only if nothing is missing, or
      nothing but the second half of a last backslash. */
  lemma {:induction false} UnescapeCut(s: string, o: string, k: nat, cap: nat)
    requires |o| + |s| < cap && k <= |Escaped(s)|
    ensures Unescape(Escaped(s)[..k], o, cap) == o + s
      <==> k == |Escaped(s)| || (k == |Escaped(s)| - 1 && s[|s| - 1] == '\\')
    decreases |s|
  {
    hide Escaped, Unescape;
    EmptyEscaped();
    UnescapeNothing(o, cap);
    if s != "" {
      EscapedEnd(s);
      var rest, w := s[1..], if EscapeOf(s[0]).Some? then 2 else 1;
      UnescapeOne(s, o, k, cap);
      assert s == [s[0]] + rest;
      if k >= w {
        Assoc(o, [s[0]], rest);
        assert rest != "" ==> rest[|rest| - 1] == s[|s| - 1];
        UnescapeCut(rest, o + [s[0]], k - w, cap);
      } else if k == 1 {
        CutInFirst(s, o, cap);
      }
    }
  }

  lemma UnescapeNothing(o: string, cap: nat)
    requires cap > 0
    ensures Unescape("", o, cap) == o
  {
  }

  lemma TopicShown(s: Subscription)
    requires Held(s)
    ensures var e, val := Escaped(s.topic), Copied(Literal(s.topic), VAL_LEN);
      && (|e| + 2 < VAL_LEN ==> Inner(val) == e)
      && (|e| + 2 >= VAL_LEN ==> Inner(val) == e[..if e[VAL_LEN - 3] == '\"' then VAL_LEN - 3 else VAL_LEN - 2])
  {
    hide Escaped;
    EscapedClosed(s.topic);
    var literal, e := Literal(s.topic), Escaped(s.topic);
    if |literal| < VAL_LEN {
      CStrPlain(literal);
      assert Inner(literal) == e;
    } else {
      var val := literal[..VAL_LEN - 1];
      assert val == "\"" + e[..VAL_LEN - 2];
      CStrPlain(val);
      assert val[VAL_LEN - 2] == e[VAL_LEN - 3];
      assert Inner(val) == e[..if e[VAL_LEN - 3] == '\"' then VAL_LEN - 3 else VAL_LEN - 2];
    }
  }

  /** However long the literal, what is read back fits the field it is written to. */
  lemma ReadTopicFits(s: Subscription)
    requires Held(s)
    ensures |TopicRead(s.topic)| < TOPIC_LEN
  {
    hide Escaped, Unescape, Copied, Inner, KnownEscapes;
    var e := Escaped(s.topic);
    var k := if |e| + 2 < VAL_LEN then |e| else if e[VAL_LEN - 3] == '\"' then VAL_LEN - 3 else VAL_LEN - 2;
    TopicShown(s);
    assert e[..|e|] == e;
    EscapedKnown(s.topic, k);
    UnescapeFits(e[..k], "", TOPIC_LEN);
  }

  lemma TopicSurvives(s: Subscription)
    requires Held(s)
    ensures TopicRead(s.topic) == s.topic <==> Survives(s.topic)
  {
    hide Escaped, Unescape, Copied, Inner;
    var e := Escaped(s.topic);
    var k := if |e| + 2 < VAL_LEN then |e| else if e[VAL_LEN - 3] == '\"' then VAL_LEN - 3 else VAL_LEN - 2;
    TopicShown(s);
    assert e[..|e|] == e;
    UnescapeCut(s.topic, "", k, TOPIC_LEN);
    assert "" + s.topic == s.topic;
    if s.topic != "" { EscapedEnd(s.topic); }
    assert Escaped("") == "" by { EmptyEscaped(); }
  }

  lemma QosValue(lc: Libc, s: Subscription)
    requires Held(s) && ReadsDecimals(lc)
    ensures var l := Lines(lc, Scalar(Decimal(s.qos)), "", 0, "")[0];
      l.numeric && l.val == Decimal(s.qos)
    ensures lc.strtod(Decimal(s.qos)) == Some(s.qos as real) && ToByte(s.qos as real) == s.qos
  {
    var d := Decimal(s.qos);
    QosDigits(s.qos);
    CStrPlain(d);
  }

  lemma {:induction false} IndexedPaths(lc: Libc, subs: seq<Subscription>, i: nat, n: nat, depth: nat)
    requires i + |subs| <= n <= MAX_PROFILE_SUBS
    ensures forall l :: l in ItemsLines(lc, false, Items(subs), i, depth, "") ==> NextSegment(l.path) != Decimal(n)
  {
    hide ItemLines, MarkLast, Decimal, NextSegment;
    if subs != [] {
      var first := ItemLines(lc, false, EntryItem(subs[0]), i, depth, "");
      IndexedEntry(lc, subs[0], i, n, depth);
      MarkedPaths(first);
      assert Items(subs)[1..] == Items(subs[1..]);
      IndexedPaths(lc, subs[1..], i + 1, n, depth);
    }
  }

  lemma MarkedPaths(ls: seq<Line>)
    ensures forall l :: l in MarkLast(ls) ==> exists m :: m in ls && m.path == l.path
  {
    forall l | l in MarkLast(ls)
      ensures exists m :: m in ls && m.path == l.path
    {
      var k :| 0 <= k < |ls| && MarkLast(ls)[k] == l;
      assert ls[k].path == l.path;
    }
  }

  lemma IndexedEntry(lc: Libc, s: Subscription, i: nat, n: nat, depth: nat)
    requires i < n <= MAX_PROFILE_SUBS
    ensures forall l :: l in ItemLines(lc, false, EntryItem(s), i, depth, "") ==> NextSegment(l.path) != Decimal(n)
  {
    hide ItemLines, NextSegment, Decimal;
    IndexSegment(i);
    EntryUnambiguous(s, Decimal(i));
    assert ItemUnambiguous(false, EntryItem(s), i, "");
    ItemUnder(lc, false, EntryItem(s), i, depth, "");
    forall l | l in ItemLines(lc, false, EntryItem(s), i, depth, "")
      ensures NextSegment(l.path) != Decimal(n)
    {
      SegmentOf("", Decimal(i), l.path);
      assert l.path[0..] == l.path;
      if Decimal(i) == Decimal(n) { DecimalInjective(i, n); }
    }
  }

  lemma AbsentAfterLast(lc: Libc, subs: seq<Subscription>)
    requires |subs| <= MAX_PROFILE_SUBS
    ensures !Present(StoredLines(lc, subs), |subs|)
  {
    hide ItemsLines, Lookup, NextSegment, Decimal;
    var ls, p := StoredLines(lc, subs), TopicPath(|subs|);
    IndexedPaths(lc, subs, 0, |subs|, 1);
    PathSegment(|subs|);
    forall j | 0 <= j < |ls|
      ensures ls[j].path != p
    {
      assert 0 < j < |ls| - 1 ==> ls[j] == ItemsLines(lc, false, Items(subs), 0, 1, "")[j - 1];
    }
    LookupFound(ls, p, None);
  }

  lemma PathSegment(n: nat)
    ensures NextSegment(TopicPath(n)) == Decimal(n) && TopicPath(n) != ""
  {
    NextSegmentIs(Decimal(n), ".topic");
  }

  // ----- the round trip

  function AsRead(subs: seq<Subscription>): (r: seq<Subscription>)
    ensures |r| == |subs| && forall i :: 0 <= i < |r| ==> r[i] == Read(subs[i])
  {
    seq(|subs|, i requires 0 <= i < |subs| => Read(subs[i]))
  }

  lemma {:induction false} CollectedBack(lc: Libc, subs: seq<Subscription>, n: nat)
    requires Profile(subs) && ReadsDecimals(lc) && n <= |subs|
    ensures Collected(lc, StoredLines(lc, subs), n) == AsRead(subs[..n])
  {
    hide ReadEntry, StoredLines, Profile, ReadsDecimals, Read;
    if n > 0 {
      CollectedBack(lc, subs, n - 1);
      EntryReadBack(lc, subs, n - 1);
      assert AsRead(subs[..n]) == AsRead(subs[..n - 1]) + [Read(subs[n - 1])];
    }
  }

  /** Whatever the parser may return for a stored list holds every topic as it reads back. */
  lemma StoredReadsBack(lc: Libc, subs: seq<Subscription>, n: nat)
    requires Profile(subs) && ReadsDecimals(lc)
    requires StopsAt(lc, StoredLines(lc, subs), n)
    ensures Collected(lc, StoredLines(lc, subs), n) == AsRead(subs)
  {
    hide Present, Collected, StoredLines, Read;
    AbsentAfterLast(lc, subs);
    if n < |subs| {
      CollectedBack(lc, subs, n);
      EntryReadBack(lc, subs, n);
    }
    CollectedBack(lc, subs, |subs|);
    assert subs[..|subs|] == subs;
  }

  /** The list reads back unchanged exactly when every topic survives. */
  lemma UnchangedIffSurviving(subs: seq<Subscription>)
    requires Profile(subs)
    ensures AsRead(subs) == subs <==> forall i :: 0 <= i < |subs| ==> Survives(subs[i].topic)
  {
    hide TopicRead, Survives;
    forall i | 0 <= i < |subs|
      ensures Read(subs[i]) == subs[i] <==> Survives(subs[i].topic)
    {
      TopicSurvives(subs[i]);
    }
    if forall i :: 0 <= i < |subs| ==> Survives(subs[i].topic) {
      assert AsRead(subs) == subs;
    } else {
      var i :| 0 <= i < |subs| && !Survives(subs[i].topic);
      assert AsRead(subs)[i] != subs[i];
    }
  }

  /** Any topic of up to 134 characters survives, whatever has to be escaped. */
  lemma ShortTopicsSurvive(topic: string)
    requires '\0' !in topic && |topic| <= 134
    ensures Survives(topic)
  {
    EscapedClosed(topic);
  }

  lemma {:induction false} NoNulEntries(subs: seq<Subscription>)
    requires forall i :: 0 <= i < |subs| ==> Held(subs[i])
    ensures '\0' !in Entries(subs)
  {
    hide Entry;
    if subs != [] {
      NoNulEntries(subs[..|subs| - 1]);
      NoNulEntry(subs[|subs| - 1]);
    }
  }

  lemma NoNulEntry(s: Subscription)
    requires Held(s)
    ensures '\0' !in Entry(s)
  {
    EscapedClosed(s.topic);
  }

  /** strlen sees the whole stored text. */
  lemma NoNulStored(subs: seq<Subscription>)
    requires forall i :: 0 <= i < |subs| ==> Held(subs[i])
    ensures CStr(Stored(subs)) == Stored(subs)
  {
    NoNulEntries(subs);
    CStrPlain(Stored(subs));
  }

  /** db_save_profile's text given to db_load_profiles: the list comes back unchanged exactly
      when every topic survives. */
  method SaveAndLoad(lc: Libc, subs: seq<Subscription>) returns (r: Option<seq<Subscription>>)
    requires Profile(subs) && ReadsDecimals(lc)
    ensures r == Some(AsRead(subs)) && forall i :: 0 <= i < |subs| ==> |AsRead(subs)[i].topic| < TOPIC_LEN
    ensures r == Some(subs) <==> forall i :: 0 <= i < |subs| ==> Survives(subs[i].topic)
  {
    hide FmtValue, StoredLines, StopsAt, Collected, ReadsDecimals, Read, Survives;
    var text := Serialize(subs);
    var pp := new LineTable();
    NoNulStored(subs);
    CapacitySmall(subs);
    var end := JsonFormatter.RunLen(pp, CStr(text), lc);
    r := Deserialize(lc, pp.lines);
    FormattedStored(lc, subs);
    ghost var n: nat :| StopsAt(lc, pp.lines, n) && r.value == Collected(lc, pp.lines, n);
    StoredReadsBack(lc, subs, n);
    UnchangedIffSurviving(subs);
    AllFit(subs);
  }

  lemma AllFit(subs: seq<Subscription>)
    requires Profile(subs)
    ensures forall i :: 0 <= i < |subs| ==> |AsRead(subs)[i].topic| < TOPIC_LEN
  {
    hide TopicRead;
    forall i | 0 <= i < |subs|
      ensures |AsRead(subs)[i].topic| < TOPIC_LEN
    {
      ReadTopicFits(subs[i]);
    }
  }

  lemma CapacitySmall(subs: seq<Subscription>)
    requires Profile(subs)
    ensures Capacity(|subs|) <= JsonFormatter.INT32_MAX
  {
  }
}
