/** The subscription list of a broker profile as stored in the database: the printer and the
    parser of src/platform/db.c, and the proof that the parser undoes the printer. */
module Subscriptions {
  import opened Text
  import opened LineModel
  import opened JsonScan
  import opened JsonRender
  import JsonFind
  import Notation

  const TOPIC_LEN := 256
  const MAX_PROFILE_SUBS := 16

  datatype Subscription = Subscription(topic: string, qos: nat)

  /** What the C struct can hold: a NUL-terminated topic of 256 bytes and a uint8_t. */
  predicate Held(s: Subscription) {
    '\0' !in s.topic && |s.topic| < 256 && s.qos < 256
  }

  // ----- string literals

  /** The letter after the backslash, for the characters the printer escapes. */
  function EscapeOf(c: char): Option<char> {
    if c == '\"' || c == '\\' then Some(c)
    else if c == '\n' then Some('n')
    else if c == '\r' then Some('r')
    else if c == '\t' then Some('t')
    else None
  }

  function Escaped(s: string): string {
    if s == "" then ""
    else (if EscapeOf(s[0]).Some? then ['\\', EscapeOf(s[0]).value] else [s[0]]) + Escaped(s[1..])
  }

  function Literal(s: string): string { "\"" + (Escaped(s) + "\"") }

  /** The character an escape letter stands for, when json_pp_line_string knows it. */
  function Unescaped(e: char): Option<char> {
    if e == 'n' then Some('\n')
    else if e == 'r' then Some('\r')
    else if e == 't' then Some('\t')
    else if e == '\"' || e == '\\' || e == '/' then Some(e)
    else None
  }

  /** The loop of json_pp_line_string from input `p` with `o` already written. */
  function Unescape(p: string, o: string, cap: nat): string
    requires cap > 0
    decreases |p|
  {
    if p == "" || |o| >= cap - 1 then o
    else if p[0] == '\\' && |p| > 1 then
      var known := Unescaped(p[1]);
      if known.Some? then Unescape(p[2..], o + [known.value], cap)
      else Unescape(p[2..], o + ['\\', if |o| + 1 >= cap - 1 then '\\' else p[1]], cap)
    else Unescape(p[1..], o + [p[0]], cap)
  }

  /** What lies between the quotes of a stored string value. */
  function Inner(val: string): string {
    if val == "" then "" else val[1..if |val| >= 2 && val[|val| - 1] == '\"' then |val| - 1 else |val|]
  }

  /** json_pp_line_string. */
  method LineString(line: Line, cap: nat) returns (r: Option<string>)
    ensures r == if cap == 0 || line.kind != Str then None else Some(Unescape(Inner(line.val), "", cap))
  {
    if cap == 0 || line.kind != Str { return None; }
    var p, i, o := Inner(line.val), 0, "";
    while i < |p| && |o| < cap - 1
      invariant i <= |p| && Unescape(p[i..], o, cap) == Unescape(Inner(line.val), "", cap)
      decreases |p| - i
    {
      var ch := p[i];
      i := i + 1;
      assert p[i - 1..][1..] == p[i..];
      if ch == '\\' && i < |p| {
        var e := p[i];
        i := i + 1;
        assert p[i - 2..][2..] == p[i..];
        var known := Unescaped(e);
        if known.Some? {
          o := o + [known.value];
        } else {
          var last := if |o| + 1 >= cap - 1 then '\\' else e;
          o := o + ['\\', last];
        }
      } else {
        o := o + [ch];
      }
    }
    r := Some(o);
  }

  /** Every backslash but a last lone one is followed by a letter the parser knows. */
  predicate KnownEscapes(p: string)
    decreases |p|
  {
    if p == "" then true
    else if p[0] == '\\' && |p| > 1 then Unescaped(p[1]).Some? && KnownEscapes(p[2..])
    else KnownEscapes(p[1..])
  }

  /** The result and its NUL fit the buffer when all escapes are known, or when the buffer is
      as large as the text. */
  lemma {:induction false} UnescapeFits(p: string, o: string, cap: nat)
    requires |o| < cap && (KnownEscapes(p) || |o| + |p| < cap)
    ensures |Unescape(p, o, cap)| < cap
    decreases |p|
  {
    if p == "" || |o| >= cap - 1 {
    } else if p[0] == '\\' && |p| > 1 {
      var known := Unescaped(p[1]);
      if known.Some? {
        UnescapeFits(p[2..], o + [known.value], cap);
      } else {
        UnescapeFits(p[2..], o + ['\\', if |o| + 1 >= cap - 1 then '\\' else p[1]], cap);
      }
    } else {
      UnescapeFits(p[1..], o + [p[0]], cap);
    }
  }

  /** An unknown escape has a buffer it does not fit: two characters go where one is left. */
  lemma {:induction false} UnknownOverruns(p: string, o: string) returns (cap: nat)
    requires !KnownEscapes(p)
    ensures |o| + 2 <= cap && |Unescape(p, o, cap)| >= cap
    decreases |p|
  {
    if p[0] == '\\' && |p| > 1 {
      var known := Unescaped(p[1]);
      if known.Some? {
        cap := UnknownOverruns(p[2..], o + [known.value]);
      } else {
        cap := |o| + 2;
        assert |o + ['\\', '\\']| == cap;
      }
    } else {
      cap := UnknownOverruns(p[1..], o + [p[0]]);
    }
  }

  /** A text fits every buffer exactly when it has no unknown escape. */
  lemma FitsIffKnown(p: string)
    ensures (forall cap: nat :: cap > 0 ==> |Unescape(p, "", cap)| < cap) <==> KnownEscapes(p)
  {
    if KnownEscapes(p) {
      forall cap: nat | cap > 0
        ensures |Unescape(p, "", cap)| < cap
      {
        UnescapeFits(p, "", cap);
      }
    } else {
      var cap := UnknownOverruns(p, "");
      assert |Unescape(p, "", cap)| >= cap;
    }
  }

  /** What the printer writes has only known escapes, wherever it is cut. */
  lemma {:induction false} EscapedKnown(s: string, k: nat)
    requires k <= |Escaped(s)|
    ensures KnownEscapes(Escaped(s)[..k])
    decreases |s|
  {
    if s != "" && k > 0 {
      var p := Escaped(s);
      if EscapeOf(s[0]).None? {
        assert p[..k][1..] == Escaped(s[1..])[..k - 1];
        EscapedKnown(s[1..], k - 1);
      } else if k == 1 {
        assert p[..k][1..] == "";
      } else {
        assert p[..k][2..] == Escaped(s[1..])[..k - 2];
        EscapedKnown(s[1..], k - 2);
      }
    }
  }

  /** The escapes are those of section 7 of RFC 8259: read by it, the literal is the text. */
  lemma {:induction false} EscapedReads(s: string)
    ensures Notation.ReadChars(Escaped(s)) == Some(s)
  {
    if s != "" {
      EscapedReads(s[1..]);
      var p := Escaped(s);
      if EscapeOf(s[0]).Some? {
        assert p[2..] == Escaped(s[1..]) && p[0] == '\\' && p[1] == EscapeOf(s[0]).value;
        assert Notation.Named(p[1]) == Some(s[0]);
      } else {
        assert p[1..] == Escaped(s[1..]) && p[0] == s[0];
      }
      assert s == [s[0]] + s[1..];
    }
  }

  lemma {:induction false} EscapeUndone(s: string, o: string, cap: nat)
    requires |o| + |s| < cap
    ensures Unescape(Escaped(s), o, cap) == o + s
  {
    if s == "" {
      assert o + s == o;
    } else {
      var e := EscapeOf(s[0]);
      var p := Escaped(s);
      if e.Some? {
        assert p[2..] == Escaped(s[1..]);
      } else {
        assert p[1..] == Escaped(s[1..]);
      }
      EscapeUndone(s[1..], o + [s[0]], cap);
      assert o + [s[0]] + s[1..] == o + s;
    }
  }

  lemma {:induction false} EscapedClosed(s: string)
    requires '\0' !in s
    ensures Closed(Escaped(s)) && '\0' !in Escaped(s) && |Escaped(s)| <= 2 * |s|
  {
    if s != "" {
      EscapedClosed(s[1..]);
      var p := Escaped(s);
      if EscapeOf(s[0]).Some? {
        assert p[2..] == Escaped(s[1..]);
      } else {
        assert p[1..] == Escaped(s[1..]);
      }
    }
  }

  // ----- the printer

  function Entry(s: Subscription): string {
    "{\"topic\":" + (Literal(s.topic) + (",\"qos\":" + (Decimal(s.qos) + "}")))
  }

  function Entries(subs: seq<Subscription>): string {
    if subs == [] then ""
    else Entries(subs[..|subs| - 1]) + (if |subs| > 1 then "," else "") + Entry(subs[|subs| - 1])
  }

  /** The stored text of a list. */
  function Stored(subs: seq<Subscription>): string { "[" + Entries(subs) + "]" }

  /** append_json_string into a buffer of `cap` bytes holding `out`: the literal of as much of
      `src` as fits, never cut inside an escape, always closed. */
  method AppendJsonString(out: string, cap: nat, src: string) returns (r: string)
    requires '\0' !in src
    ensures |out| + 1 >= cap ==> r == if |out| < cap then out + "\"" else out
    ensures |out| + 1 < cap ==> |r| <= cap && exists k :: CutLiteral(out, cap, src, r, k)
    ensures |out| + 2 * |src| + 2 < cap ==> r == out + Literal(src)
  {
    hide Escaped;
    r := out;
    if |r| < cap { r := r + "\""; }
    var i := 0;
    EmptyEscaped();
    assert src[..0] == "";
    while i < |src| && |r| + 2 < cap
      invariant i <= |src|
      invariant |out| + 1 >= cap ==> i == 0 && r == if |out| < cap then out + "\"" else out
      invariant |out| + 1 < cap ==> |r| < cap && r == (out + "\"") + Escaped(src[..i])
    {
      var esc := EscapeOf(src[i]);
      SliceStep(src, 0, i);
      EscapedSnoc(src[..i], src[i]);
      Assoc(out + "\"", Escaped(src[..i]), if esc.Some? then ['\\', esc.value] else [src[i]]);
      if esc.Some? {
        r := r + ['\\', esc.value];
      } else {
        r := r + [src[i]];
      }
      i := i + 1;
    }
    Assoc(out + "\"", Escaped(src[..i]), "\"");
    Assoc(out, "\"", Escaped(src[..i]) + "\"");
    if |r| < cap { r := r + "\""; }
    if |out| + 1 < cap {
      assert CutLiteral(out, cap, src, r, i);
      WholeLiteral(out, cap, src, r, i);
    }
  }

  /** r is out with the literal of the first k characters, and k + 1 would not fit. */
  predicate CutLiteral(out: string, cap: nat, src: string, r: string, k: int) {
    0 <= k <= |src| && r == out + Literal(src[..k]) && (k < |src| ==> |r| + 1 >= cap)
  }

  lemma WholeLiteral(out: string, cap: nat, src: string, r: string, k: nat)
    requires CutLiteral(out, cap, src, r, k) && '\0' !in src
    ensures |out| + 2 * |src| + 2 < cap ==> r == out + Literal(src)
  {
    if k < |src| {
      assert forall c :: c in src[..k] ==> c in src;
      EscapedClosed(src[..k]);
    } else {
      assert src[..k] == src;
    }
  }

  lemma EmptyEscaped()
    ensures Escaped("") == ""
  {
  }

  lemma {:induction false} EscapedConcat(a: string, b: string)
    ensures Escaped(a + b) == Escaped(a) + Escaped(b)
  {
    if a == "" {
      assert a + b == b;
    } else {
      assert (a + b)[1..] == a[1..] + b;
      EscapedConcat(a[1..], b);
      Assoc(if EscapeOf(a[0]).Some? then ['\\', EscapeOf(a[0]).value] else [a[0]], Escaped(a[1..]), Escaped(b));
    }
  }

  lemma EscapedSnoc(s: string, c: char)
    ensures Escaped(s + [c]) == Escaped(s) + if EscapeOf(c).Some? then ['\\', EscapeOf(c).value] else [c]
  {
    EscapedConcat(s, [c]);
    assert [c][1..] == "" && Escaped("") == "";
  }

  /** snprintf at the end of a buffer of `cap` bytes: what fits, less one for the NUL. */
  function Printed(out: string, cap: nat, text: string): string
    requires |out| < cap
  {
    out + Clip(text, cap - |out|)
  }

  /** The capacity serialize_subscriptions computes. */
  function Capacity(n: nat): nat { 4 + n * (2 * TOPIC_LEN + 32) }

  /** serialize_subscriptions: nothing is ever cut off, whatever the profile holds. */
  method Serialize(subs: seq<Subscription>) returns (out: string)
    requires forall i :: 0 <= i < |subs| ==> Held(subs[i])
    ensures out == Stored(subs) && |out| < Capacity(|subs|)
  {
    hide Entry, Entries;
    var cap := Capacity(|subs|);
    out := "[";
    EmptyEntries();
    var i := 0;
    while i < |subs|
      invariant i <= |subs| && out == "[" + Entries(subs[..i]) && |out| + 3 <= Capacity(i)
    {
      var s := subs[i];
      assert Capacity(i + 1) <= cap;
      ghost var before := out;
      out := SerializeOne(out, cap, i, s);
      assert subs[..i + 1][..i] == subs[..i];
      EntryAppended(before, i, subs[..i + 1]);
      i := i + 1;
    }
    assert subs[..i] == subs && subs[..0] == [];
    if |out| < cap { out := out + "]"; }
    // The terminating NUL goes to position |out|, inside the buffer.
  }

  lemma EmptyEntries()
    ensures "[" + Entries([]) == "["
  {
  }

  lemma EntryAppended(before: string, i: nat, subs: seq<Subscription>)
    requires |subs| == i + 1 && before == "[" + Entries(subs[..i])
    ensures before + ((if i > 0 then "," else "") + Entry(subs[i])) == "[" + Entries(subs)
  {
    hide Entry;
    var comma := if i > 0 then "," else "";
    Assoc(before, comma, Entry(subs[i]));
    Assoc("[", Entries(subs[..i]), comma);
    Assoc("[", Entries(subs[..i]) + comma, Entry(subs[i]));
  }

  /** The body of its loop. */
  method SerializeOne(out: string, cap: nat, i: nat, s: Subscription) returns (r: string)
    requires Held(s) && |out| + 544 < cap
    ensures r == out + ((if i > 0 then "," else "") + Entry(s)) && |r| <= |out| + 544
  {
    hide Escaped, Decimal;
    EscapedClosed(s.topic);
    QosDigits(s.qos);
    r := out;
    if i > 0 && |r| < cap { r := r + ","; }
    var open, qos := "{\"topic\":", ",\"qos\":" + (Decimal(s.qos) + "}");
    r := Printed(r, cap, open);
    r := AppendJsonString(r, cap, s.topic);
    r := Printed(r, cap, qos);
    Chained(out, if i > 0 then "," else "", open, Literal(s.topic), qos);
  }

  lemma Chained(out: string, a: string, b: string, c: string, d: string)
    ensures ((out + a) + b) + c + d == out + (a + (b + (c + d)))
    ensures out + "" == out
  {
    Assoc((out + a) + b, c, d);
    Assoc(out + a, b, c + d);
    Assoc(out, a, b + (c + d));
  }

  lemma QosDigits(q: nat)
    requires q < 256
    ensures |Decimal(q)| <= 3
  {
    assert Pow10(3) == 1000;
    DecimalLength(q, 3);
  }

  // ----- the parser

  function TopicPath(i: nat): string { Decimal(i) + ".topic" }

  function QosPath(i: nat): string { Decimal(i) + ".qos" }

  function Lookup(ls: seq<Line>, p: string): Option<Line> {
    if ls == [] then None else if ls[0].path == p then Some(ls[0]) else Lookup(ls[1..], p)
  }

  /** json_pp_line_number, for a line that json_pp_find may not have found. */
  function LineNumber(lc: Libc, line: Option<Line>): Option<real> {
    if line.None? || !line.value.numeric then None
    else lc.strtod(if line.value.kind == Str then Unescape(Inner(line.value.val), "", VAL_LEN) else line.value.val)
  }

  /** (uint8_t)q; outside its range the C conversion has no defined value. */
  function ToByte(q: real): nat {
    if 0.0 <= q < 256.0 then q.Floor else 0
  }

  /** Entry `i` of the parsed list, when its topic is a string. */
  function ReadEntry(lc: Libc, ls: seq<Line>, i: nat): Option<Subscription> {
    match Lookup(ls, TopicPath(i))
    case None => None
    case Some(topic) =>
      if topic.kind != Str then None
      else
        var q := LineNumber(lc, Lookup(ls, QosPath(i)));
        Some(Subscription(Unescape(Inner(topic.val), "", TOPIC_LEN), if q.Some? then ToByte(q.value) else 0))
  }

  /** The first `n` entries, those without a string topic left out. */
  function Collected(lc: Libc, ls: seq<Line>, n: nat): seq<Subscription> {
    if n == 0 then []
    else
      var e := ReadEntry(lc, ls, n - 1);
      Collected(lc, ls, n - 1) + if e.Some? then [e.value] else []
  }

  predicate Present(ls: seq<Line>, i: nat) { Lookup(ls, TopicPath(i)).Some? }

  /** Where the parser stops: at the first missing topic, or with a full profile. */
  predicate StopsAt(lc: Libc, ls: seq<Line>, n: nat) {
    && (forall k :: 0 <= k < n ==> Present(ls, k))
    && (forall k :: 0 <= k < n ==> |Collected(lc, ls, k)| < MAX_PROFILE_SUBS)
    && (!Present(ls, n) || |Collected(lc, ls, n)| == MAX_PROFILE_SUBS)
  }

  /** A dot path that names the topic of entry `i` or a later one. */
  ghost predicate TopicFrom(p: string, i: nat) { exists k: nat :: k >= i && p == TopicPath(k) }

  /** deserialize_subscriptions on the formatted lines; None leaves the profile alone. */
  method Deserialize(lc: Libc, ls: seq<Line>) returns (r: Option<seq<Subscription>>)
    ensures r.None? <==> ls == [] || ls[0].val == "" || ls[0].val[0] != '['
    ensures r.Some? ==> exists n: nat :: StopsAt(lc, ls, n) && r.value == Collected(lc, ls, n)
  {
    if |ls| == 0 || ls[0].val == "" || ls[0].val[0] != '[' { return None; }
    hide Collected, Present, TopicLines, StopsAt;
    var i, subs := 0, [];
    CollectedNone(lc, ls);
    while |subs| < MAX_PROFILE_SUBS
      invariant subs == Collected(lc, ls, i) && |subs| <= MAX_PROFILE_SUBS
      invariant forall k :: 0 <= k < i ==> Present(ls, k) && |Collected(lc, ls, k)| < MAX_PROFILE_SUBS
      decreases TopicLines(ls, i)
    {
      var stop, entry := ReadNext(lc, ls, i);
      if stop { break; }
      subs := subs + if entry.Some? then [entry.value] else [];
      i := i + 1;
    }
    StopsHere(lc, ls, i);
    r := Some(subs);
  }

  /** The body of that loop: no more topics, or the next entry. */
  method ReadNext(lc: Libc, ls: seq<Line>, i: nat) returns (stop: bool, entry: Option<Subscription>)
    ensures stop == !Present(ls, i)
    ensures !stop ==>
      && Collected(lc, ls, i + 1) == Collected(lc, ls, i) + (if entry.Some? then [entry.value] else [])
      && TopicLines(ls, i + 1) < TopicLines(ls, i)
  {
    hide Collected, ReadEntry, Lookup, TopicPath, QosPath, LineNumber, Unescape, TopicLines, JsonFind.IsFirst;
    entry := None;
    var topic := JsonFind.Find(ls, TopicPath(i));
    LookupFound(ls, TopicPath(i), topic);
    if topic.None? { return true, entry; }
    var qos := JsonFind.Find(ls, QosPath(i));
    LookupFound(ls, QosPath(i), qos);
    FindInRange(ls, TopicPath(i), topic.value);
    if qos.Some? { FindInRange(ls, QosPath(i), qos.value); }
    CollectedStep(lc, ls, i, ls[topic.value]);
    FewerTopics(ls, i, topic.value);
    var text := LineString(ls[topic.value], TOPIC_LEN);
    if text.Some? {
      var q := LineNumber(lc, if qos.Some? then Some(ls[qos.value]) else None);
      entry := Some(Subscription(text.value, if q.Some? then ToByte(q.value) else 0));
    }
    stop := false;
  }

  lemma StopsHere(lc: Libc, ls: seq<Line>, n: nat)
    requires forall k :: 0 <= k < n ==> Present(ls, k) && |Collected(lc, ls, k)| < MAX_PROFILE_SUBS
    requires !Present(ls, n) || |Collected(lc, ls, n)| == MAX_PROFILE_SUBS
    ensures StopsAt(lc, ls, n)
  {
    hide Present, Collected;
  }

  lemma CollectedNone(lc: Libc, ls: seq<Line>)
    ensures Collected(lc, ls, 0) == []
  {
  }

  lemma CollectedStep(lc: Libc, ls: seq<Line>, i: nat, topic: Line)
    requires Lookup(ls, TopicPath(i)) == Some(topic)
    ensures var q := LineNumber(lc, Lookup(ls, QosPath(i)));
      Collected(lc, ls, i + 1) == Collected(lc, ls, i)
        + if topic.kind == Str
          then [Subscription(Unescape(Inner(topic.val), "", TOPIC_LEN), if q.Some? then ToByte(q.value) else 0)] else []
  {
    hide Lookup, LineNumber, Unescape, TopicPath, QosPath;
  }

  lemma FindInRange(ls: seq<Line>, p: string, i: nat)
    requires JsonFind.IsFirst(ls, p, i)
    ensures i < |ls| && ls[i].path == p
  {
  }

  lemma {:induction false} LookupFound(ls: seq<Line>, p: string, r: Option<nat>)
    requires r.Some? ==> JsonFind.IsFirst(ls, p, r.value)
    requires r.None? ==> forall j :: 0 <= j < |ls| ==> ls[j].path != p
    ensures Lookup(ls, p) == if r.Some? then Some(ls[r.value]) else None
  {
    if ls != [] && ls[0].path != p {
      LookupFound(ls[1..], p, if r.Some? then Some(r.value - 1) else None);
    }
  }

  ghost function TopicLines(ls: seq<Line>, i: nat): set<nat> {
    set j: nat | j < |ls| && TopicFrom(ls[j].path, i)
  }

  lemma FewerTopics(ls: seq<Line>, i: nat, at: nat)
    requires at < |ls| && ls[at].path == TopicPath(i)
    ensures TopicLines(ls, i + 1) < TopicLines(ls, i)
  {
    hide TopicPath;
    assert TopicFrom(ls[at].path, i);
    if TopicFrom(ls[at].path, i + 1) {
      var k: nat :| k >= i + 1 && ls[at].path == TopicPath(k);
      TopicPathInjective(i, k);
      assert false;
    }
    assert at in TopicLines(ls, i);
  }

  lemma TopicPathInjective(i: nat, k: nat)
    ensures TopicPath(i) == TopicPath(k) ==> i == k
  {
    if TopicPath(i) == TopicPath(k) {
      SplitConcat(Decimal(i), ".topic");
      SplitConcat(Decimal(k), ".topic");
      assert |Decimal(i)| == |TopicPath(i)| - 6 == |Decimal(k)|;
      DecimalInjective(i, k);
    }
  }
}
