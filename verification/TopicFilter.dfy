/** mqtt_topic_matches of src/model/subscription.c against the level-by-level rules of
    section 4.7 of MQTT 3.1.1. */
module TopicFilter {
  import opened Text

  // ----- the rules

  /** Characters before the first '/', or all of them. */
  function LevelLen(s: string): (n: nat)
    ensures n <= |s| && (n < |s| ==> s[n] == '/') && forall i :: 0 <= i < n ==> s[i] != '/'
  {
    if s == "" || s[0] == '/' then 0 else 1 + LevelLen(s[1..])
  }

  /** The levels of a filter or topic; never none. */
  function Levels(s: string): (r: seq<string>)
    ensures |r| > 0
    decreases |s|
  {
    var n := LevelLen(s);
    if n == |s| then [s] else [s[..n]] + Levels(s[n + 1..])
  }

  predicate Plain(s: string) { '#' !in s && '+' !in s }

  /** A wildcard fills its level, and '#' is the last level (sections 4.7.1.2 and 4.7.1.3). */
  predicate ValidLevels(fl: seq<string>) {
    forall i :: 0 <= i < |fl| ==> Plain(fl[i]) || fl[i] == "+" || (fl[i] == "#" && i == |fl| - 1)
  }

  predicate ValidFilter(f: string) { f != "" && ValidLevels(Levels(f)) }

  /** A topic name holds at least one character and no wildcards (sections 4.7.1 and 4.7.3). */
  predicate ValidTopic(t: string) { t != "" && Plain(t) }

  /** '#' stands for any levels, none included; '+' for exactly one. */
  predicate LevelsMatch(fl: seq<string>, tl: seq<string>) {
    if fl == [] then tl == []
    else if fl[0] == "#" then true
    else tl != [] && (fl[0] == "+" || fl[0] == tl[0]) && LevelsMatch(fl[1..], tl[1..])
  }

  /** Section 4.7.2: a leading wildcard does not match a topic that starts with '$'. */
  predicate HiddenTopic(f: string, t: string) {
    f != "" && t != "" && t[0] == '$' && (f[0] == '#' || f[0] == '+')
  }

  predicate StandardMatch(f: string, t: string) {
    LevelsMatch(Levels(f), Levels(t)) && !HiddenTopic(f, t)
  }

  /** The two shapes the loop does not recognise: the topic's last level meets a '+' and is
      empty, or only '#' is left of the filter after that '+'. */
  predicate Overlooked(fl: seq<string>, tl: seq<string>) {
    0 < |tl| <= |fl| && fl[|tl| - 1] == "+" && (tl[|tl| - 1] == "" || |fl| > |tl|)
  }

  // ----- the code

  /** The loop from cursors at `f` and `t`; `guard` holds at the very start for a '$' topic. */
  predicate Walk(f: string, t: string, guard: bool)
    decreases |f|
  {
    if f == "" || t == "" then
      (t == "" && f == "/#") || (f != "" && f[0] == '#') || (f == "" && t == "")
    else if f[0] == '#' then !guard
    else if f[0] == '+' then
      !guard && AfterPlus(f[1..], t[LevelLen(t)..])
    else f[0] == t[0] && Walk(f[1..], t[1..], false)
  }

  /** Both cursors past the level a '+' took. */
  predicate AfterPlus(f: string, t: string)
    decreases |f|
  {
    if f != "" && f[0] == '/' && t != "" && t[0] == '/' then Walk(f[1..], t[1..], false) else f == "" && t == ""
  }

  /** mqtt_topic_matches. */
  method TopicMatches(filter: string, topic: string) returns (r: bool)
    ensures r == Walk(filter, topic, topic != "" && topic[0] == '$')
  {
    hide Walk, AfterPlus;
    var dollar := topic != "" && topic[0] == '$';
    var f: nat, t: nat := 0, 0;
    assert filter[0..] == filter && topic[0..] == topic;
    while f < |filter| && t < |topic|
      invariant f <= |filter| && t <= |topic|
      invariant Walk(filter[f..], topic[t..], dollar && f == 0) == Walk(filter, topic, dollar)
      decreases |filter| - f
    {
      WalkStep(filter, f, topic, t, dollar && f == 0);
      if filter[f] == '#' {
        return !(dollar && f == 0);
      }
      if filter[f] == '+' {
        if dollar && f == 0 { return false; }
        t := SkipLevel(topic, t);
        f := f + 1;
        PlusStep(filter, f, topic, t);
        if f < |filter| && filter[f] == '/' && t < |topic| && topic[t] == '/' {
          f := f + 1;
          t := t + 1;
        } else {
          return f == |filter| && t == |topic|;
        }
        continue;
      }
      if filter[f] != topic[t] { return false; }
      f := f + 1;
      t := t + 1;
    }
    WalkEnd(filter, f, topic, t, dollar && f == 0);
    if t == |topic| && |filter| - f == 2 && filter[f] == '/' && filter[f + 1] == '#' { return true; }
    if f < |filter| && filter[f] == '#' { return true; }
    r := f == |filter| && t == |topic|;
  }

  lemma WalkStep(filter: string, f: nat, topic: string, t: nat, guard: bool)
    requires f < |filter| && t < |topic|
    ensures Walk(filter[f..], topic[t..], guard) ==
      if filter[f] == '#' then !guard
      else if filter[f] == '+' then !guard && AfterPlus(filter[f + 1..], topic[t + LevelLen(topic[t..])..])
      else filter[f] == topic[t] && Walk(filter[f + 1..], topic[t + 1..], false)
  {
    SliceSplit(filter, f, 1);
    SliceSplit(topic, t, 1);
    SliceSplit(topic, t, LevelLen(topic[t..]));
  }

  lemma PlusStep(filter: string, f: nat, topic: string, t: nat)
    requires f <= |filter| && t <= |topic|
    ensures AfterPlus(filter[f..], topic[t..]) ==
      if f < |filter| && filter[f] == '/' && t < |topic| && topic[t] == '/' then Walk(filter[f + 1..], topic[t + 1..], false)
      else f == |filter| && t == |topic|
  {
    hide Walk;
    if f < |filter| { SliceSplit(filter, f, 1); }
    if t < |topic| { SliceSplit(topic, t, 1); }
  }

  lemma WalkEnd(filter: string, f: nat, topic: string, t: nat, guard: bool)
    requires f <= |filter| && t <= |topic| && (f == |filter| || t == |topic|)
    ensures Walk(filter[f..], topic[t..], guard) ==
      ((t == |topic| && |filter| - f == 2 && filter[f] == '/' && filter[f + 1] == '#')
      || (f < |filter| && filter[f] == '#')
      || (f == |filter| && t == |topic|))
  {
    assert filter[f..] == "/#" <==> |filter| - f == 2 && filter[f] == '/' && filter[f + 1] == '#';
  }

  /** The inner loop. */
  method SkipLevel(topic: string, t: nat) returns (r: nat)
    requires t <= |topic|
    ensures r == t + LevelLen(topic[t..])
  {
    r := t;
    while r < |topic| && topic[r] != '/'
      invariant t <= r <= |topic| && r + LevelLen(topic[r..]) == t + LevelLen(topic[t..])
    {
      assert topic[r..][1..] == topic[r + 1..];
      r := r + 1;
    }
  }

  // ----- the code against the rules

  /** An end of string or of level. */
  predicate Ends(s: string) { s == "" || s[0] == '/' }

  lemma {:induction false} LevelLenIs(a: string, r: string)
    requires '/' !in a && Ends(r)
    ensures LevelLen(a + r) == |a|
  {
    if a == "" {
      assert a + r == r;
    } else {
      assert (a + r)[1..] == a[1..] + r;
      LevelLenIs(a[1..], r);
    }
  }

  lemma LevelsSplit(a: string, r: string)
    requires '/' !in a && Ends(r)
    ensures LevelLen(a + r) == |a|
    ensures Levels(a + r) == [a] + if r == "" then [] else Levels(r[1..])
  {
    LevelLenIs(a, r);
    SplitConcat(a, r);
    if r == "" {
      assert a + r == a;
    } else {
      assert (a + r)[|a| + 1..] == r[1..];
    }
  }

  lemma LevelsHead(s: string)
    ensures var n := LevelLen(s); '/' !in s[..n] && Ends(s[n..]) && s == s[..n] + s[n..]
  {
  }

  /** A level without wildcards must be equal in both, and then the rests decide. */
  lemma {:induction false} LiteralLevel(a: string, b: string, fr: string, tr: string, guard: bool)
    requires Plain(a) && '/' !in a && '/' !in b && Ends(fr) && Ends(tr)
    requires a != "" || !guard || b == ""
    ensures a == b && a != "" ==> Walk(a + fr, b + tr, guard) == Walk(fr, tr, false)
    ensures a != b ==> !Walk(a + fr, b + tr, guard)
    decreases |a|
  {
    var f, t := a + fr, b + tr;
    if a == "" {
      assert f == fr;
      if b != "" { assert t[0] == b[0]; }
    } else if b == "" {
      assert t == tr && f[0] == a[0];
    } else {
      assert f[0] == a[0] && t[0] == b[0] && f[1..] == a[1..] + fr && t[1..] == b[1..] + tr;
      if a[0] == b[0] {
        LiteralLevel(a[1..], b[1..], fr, tr, false);
        if a[1..] == "" { assert a[1..] + fr == fr; assert b[1..] == "" ==> b[1..] + tr == tr; }
        assert a == [a[0]] + a[1..] && b == [b[0]] + b[1..];
      }
    }
  }

  lemma MatchStep(a: string, b: string, fl: seq<string>, tl: seq<string>)
    requires a != "#"
    ensures LevelsMatch([a] + fl, [b] + tl) == ((a == "+" || a == b) && LevelsMatch(fl, tl))
    ensures LevelsMatch([], tl) == (tl == [])
    ensures |tl| > 0 ==> Overlooked([a] + fl, [b] + tl) == Overlooked(fl, tl)
    ensures tl == [] ==> Overlooked([a] + fl, [b] + tl) == (a == "+" && (b == "" || fl != []))
  {
    assert ([a] + fl)[1..] == fl && ([b] + tl)[1..] == tl;
  }

  lemma ValidRest(fl: seq<string>)
    requires fl != [] && ValidLevels(fl)
    ensures ValidLevels(fl[1..])
    ensures fl[0] == "#" ==> |fl| == 1
    ensures Plain(fl[0]) || fl[0] == "+" || fl[0] == "#"
  {
    forall i | 0 <= i < |fl| - 1
      ensures Plain(fl[1..][i]) || fl[1..][i] == "+" || (fl[1..][i] == "#" && i == |fl| - 2)
    {
      assert fl[1..][i] == fl[i + 1];
    }
  }

  /** What the loop answers once both strings have lost their first level. */
  predicate Recognised(fl: seq<string>, tl: seq<string>) {
    LevelsMatch(fl, tl) && !Overlooked(fl, tl)
  }

  /** Level by level, the loop recognises exactly what it should, bar the overlooked shapes. */
  lemma {:induction false} WalkIsLevels(f: string, t: string)
    requires ValidLevels(Levels(f)) && Plain(t)
    ensures Walk(f, t, false) <==> Recognised(Levels(f), Levels(t))
    decreases |f|
  {
    hide Walk, Levels, ValidLevels, Recognised;
    var a, fr := f[..LevelLen(f)], f[LevelLen(f)..];
    var b, tr := t[..LevelLen(t)], t[LevelLen(t)..];
    LevelsHead(f);
    LevelsHead(t);
    LevelsSplit(a, fr);
    LevelsSplit(b, tr);
    ValidRest(Levels(f));
    if fr != "" { assert Levels(f)[1..] == Levels(fr[1..]); }
    if fr != "" && tr != "" { WalkIsLevels(fr[1..], tr[1..]); }
    if a == "#" {
      HashLevel(f, t);
    } else if a == "+" {
      PlusLevel(fr, b, tr);
    } else {
      PlainLevel(a, fr, b, tr);
    }
  }

  lemma HashLevel(f: string, t: string)
    requires f == "#" && Levels(f) == ["#"]
    ensures Walk(f, t, false) && Recognised(Levels(f), Levels(t))
  {
  }

  /** The levels after the first one. */
  function Following(r: string): seq<string>
    requires Ends(r)
  {
    if r == "" then [] else Levels(r[1..])
  }

  lemma PlusLevel(fr: string, b: string, tr: string)
    requires '/' !in b && Plain(b) && Ends(fr) && Ends(tr) && ValidLevels(["+"] + Following(fr))
    requires fr != "" && tr != "" ==> (Walk(fr[1..], tr[1..], false) <==> Recognised(Levels(fr[1..]), Levels(tr[1..])))
    ensures Walk("+" + fr, b + tr, false) <==> Recognised(["+"] + Following(fr), [b] + Following(tr))
  {
    hide Levels, LevelsMatch, Overlooked, ValidLevels;
    MatchStep("+", b, Following(fr), Following(tr));
    EmptyTail(Following(fr), ["+"] + Following(fr));
    LevelsSplit(b, tr);
    SplitConcat("+", fr);
    SplitConcat(b, tr);
    assert [b] + [] == [b];
    if b + tr != "" {
      WalkPlus(fr, b + tr);
    } else {
      WalkPlusEnd(fr);
    }
  }

  lemma WalkPlus(fr: string, t: string)
    requires t != ""
    ensures Walk("+" + fr, t, false) == AfterPlus(fr, t[LevelLen(t)..])
  {
    SplitConcat("+", fr);
  }

  lemma WalkPlusEnd(fr: string)
    ensures !Walk("+" + fr, "", false)
  {
    assert ("+" + fr)[0] == '+';
  }

  /** Which filters match no levels at all. */
  lemma EmptyTail(fl: seq<string>, all: seq<string>)
    requires |all| > 0 && fl == all[1..] && ValidLevels(all)
    ensures LevelsMatch(fl, []) <==> fl == [] || fl == ["#"]
    ensures fl != [] && fl[0] == "#" ==> fl == ["#"]
  {
    if fl != [] && fl[0] == "#" { assert all[1] == "#"; }
  }

  lemma PlainLevel(a: string, fr: string, b: string, tr: string)
    requires Plain(a) && '/' !in a && '/' !in b && Plain(b) && Ends(fr) && Ends(tr) && ValidLevels([a] + Following(fr))
    requires fr != "" && tr != "" ==> (Walk(fr[1..], tr[1..], false) <==> Recognised(Levels(fr[1..]), Levels(tr[1..])))
    ensures Walk(a + fr, b + tr, false) <==> Recognised([a] + Following(fr), [b] + Following(tr))
  {
    hide Levels, LevelsMatch, Overlooked, ValidLevels, Walk;
    assert a != "#" && a != "+" by { assert "#"[0] == '#' && "+"[0] == '+'; }
    MatchStep(a, b, Following(fr), Following(tr));
    EmptyTail(Following(fr), [a] + Following(fr));
    LiteralLevel(a, b, fr, tr, false);
    if a == "" && b == "" {
      assert a + fr == fr && b + tr == tr;
    }
    assert [b] + [] == [b];
    HashRest(fr);
    if a == b { BetweenLevels(fr, tr); }
  }

  lemma HashRest(fr: string)
    requires Ends(fr)
    ensures fr == "/#" <==> Following(fr) == ["#"]
  {
    if fr != "" {
      LevelsSplit("#", "");
      assert "#" + "" == "#";
      var r := fr[1..];
      LevelsHead(r);
      LevelsSplit(r[..LevelLen(r)], r[LevelLen(r)..]);
      if Levels(r) == ["#"] { assert r == "#" + ""; }
      assert fr == "/" + r;
    }
  }

  /** At the end of equal levels. */
  lemma BetweenLevels(fr: string, tr: string)
    requires Ends(fr) && Ends(tr)
    ensures Walk(fr, tr, false) ==
      if fr != "" && tr != "" then Walk(fr[1..], tr[1..], false) else tr == "" && (fr == "" || fr == "/#")
  {
  }

  /** mqtt_topic_matches answers as the standard does, except that it misses the overlooked
      shapes: never a match too many, and exactly these too few. */
  lemma MatchesExactly(f: string, t: string)
    requires ValidFilter(f) && ValidTopic(t)
    ensures Walk(f, t, t[0] == '$') <==> StandardMatch(f, t) && !Overlooked(Levels(f), Levels(t))
  {
    hide Levels, ValidLevels, LevelsMatch, Overlooked;
    WalkIsLevels(f, t);
    FirstStep(f, t);
  }

  /** Only the very first character of the filter can make a difference to a '$' topic. */
  lemma FirstStep(f: string, t: string)
    requires f != "" && t != ""
    ensures Walk(f, t, true) == (Walk(f, t, false) && f[0] != '#' && f[0] != '+')
  {
  }

  lemma TwoLevels(a: string, b: string)
    requires '/' !in a && '/' !in b
    ensures Levels(a + ("/" + b)) == [a, b]
  {
    LevelsSplit(a, "/" + b);
    assert ("/" + b)[1..] == b + "";
    LevelsSplit(b, "");
  }

  /** Both overlooked shapes occur: whatever precedes them, an empty last level under '+', and
      the parent of a filter that ends in "+/#". */
  lemma OverlookedOccur(a: string, b: string)
    requires Plain(a) && Plain(b) && '/' !in a && '/' !in b && a != "" && a[0] != '$'
    ensures ValidFilter(a + "/+") && ValidTopic(a + "/")
    ensures StandardMatch(a + "/+", a + "/") && !Walk(a + "/+", a + "/", false)
    ensures ValidFilter(a + "/+/#") && ValidTopic(a + ("/" + b))
    ensures StandardMatch(a + "/+/#", a + ("/" + b)) && !Walk(a + "/+/#", a + ("/" + b), false)
  {
    hide Walk, Levels;
    TwoLevels(a, "+");
    TwoLevels(a, "");
    TwoLevels(a, b);
    TwoLevels("+", "#");
    LevelsSplit(a, "/+/#");
    assert "/+/#"[1..] == "+" + ("/" + "#");
    assert "/" + "+" == "/+" && "/" + "" == "/";
    MatchesExactly(a + "/+", a + "/");
    MatchesExactly(a + "/+/#", a + ("/" + b));
    OverlookedLevels(a, b);
  }

  lemma OverlookedLevels(a: string, b: string)
    requires Plain(a) && a != ""
    ensures ValidLevels([a, "+"]) && ValidLevels([a] + ["+", "#"])
    ensures LevelsMatch([a, "+"], [a, ""]) && Overlooked([a, "+"], [a, ""])
    ensures LevelsMatch([a] + ["+", "#"], [a, b]) && Overlooked([a] + ["+", "#"], [a, b])
  {
    assert [a, "+"][1..] == ["+"] && [a, ""][1..] == [""] && ["+"][1..] == [] && [""][1..] == [];
    var fl := [a] + ["+", "#"];
    assert fl[1..] == ["+", "#"] && ["+", "#"][1..] == ["#"] && [a, b][1..] == [b] && [b][1..] == [];
  }
}
