/** The history exporter of src/model/csv_export.c, and a reader for section 2 of RFC 4180 that
    gets every exported record back. */
module CsvExport {
  import opened Text
  import opened MessageRing
  import Notation
  import TopicFilter

  // ----- which records are exported

  /** topic_matches. */
  predicate Selected(topic: string, prefix: string) {
    prefix == "" || (prefix <= topic && (|topic| == |prefix| || topic[|prefix|] == '/'))
  }

  /** A record is exported when the levels of the prefix start its topic. */
  lemma {:induction false} SelectedByLevels(topic: string, prefix: string)
    requires prefix != ""
    ensures Selected(topic, prefix) <==> TopicFilter.Levels(prefix) <= TopicFilter.Levels(topic)
  {
    SelectedIsPrefix(topic, prefix);
  }

  /** The same without the special case of the empty prefix. */
  predicate LevelPrefix(topic: string, prefix: string) {
    prefix <= topic && (|topic| == |prefix| || topic[|prefix|] == '/')
  }

  /** Levels one character at a time. */
  lemma LevelsCons(c: char, s: string)
    ensures var l := TopicFilter.Levels(s);
      TopicFilter.Levels([c] + s) == if c == '/' then [""] + l else [[c] + l[0]] + l[1..]
    ensures TopicFilter.Levels("") == [""]
  {
    assert ([c] + s)[1..] == s && ([c] + s)[0] == c;
    if c == '/' {
      assert ([c] + s)[..0] == "";
    } else {
      LevelsLonger(c, s);
    }
  }

  lemma LevelsLonger(c: char, s: string)
    requires c != '/'
    ensures var l := TopicFilter.Levels(s); TopicFilter.Levels([c] + s) == [[c] + l[0]] + l[1..]
  {
    var n := TopicFilter.LevelLen(s);
    var t := [c] + s;
    assert t[1..] == s;
    assert TopicFilter.LevelLen(t) == n + 1;
    assert t[..n + 1] == [c] + s[..n];
    if n < |s| {
      assert t[n + 2..] == s[n + 1..];
    } else {
      assert s[..n] == s;
    }
  }

  lemma {:induction false} SelectedIsPrefix(topic: string, prefix: string)
    ensures LevelPrefix(topic, prefix) <==> TopicFilter.Levels(prefix) <= TopicFilter.Levels(topic)
    decreases |prefix|
  {
    LevelsCons('/', "");
    if topic != "" {
      LevelsCons(topic[0], topic[1..]);
      assert topic == [topic[0]] + topic[1..];
    }
    if prefix != "" {
      LevelsCons(prefix[0], prefix[1..]);
      assert prefix == [prefix[0]] + prefix[1..];
      if topic != "" {
        SelectedIsPrefix(topic[1..], prefix[1..]);
        ConsPrefix(topic[0], TopicFilter.Levels(topic[1..]), prefix[0], TopicFilter.Levels(prefix[1..]));
        PrefixTail(topic, prefix);
      } else {
        assert |TopicFilter.Levels(prefix)| > 1 || TopicFilter.Levels(prefix)[0] != "";
      }
    }
  }

  lemma PrefixTail(topic: string, prefix: string)
    requires topic != "" && prefix != ""
    ensures LevelPrefix(topic, prefix) <==> topic[0] == prefix[0] && LevelPrefix(topic[1..], prefix[1..])
  {
    var t, p := topic[1..], prefix[1..];
    if topic[0] == prefix[0] && p <= t {
      assert topic == [topic[0]] + t && prefix == [topic[0]] + p;
      assert topic[..|prefix|] == [topic[0]] + t[..|p|];
    }
    if prefix <= topic {
      assert topic[..|prefix|] == prefix;
      assert t[..|p|] == topic[..|prefix|][1..] == p;
    }
  }

  /** One more character in front of two lists of levels. */
  lemma ConsPrefix(c: char, tl: seq<string>, d: char, pl: seq<string>)
    requires |tl| > 0 && |pl| > 0
    ensures var t := if c == '/' then [""] + tl else [[c] + tl[0]] + tl[1..];
      var p := if d == '/' then [""] + pl else [[d] + pl[0]] + pl[1..];
      p <= t <==> c == d && pl <= tl
  {
    var t := if c == '/' then [""] + tl else [[c] + tl[0]] + tl[1..];
    var p := if d == '/' then [""] + pl else [[d] + pl[0]] + pl[1..];
    if p <= t {
      assert p[0] == t[0];
      FirstChar(c, tl[0], d, pl[0]);
      assert p[1..] == t[1..][..|p| - 1];
      SameHead(tl, pl, c);
    }
    if c == d && pl <= tl {
      assert tl[..|pl|] == pl;
      assert t[..|p|] == p;
    }
  }

  lemma FirstChar(c: char, a: string, d: char, b: string)
    requires (if c == '/' then "" else [c] + a) == (if d == '/' then "" else [d] + b)
    ensures c == d && (c != '/' ==> a == b)
  {
    if c != '/' && d != '/' {
      assert ([c] + a)[0] == c && ([d] + b)[0] == d;
      assert ([c] + a)[1..] == a && ([d] + b)[1..] == b;
    }
  }

  lemma SameHead(tl: seq<string>, pl: seq<string>, c: char)
    requires |tl| > 0 && |pl| > 0
    ensures pl[0] == tl[0] && |pl| <= |tl| && pl[1..] == tl[1..][..|pl| - 1] ==> pl <= tl
  {
    if pl[0] == tl[0] && |pl| <= |tl| && pl[1..] == tl[1..][..|pl| - 1] {
      assert pl == [pl[0]] + pl[1..];
      assert tl[..|pl|] == [tl[0]] + tl[1..][..|pl| - 1];
    }
  }

  // ----- the text

  /** The columns of a record that come from its `info`: an ISO 8601 stamp, QoS and flag. */
  datatype Meta = Meta(stamp: string, qos: nat, retained: bool)

  predicate NeedsQuotes(s: string) { ',' in s || '\"' in s || '\n' in s || '\r' in s }

  /** The character written for c, without quote doubling. */
  function Clean(c: char): char { if c == '\0' then ' ' else c }

  function Cleaned(s: string): (r: string)
    ensures |r| == |s|
  {
    seq(|s|, i requires 0 <= i < |s| => Clean(s[i]))
  }

  /** Inside a field a quote is written twice. */
  function Doubled(c: char): string { if c == '\"' then [c, c] else [c] }

  /** The field's characters, then `tail`. */
  function Body(s: string, tail: string): string {
    if s == "" then tail else Doubled(Clean(s[0])) + Body(s[1..], tail)
  }

  function Field(s: string, tail: string): string {
    if NeedsQuotes(s) then "\"" + Body(s, "\"" + tail) else Body(s, tail)
  }

  const CRLF := "\r\n"
  const HEADER := "timestamp,topic,qos,retained,payload"

  function Flag(b: bool): string { if b then "1" else "0" }

  function Row(meta: nat -> Meta, m: Message, tail: string): string {
    meta(m.info).stamp + ("," + Field(m.topic,
      "," + (Decimal(meta(m.info).qos) + ("," + (Flag(meta(m.info).retained) + ("," + Field(Chars(m.payload), CRLF + tail)))))))
  }

  function Rows(meta: nat -> Meta, ms: seq<Message>, prefix: string): string {
    if ms == [] then ""
    else if Selected(ms[0].topic, prefix) then Row(meta, ms[0], Rows(meta, ms[1..], prefix))
    else Rows(meta, ms[1..], prefix)
  }

  /** The whole file. */
  function Csv(meta: nat -> Meta, ms: seq<Message>, prefix: string): string {
    HEADER + (CRLF + Rows(meta, ms, prefix))
  }

  // ----- the writer

  /** A stream that may stop accepting characters. */
  class Stream {
    var text: string
    const limit: nat

    constructor (limit: nat)
      ensures text == "" && this.limit == limit
    {
      text := "";
      this.limit := limit;
    }

    method Putc(c: char) returns (ok: bool)
      modifies this
      ensures text == if ok then old(text) + [c] else old(text)
      ensures !ok ==> |text| >= limit
    {
      ok := |text| < limit;
      if ok { text := text + [c]; }
    }

    /** fputs and fprintf: all of s, or less when the stream fails. */
    method Puts(s: string) returns (ok: bool)
      modifies this
      ensures ok ==> text == old(text) + s
      ensures !ok ==> |text| >= limit && exists k :: 0 <= k < |s| && text == old(text) + s[..k]
    {
      var i := 0;
      while i < |s|
        invariant i <= |s| && text == old(text) + s[..i]
      {
        SliceStep(s, 0, i);
        ok := Putc(s[i]);
        if !ok { return false; }
        Assoc(old(text), s[..i], [s[i]]);
        i := i + 1;
      }
      ok := true;
      assert s[..i] == s;
    }

    /** The body of write_field's loop. */
    method WriteChar(c: char) returns (ok: bool)
      modifies this
      ensures text == if ok then old(text) + Doubled(c) else text
      ensures !ok ==> |text| >= limit && text <= old(text) + Doubled(c)
    {
      ok := true;
      if c == '\"' { ok := Putc('\"'); }
      if ok { ok := Putc(c); }
    }

    method WriteBody(s: string, ghost tail: string) returns (ok: bool)
      modifies this
      ensures ok ==> text + tail == old(text) + Body(s, tail)
      ensures !ok ==> |text| >= limit && text <= old(text) + Body(s, tail)
    {
      hide Doubled, Clean;
      var i := 0;
      ok := true;
      assert s[0..] == s;
      while i < |s|
        invariant i <= |s| && text + Body(s[i..], tail) == old(text) + Body(s, tail)
      {
        assert s[i..][0] == s[i] && s[i..][1..] == s[i + 1..];
        Assoc(text, Doubled(Clean(s[i])), Body(s[i + 1..], tail));
        ok := WriteChar(Clean(s[i]));
        if !ok { return; }
        i := i + 1;
      }
      assert s[i..] == "";
    }

    /** write_field. */
    method WriteField(s: string) returns (ok: bool)
      modifies this
      ensures ok ==> text == old(text) + Field(s, "")
      ensures !ok ==> |text| >= limit && text <= old(text) + Field(s, "")
    {
      hide Body, NeedsQuotes;
      if !NeedsQuotes(s) {
        ok := WriteBody(s, "");
        assert text + "" == text;
        return;
      }
      assert "\"" + "" == "\"" == ['\"'];
      Assoc(text, "\"", Body(s, "\""));
      ok := Putc('\"');
      if !ok { return; }
      ok := WriteBody(s, "\"");
      if !ok { return; }
      ok := Putc('\"');
    }

    /** One record, in pieces as the source writes it. */
    method WriteRow(meta: nat -> Meta, m: Message) returns (ok: bool)
      modifies this
      ensures ok ==> text == old(text) + Row(meta, m, "")
      ensures !ok ==> |text| >= limit && text <= old(text) + Row(meta, m, "")
    {
      hide Field, Decimal, Flag;
      var c := "," + (Decimal(meta(m.info).qos) + ("," + (Flag(meta(m.info).retained) + ",")));
      RowParts(meta, m, old(text));
      ok := Puts(meta(m.info).stamp);
      if !ok { return; }
      ok := Putc(',');
      if !ok { return; }
      ok := WriteField(m.topic);
      if !ok { return; }
      ok := Puts(c);
      if !ok { return; }
      // a NULL payload writes nothing, which is what an empty one writes
      ok := WriteField(Chars(m.payload));
      if !ok { return; }
      ok := Puts(CRLF);
    }
  }

  lemma {:induction false} BodyTail(s: string, t: string)
    ensures Body(s, t) == Body(s, "") + t
  {
    if s != "" {
      BodyTail(s[1..], t);
      Assoc(Doubled(Clean(s[0])), Body(s[1..], ""), t);
    }
  }

  lemma FieldTail(s: string, t: string)
    ensures Field(s, t) == Field(s, "") + t
  {
    BodyTail(s, t);
    BodyTail(s, "\"" + t);
    BodyTail(s, "\"" + "");
    if NeedsQuotes(s) {
      assert "\"" + "" == "\"";
      Assoc(Body(s, ""), "\"", t);
      Assoc("\"", Body(s, "\""), t);
    }
  }

  lemma RowParts(meta: nat -> Meta, m: Message, before: string)
    ensures var c := "," + (Decimal(meta(m.info).qos) + ("," + (Flag(meta(m.info).retained) + ",")));
      before + Row(meta, m, "") == ((((before + meta(m.info).stamp + [',']) + Field(m.topic, "")) + c) + Field(Chars(m.payload), "")) + CRLF
  {
    hide Field, Decimal, Flag;
    var stamp, topic, payload := meta(m.info).stamp, Field(m.topic, ""), Field(Chars(m.payload), "");
    var qos, flag := Decimal(meta(m.info).qos), Flag(meta(m.info).retained);
    var c := "," + (qos + ("," + (flag + ",")));
    var last := "," + (qos + ("," + (flag + ("," + Field(Chars(m.payload), CRLF + "")))));
    assert CRLF + "" == CRLF;
    FieldTail(Chars(m.payload), CRLF);
    FieldTail(m.topic, last);
    FiveParts(",", qos, ",", flag, ",", payload + CRLF);
    assert last == c + (payload + CRLF);
    assert Row(meta, m, "") == stamp + ("," + (topic + (c + (payload + CRLF))));
    SixParts(before, stamp, ",", topic, c, payload, CRLF);
  }

  lemma FiveParts(a: string, b: string, c: string, d: string, e: string, t: string)
    ensures a + (b + (c + (d + (e + t)))) == (a + (b + (c + (d + e)))) + t
  {
    Assoc(d, e, t);
    Assoc(c, d + e, t);
    Assoc(b, c + (d + e), t);
    Assoc(a, b + (c + (d + e)), t);
  }

  lemma SixParts(w: string, a: string, b: string, c: string, d: string, e: string, f: string)
    ensures w + (a + (b + (c + (d + (e + f))))) == ((((w + a + b) + c) + d) + e) + f
  {
    Assoc(w, a, b + (c + (d + (e + f))));
    Assoc(w + a, b, c + (d + (e + f)));
    Assoc(w + a + b, c, d + (e + f));
    Assoc(w + a + b + c, d, e + f);
    Assoc(w + a + b + c + d, e, f);
  }

  lemma {:induction false} RowsTail(meta: nat -> Meta, m: Message, t: string)
    ensures Row(meta, m, t) == Row(meta, m, "") + t
  {
    hide Field, Decimal, Flag;
    var stamp, topic, payload := meta(m.info).stamp, Field(m.topic, ""), Field(Chars(m.payload), "");
    var qos, flag := Decimal(meta(m.info).qos), Flag(meta(m.info).retained);
    var c := "," + (qos + ("," + (flag + ",")));
    RowParts(meta, m, "");
    var last := "," + (qos + ("," + (flag + ("," + Field(Chars(m.payload), CRLF + t)))));
    FieldTail(Chars(m.payload), CRLF + t);
    FieldTail(m.topic, last);
    FiveParts(",", qos, ",", flag, ",", payload + (CRLF + t));
    SixParts("", stamp, ",", topic, c, payload, CRLF + t);
    Assoc((((("" + stamp + ",") + topic) + c) + payload), CRLF, t);
    assert "" + Row(meta, m, "") == Row(meta, m, "");
    assert last == c + (payload + (CRLF + t));
    var whole := stamp + ("," + (topic + (c + (payload + (CRLF + t)))));
    assert Row(meta, m, t) == whole;
    assert "" + whole == whole;
  }

  /** How many records are exported. */
  function Exported(ms: seq<Message>, prefix: string): nat {
    if ms == [] then 0 else (if Selected(ms[0].topic, prefix) then 1 else 0) + Exported(ms[1..], prefix)
  }

  lemma ExportShows(meta: nat -> Meta, ms: seq<Message>, prefix: string)
    ensures Exported(ms, prefix) == |Chosen(ms, prefix)|
    ensures PlainStamps(meta, ms) ==> FileShows(meta, ms, prefix, Csv(meta, ms, prefix))
    ensures "" + Csv(meta, ms, prefix) == Csv(meta, ms, prefix)
  {
    hide FileShows, Chosen, Csv, PlainStamp;
    ChosenAreShown(meta, ms, prefix);
    if PlainStamps(meta, ms) { FileIsShown(meta, ms, prefix); }
  }

  /** csv_export_write: the number of rows when the stream took everything, and otherwise -1
      with the file cut short. */
  method ExportCsv(meta: nat -> Meta, buf: MessageBuf, prefix: string, out: Stream) returns (rows: int)
    requires buf.Valid()
    modifies out
    ensures rows >= 0 ==>
      out.text == old(out.text) + Csv(meta, buf.Contents(), prefix) && rows == Exported(buf.Contents(), prefix)
    ensures rows >= 0 ==> rows == |Chosen(buf.Contents(), prefix)|
    ensures rows >= 0 && old(out.text) == "" && PlainStamps(meta, buf.Contents()) ==>
      FileShows(meta, buf.Contents(), prefix, out.text)
    ensures rows < 0 ==>
      rows == -1 && |out.text| >= out.limit && out.text <= old(out.text) + Csv(meta, buf.Contents(), prefix)
  {
    hide Owns, Views, Row, Selected, Chosen, FileShows, PlainStamps;
    ghost var ms := buf.Contents();
    ExportShows(meta, ms, prefix);
    ghost var all := out.text + Csv(meta, ms, prefix);
    Assoc(HEADER, CRLF, Rows(meta, ms, prefix));
    Assoc(out.text, HEADER + CRLF, Rows(meta, ms, prefix));
    var ok := out.Puts(HEADER + CRLF);
    if !ok { return -1; }
    rows := 0;
    var i := 0;
    assert ms[0..] == ms;
    while i < buf.count
      invariant i <= buf.count && buf.Valid() && buf.Contents() == ms && rows >= 0
      invariant out.text + Rows(meta, ms[i..], prefix) == all
      invariant rows + Exported(ms[i..], prefix) == Exported(ms, prefix)
    {
      var r := buf.Get(i);
      assert ms[i..][0] == ms[i] && ms[i..][1..] == ms[i + 1..];
      if Selected(r.value.topic, prefix) {
        RowsTail(meta, ms[i], Rows(meta, ms[i + 1..], prefix));
        Assoc(out.text, Row(meta, ms[i], ""), Rows(meta, ms[i + 1..], prefix));
        ok := out.WriteRow(meta, r.value);
        if !ok { return -1; }
        rows := rows + 1;
      }
      i := i + 1;
    }
    assert ms[i..] == [] && out.text + "" == out.text;
  }

  // ----- the reader

  /** Section 2 of RFC 4180: a field, with what follows it. */
  function ReadQuoted(s: string): Option<(string, string)> {
    if s == "" then None
    else if s[0] != '\"' then
      var r := ReadQuoted(s[1..]);
      if r.None? then None else Some(([s[0]] + r.value.0, r.value.1))
    else if |s| > 1 && s[1] == '\"' then
      var r := ReadQuoted(s[2..]);
      if r.None? then None else Some((['\"'] + r.value.0, r.value.1))
    else Some(("", s[1..]))
  }

  function ReadPlain(s: string): (r: (string, string))
    ensures |r.1| <= |s|
  {
    if s == "" || s[0] in {',', '\"', '\r', '\n'} then ("", s)
    else
      var r := ReadPlain(s[1..]);
      ([s[0]] + r.0, r.1)
  }

  lemma {:induction false} ReadQuotedShorter(s: string)
    ensures ReadQuoted(s).Some? ==> |ReadQuoted(s).value.1| < |s|
    decreases |s|
  {
    if s != "" {
      ReadQuotedShorter(s[1..]);
      if |s| > 1 { ReadQuotedShorter(s[2..]); }
    }
  }

  function ReadField(s: string): (r: Option<(string, string)>)
    ensures r.Some? ==> |r.value.1| <= |s|
  {
    if s != "" && s[0] == '\"' then
      ReadQuotedShorter(s[1..]);
      ReadQuoted(s[1..])
    else Some(ReadPlain(s))
  }

  /** Fields up to a line break. */
  function ReadRecord(s: string): (r: Option<(seq<string>, string)>)
    ensures r.Some? ==> |r.value.1| < |s|
    decreases |s|
  {
    match ReadField(s)
    case None => None
    case Some((f, t)) =>
      if |t| >= 2 && t[..2] == CRLF then Some(([f], t[2..]))
      else if t != "" && t[0] == ',' then
        var r := ReadRecord(t[1..]);
        if r.None? then None else Some(([f] + r.value.0, r.value.1))
      else None
  }

  function ReadFile(s: string): Option<seq<seq<string>>>
    decreases |s|
  {
    if s == "" then Some([])
    else match ReadRecord(s)
      case None => None
      case Some((rec, t)) =>
        var r := ReadFile(t);
        if r.None? then None else Some([rec] + r.value)
  }

  /** What an exported record should read back as. */
  function Columns(meta: nat -> Meta, m: Message): seq<string> {
    [meta(m.info).stamp, Cleaned(m.topic), Decimal(meta(m.info).qos), Flag(meta(m.info).retained), Cleaned(Chars(m.payload))]
  }

  function AllColumns(meta: nat -> Meta, ms: seq<Message>, prefix: string): seq<seq<string>> {
    if ms == [] then []
    else (if Selected(ms[0].topic, prefix) then [Columns(meta, ms[0])] else []) + AllColumns(meta, ms[1..], prefix)
  }

  /** The end of a field: a comma or a line break. */
  predicate EndsField(t: string) { t != "" && (t[0] == ',' || t[0] == '\r') }

  lemma {:induction false} QuotedReadsBack(s: string, t: string)
    requires EndsField(t)
    ensures ReadQuoted(Body(s, "\"" + t)) == Some((Cleaned(s), t))
  {
    var tail := "\"" + t;
    if s == "" {
      assert tail[1..] == t;
    } else {
      QuotedReadsBack(s[1..], t);
      var c := Clean(s[0]);
      var rest := Body(s[1..], tail);
      assert Cleaned(s) == [c] + Cleaned(s[1..]);
      if c == '\"' {
        assert Body(s, tail)[2..] == rest;
      } else {
        assert Body(s, tail)[1..] == rest;
      }
    }
  }

  lemma {:induction false} PlainReadsBack(s: string, t: string)
    requires EndsField(t) && !NeedsQuotes(s)
    ensures ReadPlain(Body(s, t)) == (Cleaned(s), t)
    ensures Body(s, t) != "" && Body(s, t)[0] != '\"'
  {
    if s != "" {
      assert s[0] in s && forall c :: c in s[1..] ==> c in s;
      PlainReadsBack(s[1..], t);
      assert Body(s, t)[1..] == Body(s[1..], t);
      assert Cleaned(s) == [Clean(s[0])] + Cleaned(s[1..]);
    }
  }

  lemma FieldReadsBack(s: string, t: string)
    requires EndsField(t)
    ensures ReadField(Field(s, t)) == Some((Cleaned(s), t))
  {
    if NeedsQuotes(s) {
      QuotedReadsBack(s, t);
      assert Field(s, t)[1..] == Body(s, "\"" + t);
    } else {
      PlainReadsBack(s, t);
    }
  }

  /** A column that is written as it is. */
  lemma {:induction false} PlainColumn(s: string, t: string)
    requires EndsField(t) && !NeedsQuotes(s) && '\0' !in s
    ensures ReadField(s + t) == Some((s, t))
  {
    assert Cleaned(s) == s;
    BodyIsPlain(s, t);
    PlainReadsBack(s, t);
  }

  lemma {:induction false} BodyIsPlain(s: string, t: string)
    requires !NeedsQuotes(s) && '\0' !in s
    ensures Body(s, t) == s + t
  {
    if s == "" {
      assert s + t == t;
    } else {
      assert s[0] in s && forall c :: c in s[1..] ==> c in s;
      BodyIsPlain(s[1..], t);
      assert s + t == [s[0]] + (s[1..] + t);
    }
  }

  lemma NextColumn(x: string, f: string, rest: string)
    requires ReadField(x) == Some((f, "," + rest))
    ensures var r := ReadRecord(rest);
      ReadRecord(x) == if r.None? then None else Some(([f] + r.value.0, r.value.1))
  {
    assert ("," + rest)[1..] == rest && ("," + rest)[0] == ',';
    assert |"," + rest| >= 2 ==> ("," + rest)[..2][0] == ',';
  }

  lemma LastColumn(x: string, f: string, t: string)
    requires ReadField(x) == Some((f, CRLF + t))
    ensures ReadRecord(x) == Some(([f], t))
  {
    SplitConcat(CRLF, t);
  }

  /** A stamp that needs no quotes, as an ISO 8601 one never does. */
  predicate PlainStamp(s: string) { !NeedsQuotes(s) && '\0' !in s }

  lemma NumbersArePlain(n: nat, b: bool)
    ensures PlainStamp(Decimal(n)) && PlainStamp(Flag(b))
  {
  }

  /** A row reads back as the record's columns, whatever follows it. */
  lemma RowReadsBack(meta: nat -> Meta, m: Message, t: string)
    requires PlainStamp(meta(m.info).stamp)
    ensures ReadRecord(Row(meta, m, t)) == Some((Columns(meta, m), t))
  {
    hide Field, ReadField, ReadRecord, Decimal, Flag, NeedsQuotes, Cleaned;
    var payload := Field(Chars(m.payload), CRLF + t);
    var flag := Flag(meta(m.info).retained);
    var afterFlag := flag + ("," + payload);
    var qos := Decimal(meta(m.info).qos);
    var afterQos := qos + ("," + afterFlag);
    var topic := Field(m.topic, "," + afterQos);
    NumbersArePlain(meta(m.info).qos, meta(m.info).retained);
    FieldReadsBack(Chars(m.payload), CRLF + t);
    LastColumn(payload, Cleaned(Chars(m.payload)), t);
    PlainColumn(flag, "," + payload);
    NextColumn(afterFlag, flag, payload);
    PlainColumn(qos, "," + afterFlag);
    NextColumn(afterQos, qos, afterFlag);
    FieldReadsBack(m.topic, "," + afterQos);
    NextColumn(topic, Cleaned(m.topic), afterQos);
    PlainColumn(meta(m.info).stamp, "," + topic);
    NextColumn(meta(m.info).stamp + ("," + topic), meta(m.info).stamp, topic);
    FiveColumns(meta(m.info).stamp, Cleaned(m.topic), qos, flag, Cleaned(Chars(m.payload)));
  }

  lemma FiveColumns(a: string, b: string, c: string, d: string, e: string)
    ensures [a] + ([b] + ([c] + ([d] + [e]))) == [a, b, c, d, e]
  {
  }

  lemma {:induction false} RowsReadBack(meta: nat -> Meta, ms: seq<Message>, prefix: string)
    requires forall i :: 0 <= i < |ms| ==> PlainStamp(meta(ms[i].info).stamp)
    ensures ReadFile(Rows(meta, ms, prefix)) == Some(AllColumns(meta, ms, prefix))
  {
    hide Row, Selected, PlainStamp, ReadRecord;
    if ms != [] {
      forall i | 0 <= i < |ms[1..]|
        ensures PlainStamp(meta(ms[1..][i].info).stamp)
      {
        assert ms[1..][i] == ms[i + 1];
      }
      RowsReadBack(meta, ms[1..], prefix);
      RowReadsBack(meta, ms[0], Rows(meta, ms[1..], prefix));
      RowIsText(meta, ms[0], Rows(meta, ms[1..], prefix));
      assert [] + AllColumns(meta, ms[1..], prefix) == AllColumns(meta, ms[1..], prefix);
    }
  }

  lemma RowIsText(meta: nat -> Meta, m: Message, t: string)
    ensures Row(meta, m, t) != ""
  {
  }

  const HEADINGS := ["timestamp", "topic", "qos", "retained", "payload"]

  /** Reading the exported file gives the headings and then exactly the records selected by the
      prefix, oldest first, with NUL read as a space. */
  lemma FileReadsBack(meta: nat -> Meta, ms: seq<Message>, prefix: string)
    requires forall i :: 0 <= i < |ms| ==> PlainStamp(meta(ms[i].info).stamp)
    ensures ReadFile(Csv(meta, ms, prefix)) == Some([HEADINGS] + AllColumns(meta, ms, prefix))
  {
    hide Rows, AllColumns, ReadRecord;
    RowsReadBack(meta, ms, prefix);
    HeaderReadsBack(Rows(meta, ms, prefix));
  }

  lemma HeaderReadsBack(t: string)
    ensures ReadRecord(HEADER + (CRLF + t)) == Some((HEADINGS, t))
  {
    hide ReadRecord, PlainStamp;
    FirstHeadings();
    LastHeadings();
    HeaderWords();
    HeadingRecord("timestamp", "topic", "qos", "retained", "payload", HEADER, t);
  }

  lemma FirstHeadings()
    ensures PlainStamp("timestamp") && PlainStamp("topic")
  {
  }

  lemma LastHeadings()
    ensures PlainStamp("qos") && PlainStamp("retained") && PlainStamp("payload")
  {
  }

  lemma HeaderWords()
    ensures HEADER == "timestamp" + ("," + ("topic" + ("," + ("qos" + ("," + ("retained" + ("," + "payload")))))))
  {
    assert "retained" + ("," + "payload") == "retained,payload";
    assert "qos" + ("," + "retained,payload") == "qos,retained,payload";
    assert "topic" + ("," + "qos,retained,payload") == "topic,qos,retained,payload";
    assert "timestamp" + ("," + "topic,qos,retained,payload") == HEADER;
  }

  lemma HeadingRecord(a: string, b: string, c: string, d: string, e: string, h: string, t: string)
    requires PlainStamp(a) && PlainStamp(b) && PlainStamp(c) && PlainStamp(d) && PlainStamp(e)
    requires h == a + ("," + (b + ("," + (c + ("," + (d + ("," + e)))))))
    ensures ReadRecord(h + (CRLF + t)) == Some(([a, b, c, d, e], t))
  {
    hide ReadRecord, PlainStamp;
    HeaderParts(a, ",", b, c, d, e, CRLF + t);
    PlainRecord(a, b, c, d, e, t);
  }

  lemma PlainRecord(a: string, b: string, c: string, d: string, e: string, t: string)
    requires PlainStamp(a) && PlainStamp(b) && PlainStamp(c) && PlainStamp(d) && PlainStamp(e)
    ensures ReadRecord(a + ("," + (b + ("," + (c + ("," + (d + ("," + (e + (CRLF + t))))))))))
      == Some(([a, b, c, d, e], t))
  {
    hide ReadField, ReadRecord, NeedsQuotes;
    var e' := e + (CRLF + t);
    var d' := d + ("," + e');
    var c' := c + ("," + d');
    var b' := b + ("," + c');
    PlainColumn(e, CRLF + t);
    LastColumn(e', e, t);
    PlainColumn(d, "," + e');
    NextColumn(d', d, e');
    PlainColumn(c, "," + d');
    NextColumn(c', c, d');
    PlainColumn(b, "," + c');
    NextColumn(b', b, c');
    PlainColumn(a, "," + b');
    NextColumn(a + ("," + b'), a, b');
    FiveColumns(a, b, c, d, e);
  }

  lemma HeaderParts(a: string, s: string, b: string, c: string, d: string, e: string, t: string)
    ensures (a + (s + (b + (s + (c + (s + (d + (s + e)))))))) + t == a + (s + (b + (s + (c + (s + (d + (s + (e + t))))))))
  {
    FiveParts(c, s, d, s, e, t);
    var r := c + (s + (d + (s + e)));
    FiveParts(a, s, b, s, r, t);
  }

  // ----- what the file says, without the writer's terms

  /** r is s, with a space for every NUL. */
  predicate ReadsAs(r: string, s: string) {
    |r| == |s| && forall i :: 0 <= i < |s| ==> r[i] as int == if s[i] as int == 0 then 0x20 else s[i] as int
  }

  /** A field reads back as its text. */
  lemma FieldShows(s: string, t: string)
    requires EndsField(t)
    ensures var r := ReadField(Field(s, t)); r.Some? && r.value.1 == t && ReadsAs(r.value.0, s)
  {
    hide Field, ReadField;
    FieldReadsBack(s, t);
    CleanedReads(s);
  }

  lemma CleanedReads(s: string)
    ensures ReadsAs(Cleaned(s), s)
  {
  }

  /** The five columns of a record. */
  predicate ColumnsShow(meta: nat -> Meta, m: Message, columns: seq<string>) {
    && |columns| == 5
    && columns[0] == meta(m.info).stamp
    && ReadsAs(columns[1], m.topic)
    && Notation.ReadDecimal(columns[2]) == Some(meta(m.info).qos)
    && Notation.ReadDecimal(columns[3]) == Some(if meta(m.info).retained then 1 else 0)
    && |columns[4]| == |m.payload|
    && forall i :: 0 <= i < |m.payload| ==> columns[4][i] as int == if m.payload[i] == 0 then 0x20 else m.payload[i]
  }

  lemma ColumnsAreShown(meta: nat -> Meta, m: Message)
    ensures ColumnsShow(meta, m, Columns(meta, m))
  {
    CleanedReads(m.topic);
    CleanedReads(Chars(m.payload));
    Notation.DecimalReads(meta(m.info).qos);
    assert Decimal(0) == "0" && Decimal(1) == "1";
    Notation.DecimalReads(0);
    Notation.DecimalReads(1);
  }

  /** A record belongs to the export when nothing is asked for, or when the levels asked for
      begin its topic. */
  predicate Belongs(m: Message, prefix: string) {
    prefix == "" || TopicFilter.Levels(prefix) <= TopicFilter.Levels(m.topic)
  }

  function Chosen(ms: seq<Message>, prefix: string): seq<Message> {
    if ms == [] then [] else (if Belongs(ms[0], prefix) then [ms[0]] else []) + Chosen(ms[1..], prefix)
  }

  /** Everything is exported when the prefix is empty, and otherwise what the levels choose. */
  lemma SelectedBelongs(m: Message, prefix: string)
    ensures Selected(m.topic, prefix) <==> Belongs(m, prefix)
  {
    if prefix != "" { SelectedByLevels(m.topic, prefix); }
  }

  /** The rows after the headings are the chosen records, in order. */
  predicate RowsShow(meta: nat -> Meta, ms: seq<Message>, rows: seq<seq<string>>) {
    |rows| == |ms| && forall i :: 0 <= i < |ms| ==> ColumnsShow(meta, ms[i], rows[i])
  }

  lemma {:induction false} ChosenAreShown(meta: nat -> Meta, ms: seq<Message>, prefix: string)
    ensures RowsShow(meta, Chosen(ms, prefix), AllColumns(meta, ms, prefix))
    ensures Exported(ms, prefix) == |Chosen(ms, prefix)|
  {
    hide Belongs, Selected, ColumnsShow, Columns;
    if ms != [] {
      ChosenAreShown(meta, ms[1..], prefix);
      SelectedBelongs(ms[0], prefix);
      ColumnsAreShown(meta, ms[0]);
    }
  }

  /** The file, read by section 2 of RFC 4180, holds the headings and the chosen records. */
  predicate FileShows(meta: nat -> Meta, ms: seq<Message>, prefix: string, text: string) {
    var r := ReadFile(text);
    && r.Some? && |r.value| > 0
    && r.value[0] == ["timestamp", "topic", "qos", "retained", "payload"]
    && RowsShow(meta, Chosen(ms, prefix), r.value[1..])
  }

  lemma FileIsShown(meta: nat -> Meta, ms: seq<Message>, prefix: string)
    requires forall i :: 0 <= i < |ms| ==> PlainStamp(meta(ms[i].info).stamp)
    ensures FileShows(meta, ms, prefix, Csv(meta, ms, prefix))
  {
    hide RowsShow, ReadFile, Csv, PlainStamp, AllColumns, Chosen;
    FileReadsBack(meta, ms, prefix);
    ChosenAreShown(meta, ms, prefix);
    assert ([HEADINGS] + AllColumns(meta, ms, prefix))[1..] == AllColumns(meta, ms, prefix);
  }

  /** The stamps of all records need no quotes. */
  predicate PlainStamps(meta: nat -> Meta, ms: seq<Message>) {
    forall i :: 0 <= i < |ms| ==> PlainStamp(meta(ms[i].info).stamp)
  }
}
