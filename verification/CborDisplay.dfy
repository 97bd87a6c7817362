/** A reader of the lines a CBOR item is shown as: the value column in the diagnostic notation of
    section 8 of RFC 8949, the brackets and keys as LineOutline nests them.  What it reads is the
    item, apart from the choices its encoder had. */
module CborDisplay {
  import opened Text
  import opened Notation
  import opened LineModel
  import opened LineOutline
  import opened CborGrammar
  import opened CborRender

  // ----- one value

  /** What a value column says. */
  datatype Datum =
    | Number(value: int)
    | TextString(chars: string)
    | ByteString(data: seq<byte>)
    | SimpleValue(n: nat)
    | FloatNumber(text: string)

  predicate NamesNonFinite(s: string) { s == "NaN" || s == "Infinity" || s == "-Infinity" }

  /** Digits, signs, and at least a point or an exponent. */
  predicate FloatDigits(s: string) {
    && (forall i :: 0 <= i < |s| ==> IsDigit(s[i]) || s[i] in {'+', '-', '.', 'e', 'E'})
    && ('.' in s || 'e' in s || 'E' in s)
  }

  /** Exponent field all ones, in the layouts of IEEE 754 (10, 23 and 52 fraction bits). */
  predicate NonFinite(w: Width, bits: nat) {
    match w
    case W2 => bits / Pow2(10) % Pow2(5) == Pow2(5) - 1
    case W4 => bits / Pow2(23) % Pow2(8) == Pow2(8) - 1
    case _ => bits / Pow2(52) % Pow2(11) == Pow2(11) - 1
  }

  function Pow2(k: nat): (r: nat)
    ensures r > 0
  {
    if k == 0 then 1 else 2 * Pow2(k - 1)
  }

  /** What fmt_double promises: a name for what is not finite, and otherwise a number that no
      integer looks like. */
  ghost predicate PrintsFloats(lc: Libc) {
    forall w: Width, bits: nat {:trigger lc.floatText(ByteCount(w), bits)} :: w in {W2, W4, W8} ==>
      if NonFinite(w, bits) then NamesNonFinite(lc.floatText(ByteCount(w), bits))
      else FloatDigits(lc.floatText(ByteCount(w), bits))
  }

  function ReadQuoted(s: string): Option<Datum> {
    if |s| >= 2 && s[0] == s[|s| - 1] == '\"' && ReadChars(s[1..|s| - 1]).Some? then
      Some(TextString(ReadChars(s[1..|s| - 1]).value))
    else None
  }

  function ReadBytes(s: string): Option<Datum> {
    if |s| >= 3 && s[0] == 'h' && s[1] == s[|s| - 1] == '\'' && ReadHex(s[2..|s| - 1]).Some? then
      Some(ByteString(ReadHex(s[2..|s| - 1]).value))
    else None
  }

  function ReadSimple(s: string): Option<Datum> {
    if s == "false" then Some(SimpleValue(20))
    else if s == "true" then Some(SimpleValue(21))
    else if s == "null" then Some(SimpleValue(22))
    else if s == "undefined" then Some(SimpleValue(23))
    else if |s| > 8 && s[..7] == "simple(" && s[|s| - 1] == ')' && ReadDecimal(s[7..|s| - 1]).Some? then
      Some(SimpleValue(ReadDecimal(s[7..|s| - 1]).value))
    else None
  }

  function ReadNumber(s: string): Option<Datum> {
    if s != "" && s[0] == '-' && ReadDecimal(s[1..]).Some? then Some(Number(0 - ReadDecimal(s[1..]).value))
    else if ReadDecimal(s).Some? then Some(Number(ReadDecimal(s).value))
    else None
  }

  function ReadDatum(s: string): Option<Datum> {
    if FloatDigits(s) || NamesNonFinite(s) then Some(FloatNumber(s))
    else if s == "" then None
    else if s[0] == '\"' then ReadQuoted(s)
    else if s[0] == 'h' then ReadBytes(s)
    else if IsDigit(s[0]) || s[0] == '-' then ReadNumber(s)
    else ReadSimple(s)
  }

  /** What a scalar is, without its encoder's choices (section 2 of RFC 8949). */
  function Meaning(lc: Libc, s: Scalar): Datum {
    match s
    case Int(negative, _, n) => Number(if negative then -1 - n else n)
    case String(text, body) => if text then TextString(Chars(DataOf(body))) else ByteString(DataOf(body))
    case Simple(n) => SimpleValue(n)
    case SimpleByte(n) => SimpleValue(n)
    case Float(w, bits) => FloatNumber(lc.floatText(ByteCount(w), bits))
  }

  /** The chunks of a string one after the other. */
  function DataOf(b: Body): seq<byte> {
    match b case Whole(c) => c.data case Run(cs) => Joined(cs)
  }

  function Joined(cs: seq<Chunk>): seq<byte> { if cs == [] then [] else cs[0].data + Joined(cs[1..]) }

  lemma {:induction false} JoinedIsData(cs: seq<Chunk>)
    ensures Joined(cs) == ChunksData(cs)
  {
    if |cs| == 1 {
      assert cs[..0] == [] && cs[1..] == [];
      assert [] + cs[0].data == cs[0].data == cs[0].data + [];
    } else if |cs| > 1 {
      var init, last := cs[..|cs| - 1], cs[|cs| - 1];
      JoinedIsData(init);
      JoinedIsData(cs[1..]);
      JoinedIsData(init[1..]);
      assert cs[1..][..|cs| - 2] == init[1..] && cs[1..][|cs| - 2] == last;
      Assoc(cs[0].data, Joined(init[1..]), last.data);
    }
  }

  // ----- how long it is

  function ByteLen(text: bool, b: byte): nat {
    if !text || b in {0x22, 0x5c, 0x0a, 0x0d, 0x09} then 2 else if b < 0x20 then 6 else 1
  }

  function DataLen(text: bool, data: seq<byte>): nat {
    if data == [] then 0 else DataLen(text, data[..|data| - 1]) + ByteLen(text, data[|data| - 1])
  }

  function SimpleLen(n: nat): nat {
    if n == 20 then 5 else if n == 21 || n == 22 then 4 else if n == 23 then 9 else 8 + DigitCount(n)
  }

  /** The characters a scalar takes when nothing is cut. */
  function ScalarLen(lc: Libc, s: Scalar): nat {
    match s
    case Int(negative, _, n) => if negative then 1 + DigitCount(n + 1) else DigitCount(n)
    case String(text, body) => (if text then 2 else 3) + DataLen(text, DataOf(body))
    case Simple(n) => SimpleLen(n)
    case SimpleByte(n) => 8 + DigitCount(n)
    case Float(w, bits) => |lc.floatText(ByteCount(w), bits)|
  }

  // ----- reading back

  lemma ByteLength(text: bool, b: byte)
    ensures |ByteText(text, b)| == ByteLen(text, b)
  {
  }

  lemma {:induction false} ContentLength(text: bool, data: seq<byte>)
    ensures |Content(text, data)| == DataLen(text, data)
  {
    hide ByteText, ByteLen;
    if data != [] {
      ContentLength(text, data[..|data| - 1]);
      ByteLength(text, data[|data| - 1]);
    }
  }

  lemma HexReads(d: nat)
    requires d < 16
    ensures HexValue(HexDigit(d)) == Some(d)
  {
  }

  lemma PairReads(b: byte)
    ensures ReadPair(HexDigit(b / 16), HexDigit(b % 16)) == Some(b)
  {
    hide HexDigit, HexValue;
    HexReads(b / 16);
    HexReads(b % 16);
  }

  /** One byte of a text string in front of what is already read. */
  lemma CharReads(b: byte, rest: string)
    ensures ReadChars(ByteText(true, b) + rest) == After(b as char, ReadChars(rest))
  {
    hide HexDigit, ReadPair;
    var t := ByteText(true, b);
    var s := t + rest;
    PairReads(b);
    SplitConcat(t, rest);
    if b == 0x22 || b == 0x5c || b == 0x0a || b == 0x0d || b == 0x09 {
      assert s[0] == '\\' && s[1] == t[1] && s[2..] == rest;
    } else if b < 0x20 {
      assert s[..6] == t && s[6..] == rest;
      assert s[0] == '\\' && s[1] == 'u' && s[2] == '0' && s[3] == '0' && s[4] == t[4] && s[5] == t[5];
    } else {
      assert s[0] == b as char && s[1..] == rest;
    }
  }

  lemma {:induction false} TextReads(data: seq<byte>)
    ensures ReadChars(Content(true, data)) == Some(Chars(data))
    decreases |data|
  {
    hide ReadChars, ByteText;
    EmptyReads();
    TextReadsOnto(data, "");
    assert Content(true, data) + "" == Content(true, data);
    assert Chars(data) + "" == Chars(data);
  }

  lemma EmptyReads()
    ensures ReadChars("") == Some("") && ReadHex("") == Some([])
  {
  }

  lemma {:induction false} TextReadsOnto(data: seq<byte>, rest: string)
    requires ReadChars(rest).Some?
    ensures ReadChars(Content(true, data) + rest) == Some(Chars(data) + ReadChars(rest).value)
    decreases |data|
  {
    hide ReadChars, ByteText;
    if data == [] {
      assert "" + rest == rest && Chars([]) + ReadChars(rest).value == ReadChars(rest).value;
    } else {
      var init, b := data[..|data| - 1], data[|data| - 1];
      CharReads(b, rest);
      Assoc(Content(true, init), ByteText(true, b), rest);
      TextReadsOnto(init, ByteText(true, b) + rest);
      assert Chars(data) == Chars(init) + [b as char];
      Assoc(Chars(init), [b as char], ReadChars(rest).value);
    }
  }

  lemma {:induction false} HexReadsOnto(data: seq<byte>, rest: string)
    requires ReadHex(rest).Some?
    ensures ReadHex(Content(false, data) + rest) == Some(data + ReadHex(rest).value)
    decreases |data|
  {
    hide ReadHex, ReadPair, ByteText;
    if data == [] {
      assert "" + rest == rest && [] + ReadHex(rest).value == ReadHex(rest).value;
    } else {
      var init, b := data[..|data| - 1], data[|data| - 1];
      HexPairReads(b, rest);
      Assoc(Content(false, init), ByteText(false, b), rest);
      HexReadsOnto(init, ByteText(false, b) + rest);
      assert data == init + [b];
      Assoc(init, [b], ReadHex(rest).value);
    }
  }

  lemma HexPairReads(b: byte, rest: string)
    ensures ReadHex(ByteText(false, b) + rest) == if ReadHex(rest).None? then None else Some([b] + ReadHex(rest).value)
  {
    hide HexDigit, ReadPair;
    PairReads(b);
    var s := ByteText(false, b) + rest;
    assert s[2..] == rest;
  }

  lemma BytesRead(data: seq<byte>)
    ensures ReadHex(Content(false, data)) == Some(data)
  {
    hide ReadHex, Content;
    EmptyReads();
    HexReadsOnto(data, "");
    assert Content(false, data) + "" == Content(false, data) && data + [] == data;
  }

  lemma QuotedText(text: string)
    requires ReadChars(text).Some?
    ensures ReadDatum("\"" + text + "\"") == Some(TextString(ReadChars(text).value))
  {
    hide ReadChars;
    var s := "\"" + text + "\"";
    assert s[0] == '\"' && s[1..|s| - 1] == text;
  }

  lemma QuotedBytes(text: string)
    requires ReadHex(text).Some?
    ensures ReadDatum("h'" + text + "\'") == Some(ByteString(ReadHex(text).value))
  {
    hide ReadHex;
    var s := "h'" + text + "\'";
    assert s[0] == 'h' && s[1] == '\'' && s[2..|s| - 1] == text;
  }

  /** Digits and a sign are no float. */
  lemma NoFloat(s: string)
    requires s != "" && forall i :: 0 <= i < |s| ==> IsDigit(s[i]) || s[i] == '-'
    requires |s| == 1 ==> IsDigit(s[0])
    requires |s| > 1 ==> IsDigit(s[1])
    ensures !FloatDigits(s) && !NamesNonFinite(s)
  {
    assert '.' !in s && 'e' !in s && 'E' !in s;
  }

  lemma NumberReads(n: nat)
    ensures ReadDatum(Decimal(n)) == Some(Number(n))
  {
    hide Decimal, ReadDecimal, FloatDigits, NamesNonFinite;
    DecimalReads(n);
    DecimalValue(n);
    NoFloat(Decimal(n));
  }

  lemma NegativeReads(n: nat)
    ensures ReadDatum("-" + Decimal(n)) == Some(Number(0 - n))
  {
    hide Decimal, ReadDecimal, FloatDigits, NamesNonFinite;
    DecimalReads(n);
    DecimalValue(n);
    var s := "-" + Decimal(n);
    assert s[1..] == Decimal(n) && s[0] == '-';
    NoFloat(s);
  }

  lemma SimpleReads(n: nat)
    ensures ReadDatum(SimpleName(n)) == Some(SimpleValue(n)) && |SimpleName(n)| == SimpleLen(n)
  {
    hide Decimal, ReadDecimal;
    if 20 <= n <= 23 {
      NamedSimple();
    } else {
      WordSimple(n);
    }
  }

  lemma NamedSimple()
    ensures ReadDatum("false") == Some(SimpleValue(20)) && ReadDatum("true") == Some(SimpleValue(21))
    ensures ReadDatum("null") == Some(SimpleValue(22)) && ReadDatum("undefined") == Some(SimpleValue(23))
  {
    assert "false"[0] == 'f' && "true"[0] == 't' && "null"[0] == 'n' && "undefined"[0] == 'u';
  }

  lemma WordSimple(n: nat)
    ensures var s := "simple(" + Decimal(n) + ")"; ReadDatum(s) == Some(SimpleValue(n)) && |s| == 8 + DigitCount(n)
  {
    hide Decimal, ReadDecimal;
    DecimalReads(n);
    DecimalCount(n);
    var s := "simple(" + Decimal(n) + ")";
    assert s[0] == 's' && s[..7] == "simple(" && s[7..|s| - 1] == Decimal(n);
  }

  /** A scalar that fits its buffer reads back as what it is. */
  lemma ScalarReads(lc: Libc, s: Scalar, cap: nat)
    requires WfScalar(s) && PrintsFloats(lc) && ScalarLen(lc, s) < cap
    ensures var t := ScalarText(lc, s, cap);
      |t| == ScalarLen(lc, s) && ReadDatum(t) == Some(Meaning(lc, s))
      && (ScalarKind(s) == Str <==> Meaning(lc, s).TextString?)
  {
    hide Content, Decimal, SimpleName, ReadDatum, DataLen, ReadChars, ReadHex, DigitCount;
    match s
    case Int(negative, _, n) =>
      if negative { NegativeReads(n + 1); DecimalCount(n + 1); } else { NumberReads(n); DecimalCount(n); }
    case String(text, body) => StringReads(lc, text, body, cap);
    case Simple(n) => SimpleReads(n);
    case SimpleByte(n) => WordSimple(n);
    case Float(w, bits) => FloatReads(lc, w, bits);
  }

  lemma DataOfIs(body: Body)
    ensures DataOf(body) == BodyData(body)
  {
    if body.Run? { JoinedIsData(body.chunks); }
  }

  lemma StringReads(lc: Libc, text: bool, body: Body, cap: nat)
    requires (if text then 2 else 3) + DataLen(text, DataOf(body)) < cap
    ensures var s := String(text, body);
      && ScalarText(lc, s, cap) == (if text then "\"" else "h'") + Content(text, DataOf(body)) + (if text then "\"" else "\'")
      && |ScalarText(lc, s, cap)| == (if text then 2 else 3) + DataLen(text, DataOf(body))
      && ReadDatum(ScalarText(lc, s, cap)) == Some(Meaning(lc, s))
  {
    hide Content, ReadDatum, DataLen, ReadChars, ReadHex, DataOf;
    DataOfIs(body);
    var data := DataOf(body);
    ContentLength(text, data);
    if text {
      TextReads(data);
      QuotedText(Content(true, data));
    } else {
      BytesRead(data);
      QuotedBytes(Content(false, data));
    }
  }

  lemma FloatReads(lc: Libc, w: Width, bits: nat)
    requires PrintsFloats(lc) && w in {W2, W4, W8}
    ensures ReadDatum(lc.floatText(ByteCount(w), bits)) == Some(FloatNumber(lc.floatText(ByteCount(w), bits)))
  {
    hide FloatDigits, NamesNonFinite, NonFinite;
  }

  // ----- keys

  function KeyLen(lc: Libc, s: Scalar): nat {
    if s.String? && s.text then DataLen(true, DataOf(s.body)) else ScalarLen(lc, s)
  }

  /** What a key column says of a map key: the text itself, or a value in diagnostic notation. */
  predicate KeyMatches(lc: Libc, key: string, s: Scalar) {
    if s.String? && s.text then ReadChars(key) == Some(Chars(DataOf(s.body))) else ReadDatum(key) == Some(Meaning(lc, s))
  }

  lemma KeyReads(lc: Libc, s: Scalar)
    requires WfScalar(s) && PrintsFloats(lc) && KeyLen(lc, s) < KEY_LEN
    ensures KeyMatches(lc, KeyText(lc, s), s)
  {
    hide Content, ReadDatum, DataLen, ReadChars, DataOf, ScalarText, ScalarLen, Meaning;
    if s.String? && s.text {
      DataOfIs(s.body);
      TextReads(DataOf(s.body));
      ContentLength(true, DataOf(s.body));
    } else {
      ScalarReads(lc, s, KEY_LEN);
    }
  }

  // ----- tags

  function Parens(k: nat): (r: string)
    ensures |r| == k && forall i :: 0 <= i < k ==> r[i] == ')'
  {
    seq(k, _ => ')')
  }

  function DigitRun(s: string): (k: nat)
    ensures k <= |s| && (forall i :: 0 <= i < k ==> IsDigit(s[i])) && (k < |s| ==> !IsDigit(s[k]))
  {
    if s == "" || !IsDigit(s[0]) then 0 else 1 + DigitRun(s[1..])
  }

  /** Tag numbers, each followed by an opening parenthesis, and what they are on. */
  function SplitTags(s: string): (r: (seq<nat>, string))
    ensures |r.1| <= |s|
    decreases |s|
  {
    var k := DigitRun(s);
    if k < |s| && s[k] == '(' && ReadDecimal(s[..k]).Some? then
      var r := SplitTags(s[k + 1..]);
      ([ReadDecimal(s[..k]).value] + r.0, r.1)
    else ([], s)
  }

  function TagText(ns: seq<nat>): string {
    if ns == [] then "" else Decimal(ns[0]) + ("(" + TagText(ns[1..]))
  }

  function TagLen(ns: seq<nat>): nat {
    if ns == [] then 0 else DigitCount(ns[0]) + 1 + TagLen(ns[1..])
  }

  lemma {:induction false} TagTextSnoc(ns: seq<nat>, n: nat)
    ensures TagText(ns + [n]) == TagText(ns) + Decimal(n) + "("
    ensures TagLen(ns + [n]) == TagLen(ns) + DigitCount(n) + 1
  {
    hide Decimal, DigitCount;
    assert (ns + [n])[0] == if ns == [] then n else ns[0];
    if ns == [] {
      assert [n][1..] == [];
      assert "(" + "" == "(" && "" + Decimal(n) + "(" == Decimal(n) + "(";
    } else {
      assert (ns + [n])[1..] == ns[1..] + [n];
      TagTextSnoc(ns[1..], n);
      Assoc(TagText(ns[1..]), Decimal(n), "(");
      Assoc("(", TagText(ns[1..]), Decimal(n) + "(");
      Assoc(Decimal(ns[0]), "(" + TagText(ns[1..]), Decimal(n) + "(");
      Assoc(TagText(ns), Decimal(n), "(");
    }
  }

  lemma {:induction false} TagTextLength(ns: seq<nat>)
    ensures |TagText(ns)| == TagLen(ns)
    ensures forall i :: 0 <= i < |TagText(ns)| ==> IsDigit(TagText(ns)[i]) || TagText(ns)[i] == '('
    ensures ns != [] ==> TagText(ns) != "" && IsDigit(TagText(ns)[0]) && '(' in TagText(ns)
  {
    hide Decimal, DigitCount;
    if ns != [] {
      TagTextLength(ns[1..]);
      DecimalCount(ns[0]);
      DecimalValue(ns[0]);
      assert TagText(ns)[|Decimal(ns[0])|] == '(';
    }
  }

  lemma {:induction false} DigitRunIs(a: string, b: string)
    requires AllDigits(a) && (b == "" || !IsDigit(b[0]))
    ensures DigitRun(a + b) == |a|
  {
    if a == "" {
      assert a + b == b;
    } else {
      assert (a + b)[1..] == a[1..] + b;
      DigitRunIs(a[1..], b);
    }
  }

  /** Nothing that starts like a tag. */
  predicate Untagged(core: string) { core == "" || !IsDigit(core[0]) || '(' !in core }

  lemma UntaggedSplits(core: string)
    requires Untagged(core)
    ensures SplitTags(core) == ([], core)
  {
    var k := DigitRun(core);
    if k < |core| && core[k] == '(' && k == 0 { EmptyIsNoNumber(); assert core[..0] == ""; }
  }

  lemma EmptyIsNoNumber()
    ensures ReadDecimal("") == None
  {
  }

  lemma {:induction false} TagsSplit(ns: seq<nat>, core: string)
    requires Untagged(core)
    ensures SplitTags(TagText(ns) + core) == (ns, core)
  {
    hide Decimal, ReadDecimal, Untagged, SplitTags;
    if ns == [] {
      UntaggedSplits(core);
      assert "" + core == core;
    } else {
      var d, rest := Decimal(ns[0]), TagText(ns[1..]) + core;
      TagsSplit(ns[1..], core);
      DecimalValue(ns[0]);
      DecimalReads(ns[0]);
      Assoc("(", TagText(ns[1..]), core);
      Assoc(d, "(" + TagText(ns[1..]), core);
      OneTagSplit(d, ns[0], rest);
      assert ns == [ns[0]] + ns[1..];
    }
  }

  lemma OneTagSplit(d: string, n: nat, rest: string)
    requires AllDigits(d) && ReadDecimal(d) == Some(n)
    ensures SplitTags(d + ("(" + rest)) == ([n] + SplitTags(rest).0, SplitTags(rest).1)
  {
    hide ReadDecimal;
    DigitRunIs(d, "(" + rest);
    var s := d + ("(" + rest);
    assert s[|d|] == '(' && s[..|d|] == d && s[|d| + 1..] == rest;
  }

  // ----- whole items

  /** What the lines of an item say. */
  datatype Display =
    | OneDatum(datum: Datum)
    | TagOn(n: nat, item: Display)
    | Many(isMap: bool, open: bool, members: seq<Member>)

  datatype Member = Member(key: string, item: Display)

  function Wrap(ns: seq<nat>, d: Display): Display {
    if ns == [] then d else TagOn(ns[0], Wrap(ns[1..], d))
  }

  /** A value column: tags, a datum, and a closing parenthesis for each tag. */
  function DecodeValue(kind: Kind, val: string): Option<Display> {
    var (ns, core) := SplitTags(val);
    if |core| < |ns| || core[|core| - |ns|..] != Parens(|ns|) then None
    else
      var d := ReadDatum(core[..|core| - |ns|]);
      if d.None? || (d.value.TextString? <==> kind != Str) then None else Some(Wrap(ns, OneDatum(d.value)))
  }

  /** The opening and closing columns of an array or map; '_' marks an indefinite length. */
  function DecodeBracket(open: string, close: string, members: seq<Member>): Option<Display> {
    var (ns, core) := SplitTags(open);
    if (core == "{" || core == "{_") && close == "}" + Parens(|ns|) then Some(Wrap(ns, Many(true, |core| == 2, members)))
    else if (core == "[" || core == "[_") && close == "]" + Parens(|ns|) then Some(Wrap(ns, Many(false, |core| == 2, members)))
    else None
  }

  function Decode(o: Outline): Option<Display>
    decreases o, 1
  {
    match o
    case Value(kind, val) => DecodeValue(kind, val)
    case Bracket(open, close, parts) =>
      var ms := DecodeParts(parts);
      if ms.None? then None else DecodeBracket(open, close, ms.value)
  }

  function DecodeParts(ps: seq<Part>): (r: Option<seq<Member>>)
    ensures r.Some? ==> |r.value| == |ps|
    decreases ps, 0
  {
    if ps == [] then Some([])
    else
      var init, last := DecodeParts(ps[..|ps| - 1]), DecodePart(ps[|ps| - 1]);
      if init.None? || last.None? then None else Some(init.value + [last.value])
  }

  function DecodePart(p: Part): Option<Member>
    decreases p, 2
  {
    var d := Decode(p.body);
    if d.None? then None else Some(Member(p.key, d.value))
  }

  /** The display says what the item is. */
  predicate Matches(lc: Libc, d: Display, it: Item)
    decreases it
  {
    match it
    case Leaf(s) => d == OneDatum(Meaning(lc, s))
    case Tagged(_, n, item) => d.TagOn? && d.n == n && Matches(lc, d.item, item)
    case Container(isMap, length, es) =>
      && d.Many? && d.isMap == isMap && (d.open <==> length.Open?) && |d.members| == |es|
      && forall i :: 0 <= i < |es| ==> MatchesEntry(lc, d.members[i], es[i])
  }

  predicate MatchesEntry(lc: Libc, m: Member, e: Entry)
    decreases e
  {
    (if e.key.Some? then KeyMatches(lc, m.key, e.key.value) else m.key == "") && Matches(lc, m.item, e.value)
  }

  /** The lines read as the item, whatever else there is to read. */
  predicate Displays(lc: Libc, ls: seq<Line>, it: Item) {
    Seen(ls).Some? && Decode(Seen(ls).value).Some? && Matches(lc, Decode(Seen(ls).value).value, it)
  }

  // ----- which items are shown uncut

  /** Every value with its tags, and every key, fits its column; `used` characters are taken by
      the tags around the item. */
  predicate FitsColumns(lc: Libc, it: Item, used: nat)
    decreases it
  {
    match it
    case Leaf(s) => used + ScalarLen(lc, s) < 272
    case Tagged(_, n, item) => FitsColumns(lc, item, used + DigitCount(n) + 2)
    case Container(_, _, es) => used + 2 < 272 && forall i :: 0 <= i < |es| ==> EntryFits(lc, es[i])
  }

  predicate EntryFits(lc: Libc, e: Entry)
    decreases e
  {
    (e.key.Some? ==> KeyLen(lc, e.key.value) < 128) && FitsColumns(lc, e.value, 0)
  }

  // ----- the columns of an item

  function SeenItem(lc: Libc, it: Item, prefix: string, tags: nat): Outline
    decreases it, 1
  {
    match it
    case Leaf(s) => Value(ScalarKind(s), LeafLine(lc, s, "", prefix, tags, 0, "").val)
    case Tagged(_, n, item) => SeenItem(lc, item, prefix + Decimal(n) + "(", tags + 1)
    case Container(isMap, length, es) =>
      Bracket(OpenLine(isMap, length, "", prefix, 0, "").val, CloseLine(isMap, tags, 0, "").val, SeenEntries(lc, isMap, es))
  }

  function SeenEntries(lc: Libc, isMap: bool, es: seq<Entry>): (r: seq<Part>)
    ensures |r| == |es|
    decreases es, 0
  {
    if es == [] then [] else SeenEntries(lc, isMap, es[..|es| - 1]) + [SeenEntry(lc, isMap, es[|es| - 1])]
  }

  function SeenEntry(lc: Libc, isMap: bool, e: Entry): Part
    decreases e, 2
  {
    Part(if isMap && e.key.Some? then KeyText(lc, e.key.value) else "", SeenItem(lc, e.value, "", 0))
  }

  lemma DatumUntagged(t: string, k: nat)
    requires ReadDatum(t).Some?
    ensures Untagged(t + Parens(k)) && t != ""
  {
    hide ReadChars, ReadHex, DigitsValue;
    if FloatDigits(t) || (IsDigit(t[0]) && !NamesNonFinite(t)) {
      NoParenIn(t);
      assert '(' !in t + Parens(k);
    } else {
      assert (t + Parens(k))[0] == t[0];
    }
  }

  lemma NoParenIn(t: string)
    requires ReadDatum(t).Some? && t != "" && (FloatDigits(t) || (IsDigit(t[0]) && !NamesNonFinite(t)))
    ensures '(' !in t
  {
    hide ReadChars, ReadHex, DigitsValue;
  }

  lemma {:induction false} RepeatIsParens(k: nat)
    ensures Repeat(')', k) == Parens(k)
  {
    if k > 0 {
      RepeatIsParens(k - 1);
      assert Parens(k) == Parens(k - 1) + [')'];
    }
  }

  lemma ValueDecodes(kind: Kind, ns: seq<nat>, text: string, d: Datum)
    requires ReadDatum(text) == Some(d) && (kind == Str <==> d.TextString?)
    ensures DecodeValue(kind, TagText(ns) + (text + Parens(|ns|))) == Some(Wrap(ns, OneDatum(d)))
  {
    hide ReadDatum, SplitTags, TagText, Untagged, Wrap;
    DatumUntagged(text, |ns|);
    TagsSplit(ns, text + Parens(|ns|));
    SplitConcat(text, Parens(|ns|));
  }

  lemma LeafVal(lc: Libc, s: Scalar, prefix: string, tags: nat)
    requires |prefix| + |ScalarText(lc, s, VAL_LEN)| + tags < VAL_LEN
    ensures LeafLine(lc, s, "", prefix, tags, 0, "").val == prefix + ScalarText(lc, s, VAL_LEN) + Parens(tags)
  {
    hide ScalarText, CloseAll, Repeat, ScalarNumeric;
    TagsShownIffFitting(prefix, ScalarText(lc, s, VAL_LEN), tags, VAL_LEN);
    RepeatIsParens(tags);
  }

  /** The value column of a tagged scalar that fits. */
  lemma LeafColumn(lc: Libc, s: Scalar, ns: seq<nat>)
    requires WfScalar(s) && PrintsFloats(lc) && TagLen(ns) + |ns| + ScalarLen(lc, s) < VAL_LEN
    ensures var val := LeafLine(lc, s, "", TagText(ns), |ns|, 0, "").val;
      && val == TagText(ns) + ScalarText(lc, s, VAL_LEN) + Parens(|ns|)
      && DecodeValue(ScalarKind(s), val) == Some(Wrap(ns, OneDatum(Meaning(lc, s))))
  {
    hide *;
    var text := ScalarText(lc, s, VAL_LEN);
    ScalarReads(lc, s, VAL_LEN);
    TagTextLength(ns);
    LeafVal(lc, s, TagText(ns), |ns|);
    ValueDecodes(ScalarKind(s), ns, text, Meaning(lc, s));
    Assoc(TagText(ns), text, Parens(|ns|));
  }

  /** The bracket itself, without its tags. */
  function BracketText(isMap: bool, length: Length): string {
    if length.Open? then (if isMap then "{_" else "[_") else if isMap then "{" else "["
  }

  lemma BracketDecodes(isMap: bool, length: Length, ns: seq<nat>, close: string, members: seq<Member>)
    requires close == (if isMap then "}" else "]") + Parens(|ns|)
    ensures DecodeBracket(TagText(ns) + BracketText(isMap, length), close, members)
      == Some(Wrap(ns, Many(isMap, length.Open?, members)))
  {
    hide SplitTags, TagText, Wrap;
    TagsSplit(ns, BracketText(isMap, length));
  }

  lemma BracketStarts(isMap: bool, length: Length, ns: seq<nat>)
    ensures var open := TagText(ns) + BracketText(isMap, length);
      ('{' in open <==> isMap) && !StartsClosing(open) && |open| == TagLen(ns) + |BracketText(isMap, length)|
  {
    hide TagText, TagLen;
    TagTextLength(ns);
    var core := BracketText(isMap, length);
    var open := TagText(ns) + core;
    assert open[|TagText(ns)|] == core[0];
    assert ns == [] ==> TagText(ns) == "" by { NoTags(); }
    if ns == [] { assert open == core; } else { assert open[0] == TagText(ns)[0]; }
  }

  lemma NoTags()
    ensures TagText([]) == ""
  {
  }

  lemma BracketColumns(isMap: bool, length: Length, ns: seq<nat>, members: seq<Member>)
    requires TagLen(ns) + |ns| + 2 < VAL_LEN
    ensures var open, close := OpenLine(isMap, length, "", TagText(ns), 0, "").val, CloseLine(isMap, |ns|, 0, "").val;
      && ('{' in open <==> isMap) && !StartsClosing(open) && StartsClosing(close)
      && open == TagText(ns) + BracketText(isMap, length)
      && close == (if isMap then "}" else "]") + Parens(|ns|)
      && DecodeBracket(open, close, members) == Some(Wrap(ns, Many(isMap, length.Open?, members)))
  {
    hide *;
    BracketStarts(isMap, length, ns);
    TagTextLength(ns);
    BracketVals(isMap, length, TagText(ns), |ns|);
    BracketDecodes(isMap, length, ns, (if isMap then "}" else "]") + Parens(|ns|), members);
  }

  lemma BracketVals(isMap: bool, length: Length, prefix: string, tags: nat)
    requires |prefix| + tags + 2 < VAL_LEN
    ensures var open, close := OpenLine(isMap, length, "", prefix, 0, "").val, CloseLine(isMap, tags, 0, "").val;
      && open == prefix + BracketText(isMap, length) && |BracketText(isMap, length)| <= 2
      && close == (if isMap then "}" else "]") + Parens(tags) && StartsClosing(close)
  {
    hide Repeat;
    RepeatIsParens(tags);
    BracketJoined(isMap, length, prefix);
  }

  lemma BracketJoined(isMap: bool, length: Length, prefix: string)
    ensures prefix + (if isMap then "{" else "[") + (if length.Open? then "_" else "") == prefix + BracketText(isMap, length)
  {
    Assoc(prefix, if isMap then "{" else "[", if length.Open? then "_" else "");
  }

  // ----- the rows are the outline's

  lemma {:induction false} PartsRowsSnoc(ps: seq<Part>, p: Part, isMap: bool, i: nat, depth: nat, path: string)
    ensures PartsRows(ps + [p], isMap, i, depth, path)
      == PartsRows(ps, isMap, i, depth, path) + PartRows(p, isMap, i + |ps|, depth, path)
  {
    hide PartRows;
    assert (ps + [p])[0] == if ps == [] then p else ps[0];
    var last := PartRows(p, isMap, i + |ps|, depth, path);
    if ps == [] {
      assert [p][1..] == [];
      assert [] + last == last == last + [];
    } else {
      assert (ps + [p])[1..] == ps[1..] + [p];
      PartsRowsSnoc(ps[1..], p, isMap, i + 1, depth, path);
      Assoc(PartRows(ps[0], isMap, i, depth, path), PartsRows(ps[1..], isMap, i + 1, depth, path), last);
    }
  }

  lemma {:induction false} AtLeastOneLineEach(lc: Libc, isMap: bool, es: seq<Entry>, depth: nat, path: string)
    ensures |EntriesLines(lc, isMap, es, depth, path)| >= |es|
  {
    hide EntryLines;
    if es != [] { AtLeastOneLineEach(lc, isMap, es[..|es| - 1], depth, path); }
  }

  lemma SmallIndex(i: nat)
    requires i < MAX_LINES
    ensures Clip(Decimal(i), KEY_LEN) == Decimal(i)
  {
    assert Pow10(4) == 10000;
    DecimalLength(i, 4);
  }

  lemma LeafRows(lc: Libc, s: Scalar, key: string, ns: seq<nat>, depth: nat, path: string)
    requires |key| < KEY_LEN && |path| < PATH_LEN
    ensures Rows([LeafLine(lc, s, key, TagText(ns), |ns|, depth, path)])
      == RowsOf(SeenItem(lc, Leaf(s), TagText(ns), |ns|), key, depth, path)
  {
    hide ScalarText, CloseAll, TagText, ScalarNumeric;
  }

  lemma {:induction false} ItemRows(lc: Libc, it: Item, key: string, ns: seq<nat>, depth: nat, path: string)
    requires WfItem(it) && FitsColumns(lc, it, TagLen(ns) + |ns|) && |key| < KEY_LEN && |path| < PATH_LEN
    requires |ItemLines(lc, it, key, TagText(ns), |ns|, depth, path)| < MAX_LINES
    ensures Rows(ItemLines(lc, it, key, TagText(ns), |ns|, depth, path))
      == RowsOf(SeenItem(lc, it, TagText(ns), |ns|), key, depth, path)
    decreases it, 1
  {
    hide LeafLine, OpenLine, CloseLine, TagText, TagLen, DigitCount, Decimal, PartsRows;
    match it
    case Leaf(s) => LeafRows(lc, s, key, ns, depth, path);
    case Tagged(_, n, item) =>
      TagTextSnoc(ns, n);
      ItemRows(lc, item, key, ns + [n], depth, path);
    case Container(isMap, length, es) =>
      EntriesRows(lc, isMap, es, depth + 1, path);
      ContainerRows(lc, it, key, ns, depth, path);
  }

  lemma ContainerRows(lc: Libc, it: Item, key: string, ns: seq<nat>, depth: nat, path: string)
    requires it.Container? && TagLen(ns) + |ns| + 2 < VAL_LEN && |key| < KEY_LEN && |path| < PATH_LEN
    requires Rows(EntriesLines(lc, it.isMap, it.entries, depth + 1, path))
      == PartsRows(SeenEntries(lc, it.isMap, it.entries), it.isMap, 0, depth + 1, path)
    ensures Rows(ItemLines(lc, it, key, TagText(ns), |ns|, depth, path))
      == RowsOf(SeenItem(lc, it, TagText(ns), |ns|), key, depth, path)
  {
    hide TagText, TagLen, PartsRows, EntriesLines, SeenEntries, Repeat, BracketText;
    BracketColumns(it.isMap, it.length, ns, []);
    var open := OpenLine(it.isMap, it.length, key, TagText(ns), depth, path);
    var close := CloseLine(it.isMap, |ns|, depth, path);
    var body := EntriesLines(lc, it.isMap, it.entries, depth + 1, path);
    RowsConcat([open] + body, [close]);
    RowsConcat([open], body);
  }

  lemma {:induction false} EntriesRows(lc: Libc, isMap: bool, es: seq<Entry>, depth: nat, path: string)
    requires (forall i :: 0 <= i < |es| ==> WfEntry(isMap, es[i]) && EntryFits(lc, es[i])) && |path| < PATH_LEN
    requires |EntriesLines(lc, isMap, es, depth, path)| < MAX_LINES
    ensures Rows(EntriesLines(lc, isMap, es, depth, path)) == PartsRows(SeenEntries(lc, isMap, es), isMap, 0, depth, path)
    decreases es, 0
  {
    hide EntryLines, SeenEntry, PartRows, WfEntry, EntryFits, MarkLast;
    if es != [] {
      var n := |es| - 1;
      EntriesRows(lc, isMap, es[..n], depth, path);
      AtLeastOneLineEach(lc, isMap, es, depth, path);
      EntryRows(lc, isMap, es[n], n, depth, path);
      var init := EntriesLines(lc, isMap, es[..n], depth, path);
      RowsConcat(MarkLast(init), EntryLines(lc, isMap, es[n], n, depth, path));
      RowsMarked(init);
      PartsRowsSnoc(SeenEntries(lc, isMap, es[..n]), SeenEntry(lc, isMap, es[n]), isMap, 0, depth, path);
    } else {
      NoRows(isMap, depth, path);
    }
  }

  lemma NoRows(isMap: bool, depth: nat, path: string)
    ensures Rows([]) == PartsRows([], isMap, 0, depth, path)
  {
  }

  lemma {:induction false} EntryRows(lc: Libc, isMap: bool, e: Entry, i: nat, depth: nat, path: string)
    requires WfEntry(isMap, e) && EntryFits(lc, e) && |path| < PATH_LEN && i < MAX_LINES
    requires |EntryLines(lc, isMap, e, i, depth, path)| < MAX_LINES
    ensures Rows(EntryLines(lc, isMap, e, i, depth, path)) == PartRows(SeenEntry(lc, isMap, e), isMap, i, depth, path)
    decreases e, 2
  {
    hide ItemLines, SeenItem, RowsOf, KeyText, Decimal, PathPush, Reached;
    SmallIndex(i);
    var seg := if isMap then KeyText(lc, e.key.value) else Decimal(i);
    ReachedIsPushed(path, seg);
    NoTags();
    ItemRows(lc, e.value, if isMap then seg else "", [], depth, PathPush(path, seg));
  }

  // ----- and they say what the item is

  function Ideal(lc: Libc, it: Item): Display
    decreases it, 1
  {
    match it
    case Leaf(s) => OneDatum(Meaning(lc, s))
    case Tagged(_, n, item) => TagOn(n, Ideal(lc, item))
    case Container(isMap, length, es) => Many(isMap, length.Open?, IdealEntries(lc, isMap, es))
  }

  function IdealEntries(lc: Libc, isMap: bool, es: seq<Entry>): (r: seq<Member>)
    ensures |r| == |es| && forall i :: 0 <= i < |es| ==> r[i] == IdealEntry(lc, isMap, es[i])
    decreases es, 0
  {
    if es == [] then [] else IdealEntries(lc, isMap, es[..|es| - 1]) + [IdealEntry(lc, isMap, es[|es| - 1])]
  }

  function IdealEntry(lc: Libc, isMap: bool, e: Entry): Member
    decreases e, 2
  {
    Member(if isMap && e.key.Some? then KeyText(lc, e.key.value) else "", Ideal(lc, e.value))
  }

  lemma {:induction false} WrapSnoc(ns: seq<nat>, n: nat, d: Display)
    ensures Wrap(ns + [n], d) == Wrap(ns, TagOn(n, d))
  {
    assert (ns + [n])[0] == if ns == [] then n else ns[0];
    if ns == [] {
      assert [n][1..] == [];
    } else {
      assert (ns + [n])[1..] == ns[1..] + [n];
      WrapSnoc(ns[1..], n, d);
    }
  }

  lemma {:induction false} ItemDecodes(lc: Libc, it: Item, ns: seq<nat>)
    requires WfItem(it) && PrintsFloats(lc) && FitsColumns(lc, it, TagLen(ns) + |ns|)
    ensures var o := SeenItem(lc, it, TagText(ns), |ns|); Shaped(o) && Decode(o) == Some(Wrap(ns, Ideal(lc, it)))
    decreases it, 1
  {
    hide LeafLine, OpenLine, CloseLine, TagText, TagLen, DigitCount, Decimal, DecodeValue, DecodeBracket, PrintsFloats, Wrap;
    hide WfScalar, ScalarLen, Meaning, StartsClosing;
    match it
    case Leaf(s) => LeafColumn(lc, s, ns);
    case Tagged(_, n, item) =>
      TagTextSnoc(ns, n);
      WrapSnoc(ns, n, Ideal(lc, item));
      ItemDecodes(lc, item, ns + [n]);
    case Container(isMap, length, es) =>
      EntriesDecode(lc, isMap, es);
      BracketColumns(isMap, length, ns, IdealEntries(lc, isMap, es));
  }

  lemma {:induction false} EntriesDecode(lc: Libc, isMap: bool, es: seq<Entry>)
    requires PrintsFloats(lc) && forall i :: 0 <= i < |es| ==> WfEntry(isMap, es[i]) && EntryFits(lc, es[i])
    ensures var ps := SeenEntries(lc, isMap, es);
      && (forall i :: 0 <= i < |ps| ==> ShapedPart(ps[i], isMap))
      && DecodeParts(ps) == Some(IdealEntries(lc, isMap, es))
    decreases es, 0
  {
    hide SeenEntry, ShapedPart, WfEntry, EntryFits, PrintsFloats, IdealEntry, DecodePart;
    if es != [] {
      var n := |es| - 1;
      EntriesDecode(lc, isMap, es[..n]);
      EntryDecodes(lc, isMap, es[n]);
      SplitConcat(SeenEntries(lc, isMap, es[..n]), [SeenEntry(lc, isMap, es[n])]);
    }
  }

  lemma {:induction false} EntryDecodes(lc: Libc, isMap: bool, e: Entry)
    requires PrintsFloats(lc) && WfEntry(isMap, e) && EntryFits(lc, e)
    ensures var p := SeenEntry(lc, isMap, e);
      ShapedPart(p, isMap) && DecodePart(p) == Some(IdealEntry(lc, isMap, e))
    decreases e, 2
  {
    hide SeenItem, Ideal, KeyText, PrintsFloats;
    NoTags();
    ItemDecodes(lc, e.value, []);
  }

  lemma {:induction false} IdealMatches(lc: Libc, it: Item, used: nat)
    requires WfItem(it) && PrintsFloats(lc) && FitsColumns(lc, it, used)
    ensures Matches(lc, Ideal(lc, it), it)
    decreases it
  {
    hide PrintsFloats, WfScalar, ScalarLen, DigitCount, Meaning;
    match it
    case Leaf(s) =>
    case Tagged(_, n, item) => IdealMatches(lc, item, used + DigitCount(n) + 2);
    case Container(isMap, _, es) =>
      forall i | 0 <= i < |es|
        ensures MatchesEntry(lc, IdealEntry(lc, isMap, es[i]), es[i])
      {
        assert WfEntry(isMap, es[i]) && EntryFits(lc, es[i]);
        EntryMatches(lc, isMap, es[i]);
      }
  }

  lemma {:induction false} EntryMatches(lc: Libc, isMap: bool, e: Entry)
    requires WfEntry(isMap, e) && PrintsFloats(lc) && EntryFits(lc, e)
    ensures MatchesEntry(lc, IdealEntry(lc, isMap, e), e)
    decreases e
  {
    hide PrintsFloats, WfScalar, KeyLen, KeyText, KeyMatches;
    if e.key.Some? { KeyReads(lc, e.key.value); }
    IdealMatches(lc, e.value, 0);
  }

  /** The lines of an item that fits its columns and the table read as that item. */
  lemma ItemIsDisplayed(lc: Libc, it: Item)
    requires WfItem(it) && PrintsFloats(lc) && FitsColumns(lc, it, 0) && |Render(lc, it)| < MAX_LINES
    ensures Displays(lc, Render(lc, it), it)
  {
    hide ItemLines, FitsColumns, PrintsFloats, WfItem, Seen, Decode, Matches, SeenItem, Ideal, Rows;
    NoTags();
    ItemRows(lc, it, "", [], 0, "");
    ItemDecodes(lc, it, []);
    IdealMatches(lc, it, 0);
    SeenBack(Render(lc, it), SeenItem(lc, it, "", 0));
  }

  // ----- commas

  /** Commas stand between the entries of a container and nowhere else, in the lines of every
      item, cut or not. */
  lemma {:induction false} ItemCommas(lc: Libc, it: Item, key: string, prefix: string, tags: nat, depth: nat, path: string)
    requires !StartsClosing(prefix)
    ensures WholeItems(ItemLines(lc, it, key, prefix, tags, depth, path))
    decreases it, 1
  {
    hide LeafLine, OpenLine, CloseLine, Decimal, WholeItems, StartsClosing, EntriesLines;
    match it
    case Leaf(s) => LeafIsOne(lc, s, key, prefix, tags, depth, path);
    case Tagged(_, n, item) =>
      PrefixStarts(prefix, n);
      ItemCommas(lc, item, key, prefix + Decimal(n) + "(", tags + 1, depth, path);
    case Container(isMap, length, es) =>
      EntriesCommas(lc, isMap, es, depth + 1, path);
      BracketLinesStand(isMap, length, key, prefix, tags, depth, path);
      WholeBracketed(OpenLine(isMap, length, key, prefix, depth, path), EntriesLines(lc, isMap, es, depth + 1, path),
                     CloseLine(isMap, tags, depth, path));
  }

  lemma LeafIsOne(lc: Libc, s: Scalar, key: string, prefix: string, tags: nat, depth: nat, path: string)
    ensures WholeItems([LeafLine(lc, s, key, prefix, tags, depth, path)])
  {
    hide ScalarText, CloseAll, Clip, ScalarNumeric, WholeItems;
    WholeOne(LeafLine(lc, s, key, prefix, tags, depth, path));
  }

  lemma PrefixStarts(prefix: string, n: nat)
    requires !StartsClosing(prefix)
    ensures !StartsClosing(prefix + Decimal(n) + "(")
  {
    var s := prefix + Decimal(n) + "(";
    assert s[0] == if prefix == "" then Decimal(n)[0] else prefix[0];
  }

  lemma BracketLinesStand(isMap: bool, length: Length, key: string, prefix: string, tags: nat, depth: nat, path: string)
    requires !StartsClosing(prefix)
    ensures var open, close := OpenLine(isMap, length, key, prefix, depth, path), CloseLine(isMap, tags, depth, path);
      OpensBracket(open) && !open.comma && EndsBracket(close) && !close.comma
  {
    hide Repeat;
    var open := prefix + (if isMap then "{" else "[") + (if length.Open? then "_" else "");
    assert open[0] == if prefix == "" then (if isMap then '{' else '[') else prefix[0];
    assert Clip(open, VAL_LEN)[0] == open[0];
    var close := (if isMap then "}" else "]") + Repeat(')', tags);
    assert Clip(close, VAL_LEN)[0] == close[0];
  }

  lemma {:induction false} EntriesCommas(lc: Libc, isMap: bool, es: seq<Entry>, depth: nat, path: string)
    ensures es == [] ==> EntriesLines(lc, isMap, es, depth, path) == []
    ensures es != [] ==> WholeItems(EntriesLines(lc, isMap, es, depth, path))
    decreases es, 0
  {
    hide EntryLines, WholeItems, MarkLast;
    if es != [] {
      var n := |es| - 1;
      var init, last := EntriesLines(lc, isMap, es[..n], depth, path), EntryLines(lc, isMap, es[n], n, depth, path);
      EntriesCommas(lc, isMap, es[..n], depth, path);
      EntryCommas(lc, isMap, es[n], n, depth, path);
      if n == 0 {
        NothingMarked();
        assert [] + last == last;
      } else {
        WholeJoined(init, last);
      }
    }
  }

  lemma NothingMarked()
    ensures MarkLast([]) == []
  {
  }

  lemma {:induction false} EntryCommas(lc: Libc, isMap: bool, e: Entry, i: nat, depth: nat, path: string)
    ensures WholeItems(EntryLines(lc, isMap, e, i, depth, path))
    decreases e, 2
  {
    hide ItemLines, WholeItems, KeyText, Decimal, PathPush, Clip;
    var seg := if e.key.Some? then KeyText(lc, e.key.value) else Clip(Decimal(i), KEY_LEN);
    ItemCommas(lc, e.value, if isMap then seg else "", "", 0, depth, PathPush(path, seg));
  }

  // ----- the numeric mark

  /** A line is marked as a number exactly when its column shows one: an integer or a finite
      float, or a quoted text whose inside is a number to strtod. */
  predicate NumberMarked(lc: Libc, l: Line) {
    l.numeric <==>
      match l.kind
      case Punct => false
      case Str => |l.val| >= 2 && l.val[0] == l.val[|l.val| - 1] == '\"' && lc.IsNumber(l.val[1..|l.val| - 1])
      case Atom => FloatDigits(l.val) || (ReadDatum(l.val).Some? && ReadDatum(l.val).value.Number?)
  }

  lemma {:induction false} ItemNumbers(lc: Libc, it: Item, key: string, ns: seq<nat>, depth: nat, path: string)
    requires WfItem(it) && PrintsFloats(lc) && FitsColumns(lc, it, TagLen(ns) + |ns|)
    ensures forall l :: l in ItemLines(lc, it, key, TagText(ns), |ns|, depth, path) ==> NumberMarked(lc, l)
    decreases it, 1
  {
    hide LeafLine, TagText, TagLen, DigitCount, Decimal, PrintsFloats, WfScalar, ScalarLen, Repeat;
    match it
    case Leaf(s) => LeafNumber(lc, s, key, ns, depth, path);
    case Tagged(_, n, item) =>
      TagTextSnoc(ns, n);
      ItemNumbers(lc, item, key, ns + [n], depth, path);
    case Container(isMap, length, es) =>
      EntriesNumbers(lc, isMap, es, depth + 1, path);
  }

  lemma {:induction false} EntriesNumbers(lc: Libc, isMap: bool, es: seq<Entry>, depth: nat, path: string)
    requires PrintsFloats(lc) && forall i :: 0 <= i < |es| ==> WfEntry(isMap, es[i]) && EntryFits(lc, es[i])
    ensures forall l :: l in EntriesLines(lc, isMap, es, depth, path) ==> NumberMarked(lc, l)
    decreases es, 0
  {
    hide EntryLines, WfEntry, EntryFits, PrintsFloats, NumberMarked, MarkLast;
    if es != [] {
      var n := |es| - 1;
      var init := EntriesLines(lc, isMap, es[..n], depth, path);
      EntriesNumbers(lc, isMap, es[..n], depth, path);
      EntryNumbers(lc, isMap, es[n], n, depth, path);
      MarkedNumbers(lc, init);
    }
  }

  lemma MarkedNumbers(lc: Libc, ls: seq<Line>)
    requires forall l :: l in ls ==> NumberMarked(lc, l)
    ensures forall l :: l in MarkLast(ls) ==> NumberMarked(lc, l)
  {
    hide ReadDatum, FloatDigits;
    forall l | l in MarkLast(ls)
      ensures NumberMarked(lc, l)
    {
      var k :| 0 <= k < |ls| && MarkLast(ls)[k] == l;
      assert ls[k].(comma := l.comma) == l && ls[k] in ls;
    }
  }

  lemma {:induction false} EntryNumbers(lc: Libc, isMap: bool, e: Entry, i: nat, depth: nat, path: string)
    requires PrintsFloats(lc) && WfEntry(isMap, e) && EntryFits(lc, e)
    ensures forall l :: l in EntryLines(lc, isMap, e, i, depth, path) ==> NumberMarked(lc, l)
    decreases e, 2
  {
    hide ItemLines, KeyText, Decimal, PathPush, Clip, NumberMarked, PrintsFloats;
    var seg := if e.key.Some? then KeyText(lc, e.key.value) else Clip(Decimal(i), KEY_LEN);
    NoTags();
    ItemNumbers(lc, e.value, if isMap then seg else "", [], depth, PathPush(path, seg));
  }

  lemma LeafNumber(lc: Libc, s: Scalar, key: string, ns: seq<nat>, depth: nat, path: string)
    requires WfScalar(s) && PrintsFloats(lc) && TagLen(ns) + |ns| + ScalarLen(lc, s) < VAL_LEN
    ensures NumberMarked(lc, LeafLine(lc, s, key, TagText(ns), |ns|, depth, path))
  {
    hide *;
    var text := ScalarText(lc, s, VAL_LEN);
    var l := LeafLine(lc, s, key, TagText(ns), |ns|, depth, path);
    LeafColumn(lc, s, ns);
    LeafFields(lc, s, key, TagText(ns), |ns|, depth, path);
    if ns == [] {
      NoTags();
      assert "" + text + Parens(0) == text;
      PlainLeaf(lc, s, l);
    } else {
      Assoc(TagText(ns), text, Parens(|ns|));
      TaggedIsNoNumber(ns, text + Parens(|ns|));
      UnmarkedLeaf(lc, l);
    }
  }

  lemma LeafFields(lc: Libc, s: Scalar, key: string, prefix: string, tags: nat, depth: nat, path: string)
    ensures var l := LeafLine(lc, s, key, prefix, tags, depth, path);
      && l.val == LeafLine(lc, s, "", prefix, tags, 0, "").val
      && l.kind == ScalarKind(s) != Punct
      && (l.numeric <==> ScalarNumeric(lc, s, ScalarText(lc, s, VAL_LEN)) && tags == 0)
  {
    hide ScalarText, CloseAll, Clip, ScalarNumeric;
  }

  lemma UnmarkedLeaf(lc: Libc, l: Line)
    requires !l.numeric && l.kind != Punct && l.val != "" && l.val[0] != '\"'
    requires !FloatDigits(l.val) && !(ReadDatum(l.val).Some? && ReadDatum(l.val).value.Number?)
    ensures NumberMarked(lc, l)
  {
    hide FloatDigits, ReadDatum;
  }

  lemma PlainLeaf(lc: Libc, s: Scalar, l: Line)
    requires WfScalar(s) && PrintsFloats(lc) && ScalarLen(lc, s) < VAL_LEN
    requires l.val == ScalarText(lc, s, VAL_LEN) && l.kind == ScalarKind(s) && l.numeric == ScalarNumeric(lc, s, l.val)
    ensures NumberMarked(lc, l)
  {
    hide ScalarText, FloatDigits, FiniteBits, ReadDatum, PrintsFloats, ScalarLen;
    ScalarReads(lc, s, VAL_LEN);
    FloatTextIs(lc, s);
    UntaggedNumber(lc, s);
  }

  lemma FloatTextIs(lc: Libc, s: Scalar)
    requires ScalarLen(lc, s) < VAL_LEN
    ensures s.Float? ==> ScalarText(lc, s, VAL_LEN) == lc.floatText(ByteCount(s.w), s.bits)
  {
  }

  lemma UntaggedNumber(lc: Libc, s: Scalar)
    requires WfScalar(s) && PrintsFloats(lc) && ReadDatum(ScalarText(lc, s, VAL_LEN)) == Some(Meaning(lc, s))
    requires s.Float? ==> ScalarText(lc, s, VAL_LEN) == lc.floatText(ByteCount(s.w), s.bits)
    ensures var text := ScalarText(lc, s, VAL_LEN);
      ScalarKind(s) == Atom ==>
        (ScalarNumeric(lc, s, text) <==> FloatDigits(text) || (ReadDatum(text).Some? && ReadDatum(text).value.Number?))
  {
    hide ScalarText, FloatDigits, FiniteBits, NonFinite, ReadDatum;
    var text := ScalarText(lc, s, VAL_LEN);
    if s.Float? {
      FiniteIsIeee(s.w, s.bits);
      NamesAreNoDigits(text);
      assert lc.floatText(ByteCount(s.w), s.bits) == text;
    } else if FloatDigits(text) {
      FloatDigitsRead(text);
    }
  }

  lemma FloatDigitsRead(text: string)
    requires FloatDigits(text)
    ensures ReadDatum(text) == Some(FloatNumber(text))
  {
  }

  lemma NamesAreNoDigits(text: string)
    ensures NamesNonFinite(text) ==> !FloatDigits(text)
  {
    if text == "NaN" { assert text[0] == 'N'; }
    if text == "Infinity" { assert text[0] == 'I'; }
    if text == "-Infinity" { assert text[1] == 'I'; }
  }

  lemma FiniteIsIeee(w: Width, bits: nat)
    requires w in {W2, W4, W8}
    ensures FiniteBits(w, bits) <==> !NonFinite(w, bits)
  {
    Powers();
  }

  lemma Powers()
    ensures Pow2(5) == 0x20 && Pow2(8) == 0x100 && Pow2(10) == 0x400 && Pow2(11) == 0x800
    ensures Pow2(23) == 0x80_0000 && Pow2(52) == 0x10_0000_0000_0000
  {
    hide Pow2;
    SmallPowers();
    PowAdd(5, 3);
    PowAdd(5, 5);
    PowAdd(8, 3);
    PowAdd(10, 10);
    PowAdd(20, 3);
    PowAdd(20, 20);
    PowAdd(40, 10);
    PowAdd(50, 2);
  }

  lemma SmallPowers()
    ensures Pow2(2) == 4 && Pow2(3) == 8 && Pow2(5) == 0x20
  {
  }

  lemma {:induction false} PowAdd(a: nat, b: nat)
    ensures Pow2(a + b) == Pow2(a) * Pow2(b)
  {
    if b > 0 { PowAdd(a, b - 1); }
  }

  /** A column with a tag is neither quoted nor a number. */
  lemma TaggedIsNoNumber(ns: seq<nat>, rest: string)
    requires ns != []
    ensures var val := TagText(ns) + rest;
      val != "" && val[0] != '\"' && !FloatDigits(val) && !(ReadDatum(val).Some? && ReadDatum(val).value.Number?)
  {
    hide TagText, ReadDecimal;
    TagTextLength(ns);
    var val := TagText(ns) + rest;
    assert val[0] == TagText(ns)[0];
    var i :| 0 <= i < |TagText(ns)| && TagText(ns)[i] == '(';
    assert val[i] == '(';
    if ReadDecimal(val).Some? { DecimalIsDigits(val); }
  }

  lemma DecimalIsDigits(s: string)
    requires ReadDecimal(s).Some?
    ensures AllDigits(s)
  {
  }

  /** A table of an accepted item: commas and marks. */
  lemma ItemLinesStand(lc: Libc, it: Item)
    ensures CommasStand(Render(lc, it))
  {
    hide ItemLines;
    ItemCommas(lc, it, "", "", 0, 0, "");
  }

  lemma ItemNumbersMarked(lc: Libc, it: Item)
    requires WfItem(it) && PrintsFloats(lc) && FitsColumns(lc, it, 0)
    ensures forall l :: l in Render(lc, it) ==> NumberMarked(lc, l)
  {
    hide ItemLines, NumberMarked, PrintsFloats;
    NoTags();
    ItemNumbers(lc, it, "", [], 0, "");
  }
}
