/** C text and library calls shared by every formatter: bounded copies of
    NUL-terminated strings, decimal printing, and the two libc conversions
    that stay parameters of the model. */
module Text {

  datatype Option<+T> = None | Some(value: T)

  type byte = x: int | 0 <= x < 256

  /** The libc conversions the model does not open up.  `floatText(width, bits)`
      is the text fmt_double produces for a float of `width` bytes;
      `strtod(s)` is the finite value of `s` when strtod consumes all of it. */
  datatype Libc = Libc(floatText: (nat, nat) -> string, strtod: string -> Option<real>) {
    predicate IsNumber(s: string) { strtod(s).Some? }
  }

  function Max(a: nat, b: nat): nat { if a > b then a else b }

  /** The C string held by a buffer: everything before the first NUL. */
  function CStr(s: string): (r: string)
    ensures r <= s
    ensures forall i :: 0 <= i < |r| ==> r[i] != '\0'
    ensures |r| < |s| ==> s[|r|] == '\0'
  {
    if s == "" || s[0] == '\0' then "" else [s[0]] + CStr(s[1..])
  }

  /** util_str_copy and every other bounded writer: at most cap - 1 characters survive. */
  function Clip(s: string, cap: nat): (r: string)
    requires cap > 0
    ensures r <= s && |r| < cap
    ensures if |s| < cap then r == s else |r| == cap - 1
  {
    if |s| < cap then s else s[..cap - 1]
  }

  /** Bytes as characters of the same code. */
  function Chars(data: seq<byte>): (r: string)
    ensures |r| == |data| && forall i :: 0 <= i < |r| ==> r[i] as int == data[i]
  {
    seq(|data|, i requires 0 <= i < |data| => data[i] as char)
  }

  lemma Assoc<T>(a: seq<T>, b: seq<T>, c: seq<T>)
    ensures a + (b + c) == a + b + c
  {
  }

  lemma SplitConcat<T>(a: seq<T>, b: seq<T>)
    ensures (a + b)[..|a|] == a && (a + b)[|a|..] == b
  {
  }

  lemma SliceStep<T>(s: seq<T>, a: nat, i: nat)
    requires a <= i < |s|
    ensures s[a..i + 1] == s[a..i] + [s[i]]
    ensures s[a..i + 1][..i - a] == s[a..i]
  {
  }

  lemma SliceSplit<T>(s: seq<T>, a: nat, n: nat)
    requires a + n <= |s|
    ensures s[a..][..n] == s[a..a + n] && s[a..][n..] == s[a + n..]
  {
  }

  lemma {:induction false} CStrPlain(s: string)
    requires '\0' !in s
    ensures CStr(s) == s
  {
    if s != "" { CStrPlain(s[1..]); }
  }

  function Digit(d: nat): (c: char)
    requires d < 10
  {
    (d + '0' as int) as char
  }

  /** printf("%u"). */
  function Decimal(n: nat): (s: string)
    ensures |s| > 0
    ensures forall i :: 0 <= i < |s| ==> '0' <= s[i] <= '9'
  {
    if n < 10 then [Digit(n)] else Decimal(n / 10) + [Digit(n % 10)]
  }

  /** Two numbers never print alike. */
  lemma {:induction false} DecimalInjective(a: nat, b: nat)
    requires Decimal(a) == Decimal(b)
    ensures a == b
  {
    var s, t := Decimal(a), Decimal(b);
    assert s[|s| - 1] == Digit(a % 10) && t[|t| - 1] == Digit(b % 10);
    if a >= 10 && b >= 10 {
      assert s[..|s| - 1] == Decimal(a / 10) && t[..|t| - 1] == Decimal(b / 10);
      DecimalInjective(a / 10, b / 10);
    }
  }

  function Pow10(k: nat): (r: nat)
    ensures r > 0
  {
    if k == 0 then 1 else 10 * Pow10(k - 1)
  }

  /** A number below 10^k prints in at most k digits. */
  lemma {:induction false} DecimalLength(n: nat, k: nat)
    requires k > 0 && n < Pow10(k)
    ensures |Decimal(n)| <= k
  {
    if n >= 10 { DecimalLength(n / 10, k - 1); }
  }
}
