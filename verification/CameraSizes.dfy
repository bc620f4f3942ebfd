/**
  Sizes as camera parameters: written as "640x480", read back with the C library's number
  parser, alone or in a comma-separated list.
 */
module CameraSizes {
  import opened CameraMap

  /* ---- Numbers as text ---- */

  predicate IsDigit(c: char) { '0' <= c <= '9' }

  predicate IsSpace(c: char) { c == ' ' || '\t' <= c <= '\r' }

  predicate AllDigits(s: string) { forall i :: 0 <= i < |s| ==> IsDigit(s[i]) }

  function DigitOf(d: nat): char
    requires d < 10
  {
    ('0' as int + d) as char
  }

  function ShowNat(n: nat): string {
    if n < 10 then [DigitOf(n)] else ShowNat(n / 10) + [DigitOf(n % 10)]
  }

  function Show(n: int): string { if n < 0 then "-" + ShowNat(-n) else ShowNat(n) }

  function Value(s: string): nat
    requires AllDigits(s)
  {
    if s == "" then 0 else 10 * Value(s[..|s| - 1]) + (s[|s| - 1] as int - '0' as int)
  }

  lemma {:induction false} ShowNatReads(n: nat)
    ensures ShowNat(n) != "" && AllDigits(ShowNat(n)) && Value(ShowNat(n)) == n
  {
    if n < 10 {
      assert ShowNat(n)[..0] == "";
    } else {
      ShowNatReads(n / 10);
      var s := ShowNat(n);
      assert s[..|s| - 1] == ShowNat(n / 10);
    }
  }

  /* ---- The C library's number parser, base 10 ---- */

  const LONG_MAX := 0x7fff_ffff_ffff_ffff

  function Clamp(v: int): int { if v > LONG_MAX then LONG_MAX else if v < -LONG_MAX - 1 then -LONG_MAX - 1 else v }

  predicate Is32(v: int) { -0x8000_0000 <= v < 0x8000_0000 }

  /** The conversion of a long to a 32-bit int. */
  function ToInt(v: int): (r: int)
    ensures Is32(r) && (r - v) % 0x1_0000_0000 == 0 && (Is32(v) ==> r == v)
  {
    (v + 0x8000_0000) % 0x1_0000_0000 - 0x8000_0000
  }

  function SkipSpaces(s: string): string { if s != "" && IsSpace(s[0]) then SkipSpaces(s[1..]) else s }

  function DigitCount(s: string): (n: nat)
    ensures n <= |s| && AllDigits(s[..n]) && (n < |s| ==> !IsDigit(s[n]))
  {
    if s == "" || !IsDigit(s[0]) then 0
    else
      var n := DigitCount(s[1..]);
      assert s[..n + 1] == [s[0]] + s[1..][..n];
      n + 1
  }

  datatype Number = Number(value: int, rest: string)

  /** The number at the start of a text and what follows it; with no number there, 0 and the
      whole text. */
  function StrToL(s: string): (r: Number)
    ensures |r.rest| <= |s|
  {
    SkipsSome(s);
    var t := SkipSpaces(s);
    var signed := t != "" && (t[0] == '-' || t[0] == '+');
    var u := if signed then t[1..] else t;
    var n := DigitCount(u);
    if n == 0 then Number(0, s)
    else
      var v: int := Value(u[..n]);
      Number(Clamp(if signed && t[0] == '-' then -v else v), u[n..])
  }

  lemma SkipsSome(s: string)
    ensures |SkipSpaces(s)| <= |s|
  {}

  lemma {:induction false} DigitsStop(d: string, rest: string)
    requires AllDigits(d) && (rest != "" ==> !IsDigit(rest[0]))
    ensures DigitCount(d + rest) == |d| && (d + rest)[..|d|] == d && (d + rest)[|d|..] == rest
  {
    if d == "" {
      assert d + rest == rest;
    } else {
      assert (d + rest)[1..] == d[1..] + rest;
      DigitsStop(d[1..], rest);
    }
  }

  predicate AllSpaces(w: string) { forall i :: 0 <= i < |w| ==> w[i] == ' ' || 9 <= w[i] as int <= 13 }

  lemma {:induction false} SpacesSkipped(w: string, s: string)
    requires AllSpaces(w) && (s == "" || !IsSpace(s[0]))
    ensures SkipSpaces(w + s) == s
  {
    if w == "" {
      assert w + s == s;
    } else {
      assert (w + s)[1..] == w[1..] + s;
      SpacesSkipped(w[1..], s);
    }
  }

  /** How a number is read: white space, a sign or none, and digits up to the first that is none;
      beyond 64 bits the nearest bound is taken. */
  lemma NumberRule(w: string, sign: string, d: string, rest: string, s: string)
    requires AllSpaces(w) && sign in {"", "+", "-"} && d != "" && AllDigits(d) && (rest != "" ==> !IsDigit(rest[0]))
    requires s == w + (sign + (d + rest))
    ensures var v := if sign == "-" then -(Value(d) as int) else Value(d);
      StrToL(s) == Number(if v > 0x7fff_ffff_ffff_ffff then 0x7fff_ffff_ffff_ffff
                          else if v < -0x8000_0000_0000_0000 then -0x8000_0000_0000_0000 else v, rest)
  {
    var u := sign + (d + rest);
    assert u[0] == if sign == "" then d[0] else sign[0];
    SpacesSkipped(w, u);
    DigitsStop(d, rest);
    if sign == "" { assert u == d + rest; } else { assert u[1..] == d + rest; }
  }

  /** Where no number starts, 0 is read and nothing is used up. */
  lemma NoNumber(s: string)
    requires s == "" || (!IsSpace(s[0]) && !IsDigit(s[0]) && s[0] != '+' && s[0] != '-')
    ensures StrToL(s) == Number(0, s)
  {
    assert SkipSpaces(s) == s;
  }

  lemma Signed(sign: string, d: string, rest: string)
    ensures (sign + d) + rest == "" + (sign + (d + rest))
  {}

  /** A printed number is read back, up to the first sign that is not a digit. */
  lemma ShowIsRead(n: int, rest: string)
    requires Is32(n) && (rest != "" ==> !IsDigit(rest[0]))
    ensures StrToL(Show(n) + rest) == Number(n, rest)
  {
    var d, sign := ShowNat(if n < 0 then -n else n), if n < 0 then "-" else "";
    ShowNatReads(if n < 0 then -n else n);
    Signed(sign, d, rest);
    assert Show(n) == sign + d;
    NumberRule("", sign, d, rest, Show(n) + rest);
  }

  /* ---- Sizes ---- */

  datatype Size = Size(width: int, height: int)

  datatype Pair = NoPair | Pair(first: int, second: int, rest: string)

  /** Two numbers with `delim` right after the first. */
  function ParsePair(s: string, delim: char): (r: Pair)
    ensures r.Pair? ==> |r.rest| < |s|
  {
    var w := StrToL(s);
    if w.rest == "" || w.rest[0] != delim then NoPair
    else
      var h := StrToL(w.rest[1..]);
      Pair(ToInt(w.value), ToInt(h.value), h.rest)
  }

  function ShowSize(z: Size): string { Show(z.width) + ("x" + Show(z.height)) }

  predicate Fits(z: Size) { Is32(z.width) && Is32(z.height) }

  lemma ShowSizeIsRead(z: Size, rest: string)
    requires Fits(z) && (rest != "" ==> !IsDigit(rest[0]))
    ensures ParsePair(ShowSize(z) + rest, 'x') == Pair(z.width, z.height, rest)
  {
    var tail := "x" + (Show(z.height) + rest);
    assert ShowSize(z) + rest == Show(z.width) + tail;
    ShowIsRead(z.width, tail);
    assert tail[1..] == Show(z.height) + rest;
    ShowIsRead(z.height, rest);
  }

  /** The sizes at the start of a list, up to its end or the first thing that is not a size. */
  function SizesOf(s: string): seq<Size>
    decreases |s|
  {
    var p := ParsePair(s, 'x');
    if p == NoPair || (p.rest != "" && p.rest[0] != ',') then []
    else [Size(p.first, p.second)] + if p.rest == "" then [] else SizesOf(p.rest[1..])
  }

  /** The loop over a list of sizes; `sizes` may already hold some. */
  method ParseSizesList(text: string, sizes: seq<Size>) returns (all: seq<Size>)
    ensures all == sizes + SizesOf(text)
  {
    all := sizes;
    var start := text;
    while true
      invariant all + SizesOf(start) == sizes + SizesOf(text)
      decreases |start|
    {
      var p := ParsePair(start, 'x');
      if p == NoPair || (p.rest != "" && p.rest[0] != ',') {
        return;
      }
      assert all + ([Size(p.first, p.second)] + if p.rest == "" then [] else SizesOf(p.rest[1..]))
        == sizes + SizesOf(text);
      all := all + [Size(p.first, p.second)];
      if p.rest == "" {
        return;
      }
      start := p.rest[1..];
    }
  }

  function ShowSizes(l: seq<Size>): string {
    if l == [] then "" else if |l| == 1 then ShowSize(l[0]) else ShowSize(l[0]) + ("," + ShowSizes(l[1..]))
  }

  /** A comma-separated list of sizes of any length is read back. */
  lemma {:induction false} SizesRoundTrip(l: seq<Size>)
    requires forall i :: 0 <= i < |l| ==> Fits(l[i])
    ensures SizesOf(ShowSizes(l)) == l
  {
    if |l| == 1 {
      ShowSizeIsRead(l[0], "");
      assert ShowSize(l[0]) + "" == ShowSizes(l);
    } else if |l| > 1 {
      SizesRoundTrip(l[1..]);
      FirstSize(l[0], ShowSizes(l[1..]), ShowSizes(l));
    }
  }

  lemma FirstSize(z: Size, more: string, s: string)
    requires Fits(z) && s == ShowSize(z) + ("," + more)
    ensures SizesOf(s) == [z] + SizesOf(more)
  {
    var rest := "," + more;
    ShowSizeIsRead(z, rest);
    assert rest[1..] == more;
  }

  /** A piece of a list that stops the reading: no size, or one with anything but a comma behind. */
  predicate Breaks(bad: string) {
    var p := ParsePair(bad, 'x');
    p == NoPair || (p.rest != "" && p.rest[0] != ',')
  }

  /** Sizes with a comma behind each. */
  function Listed(l: seq<Size>): string { if l == [] then "" else ShowSize(l[0]) + ("," + Listed(l[1..])) }

  /** A list that breaks off gives the sizes before the break. */
  lemma {:induction false} SizesUpToBreak(l: seq<Size>, bad: string)
    requires (forall i :: 0 <= i < |l| ==> Fits(l[i])) && Breaks(bad)
    ensures SizesOf(Listed(l) + bad) == l
  {
    if l == [] {
      assert Listed(l) + bad == bad;
    } else {
      SizesUpToBreak(l[1..], bad);
      FirstListed(l, bad);
    }
  }

  lemma FirstListed(l: seq<Size>, more: string)
    requires l != [] && Fits(l[0])
    ensures SizesOf(Listed(l) + more) == [l[0]] + SizesOf(Listed(l[1..]) + more)
  {
    Appended(ShowSize(l[0]), ",", Listed(l[1..]), more);
    FirstSize(l[0], Listed(l[1..]) + more, Listed(l) + more);
  }

  lemma Appended(a: string, b: string, c: string, d: string)
    ensures (a + (b + c)) + d == a + (b + (c + d))
  {}

  /** Texts that are no sizes: a number without an 'x' right behind it, and what starts with neither
      a number nor an 'x'.  An 'x' alone in front of a height is read as a width of 0. */
  lemma SizeRule(n: int, rest: string, junk: string)
    requires Is32(n) && (rest != "" ==> !IsDigit(rest[0]))
    requires junk == ""
             || (!IsSpace(junk[0]) && !IsDigit(junk[0]) && junk[0] != '+' && junk[0] != '-' && junk[0] != 'x')
    ensures (rest == "" || rest[0] != 'x') ==> ParsePair(Show(n) + rest, 'x') == NoPair
    ensures ParsePair(junk, 'x') == NoPair
    ensures ParsePair("x" + (Show(n) + rest), 'x') == Pair(0, n, rest)
  {
    ShowIsRead(n, rest);
    NoNumber(junk);
    var s := "x" + (Show(n) + rest);
    NoNumber(s);
    assert s[1..] == Show(n) + rest;
  }

  /** What is written for a size. */
  lemma SizeText()
    ensures ShowSize(Size(640, 480)) == "640x480" && ShowSize(Size(-1, 0)) == "-1x0"
  {
    assert ShowNat(64) == "64" && ShowNat(640) == "640" && ShowNat(48) == "48" && ShowNat(480) == "480";
  }

  /* ---- Sizes as parameters ---- */

  /** The size stored under a name, or -1 by -1. */
  function SizeAt(m: seq<Entry>, k: string): Size {
    var p := ParsePair(ValueFor(m, k), 'x');
    if ValueFor(m, k) == "" || p == NoPair then Size(-1, -1) else Size(p.first, p.second)
  }

  /** A missing or malformed size is -1 by -1. */
  lemma SizeMissing(m: seq<Entry>, k: string)
    requires ValueFor(m, k) == "" || ParsePair(ValueFor(m, k), 'x') == NoPair
    ensures SizeAt(m, k) == Size(-1, -1)
  {}

  lemma ShowIsSettable(n: int)
    ensures Settable(Show(n)) && Show(n) != ""
  {
    ShowNatReads(if n < 0 then -n else n);
  }

  /** The size that was set is the size that is got, and no other name's text changes. */
  lemma SizeIsGot(qcom: bool, m: seq<Entry>, k: string, z: Size, q: string)
    requires Fits(z) && Settable(k)
    ensures SizeAt(SetIn(qcom, m, k, ShowSize(z)), k) == z
    ensures q != k && q != HDR_KEY ==> ValueFor(SetIn(qcom, m, k, ShowSize(z)), q) == ValueFor(m, q)
  {
    ShowIsSettable(z.width);
    ShowIsSettable(z.height);
    SetInIsRead(qcom, m, k, ShowSize(z), k);
    SetInIsRead(qcom, m, k, ShowSize(z), q);
    ShowSizeIsRead(z, "");
    assert ShowSize(z) + "" == ShowSize(z);
  }

  method SetSize(p: Parameters, key: string, width: int, height: int)
    requires p.Valid()
    modifies p
    ensures p.Valid() && p.entries == SetIn(p.qcom, old(p.entries), key, ShowSize(Size(width, height)))
    ensures Settable(key) && Is32(width) && Is32(height) ==> SizeAt(p.entries, key) == Size(width, height)
  {
    if Settable(key) && Is32(width) && Is32(height) {
      SizeIsGot(p.qcom, p.entries, key, Size(width, height), key);
    }
    p.Set(key, ShowSize(Size(width, height)));
  }

  method GetSize(p: Parameters, key: string) returns (width: int, height: int)
    ensures Size(width, height) == SizeAt(p.entries, key)
  {
    width, height := -1, -1;
    var text := p.Get(key);
    if text == "" {
      return;
    }
    var pair := ParsePair(text, 'x');
    if pair.Pair? {
      width, height := pair.first, pair.second;
    }
  }
}
