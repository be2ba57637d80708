/**
 * The Python string and number conversions the CSV codec is built from:
 * `str.strip()`, `str.splitlines()`, `str.split(sep)`, `sep.join(parts)`,
 * `str(int)`, `int(text)`, `str(float)` and `float(text)`.
 */
module PyText {
  import opened Common

  /** `str.isspace()` for one character: the ASCII and Unicode white space Python strips. */
  predicate IsSpace(c: char)
  {
    var n := c as int;
    n == 32 || 9 <= n <= 13 || 28 <= n <= 31 || n == 0x85 || n == 0xA0 || n == 0x1680
    || 0x2000 <= n <= 0x200A || n == 0x2028 || n == 0x2029 || n == 0x202F || n == 0x205F || n == 0x3000
  }

  /** The line boundaries of `str.splitlines()` (`\r\n` counts as one, see SplitLines). */
  predicate IsLineBreak(c: char)
  {
    var n := c as int;
    10 <= n <= 13 || 28 <= n <= 30 || n == 0x85 || n == 0x2028 || n == 0x2029
  }

  predicate IsDigit(c: char) { '0' <= c <= '9' }

  predicate AllDigits(s: string) { forall i :: 0 <= i < |s| ==> IsDigit(s[i]) }

  // ---- strip ----

  /** The first index at or after `i` that is not white space, or `|s|`. */
  function SkipSpaces(s: string, i: nat): (j: nat)
    requires i <= |s|
    ensures i <= j <= |s| && (j == |s| || !IsSpace(s[j]))
    ensures forall k :: i <= k < j ==> IsSpace(s[k])
    decreases |s| - i
  {
    if i < |s| && IsSpace(s[i]) then SkipSpaces(s, i + 1) else i
  }

  /** The end of `s[lo..j]` once its trailing white space is dropped. */
  function BackSpaces(s: string, lo: nat, j: nat): (k: nat)
    requires lo <= j <= |s|
    ensures lo <= k <= j && (k == lo || !IsSpace(s[k - 1]))
    ensures forall m :: k <= m < j ==> IsSpace(s[m])
    decreases j
  {
    if j > lo && IsSpace(s[j - 1]) then BackSpaces(s, lo, j - 1) else j
  }

  /** Where `s.strip()` starts: the length of the leading white space. */
  function StripStart(s: string): nat
  {
    SkipSpaces(s, 0)
  }

  /** Where `s.strip()` ends. */
  function StripEnd(s: string): nat
  {
    BackSpaces(s, StripStart(s), |s|)
  }

  /**
   * `s.strip()`: the stretch of `s` left once its leading and trailing white
   * space is dropped; all of `s` outside it is white space and its ends are not.
   */
  function Strip(s: string): (r: string)
    ensures StripStart(s) <= StripEnd(s) <= |s| && r == s[StripStart(s)..StripEnd(s)]
    ensures forall k :: 0 <= k < StripStart(s) ==> IsSpace(s[k])
    ensures forall k :: StripEnd(s) <= k < |s| ==> IsSpace(s[k])
    ensures r == [] || (!IsSpace(r[0]) && !IsSpace(r[|r| - 1]))
  {
    s[StripStart(s)..StripEnd(s)]
  }

  lemma NotSpace(c: char)
    requires IsDigit(c) || c == '-' || c == '+'
    ensures !IsSpace(c)
  {
  }

  /** Text that starts and ends with something other than white space is left alone. */
  lemma StripNoop(s: string)
    requires s == [] || (!IsSpace(s[0]) && !IsSpace(s[|s| - 1]))
    ensures Strip(s) == s
  {
  }

  // ---- split and join ----

  /** The first index of `c` in `s`, or `|s|`. */
  function IndexOf(s: string, c: char): (k: nat)
    ensures k <= |s| && c !in s[..k]
    ensures k < |s| ==> s[k] == c
  {
    if s == [] then 0
    else if s[0] == c then 0
    else
      var k := 1 + IndexOf(s[1..], c);
      assert s[..k] == [s[0]] + s[1..][..k - 1];
      k
  }

  /** `sep.join(parts)` for a one-character separator. */
  function Join(parts: seq<string>, sep: char): string
  {
    if parts == [] then ""
    else if |parts| == 1 then parts[0]
    else parts[0] + [sep] + Join(parts[1..], sep)
  }

  /** `s.split(sep)`: the pieces between occurrences of `sep`, never an empty list. */
  function Split(s: string, sep: char): (r: seq<string>)
    ensures |r| >= 1
    decreases |s|
  {
    var k := IndexOf(s, sep);
    if k == |s| then [s]
    else [s[..k]] + Split(s[k + 1..], sep)
  }

  /** A split that finds the separator: the piece before it, then the split of the rest. */
  lemma SplitUnfold(s: string, sep: char)
    requires IndexOf(s, sep) < |s|
    ensures Split(s, sep) == [s[..IndexOf(s, sep)]] + Split(s[IndexOf(s, sep) + 1..], sep)
  {
  }

  /** No piece of a split contains the separator. */
  lemma {:induction false} SplitAvoids(s: string, sep: char)
    ensures forall k :: 0 <= k < |Split(s, sep)| ==> sep !in Split(s, sep)[k]
    decreases |s|
  {
    var k := IndexOf(s, sep);
    if k < |s| {
      SplitAvoids(s[k + 1..], sep);
      var rest := Split(s[k + 1..], sep);
      assert Split(s, sep) == [s[..k]] + rest;
    }
  }

  /** Joining the pieces with the separator gives the text back. */
  lemma {:induction false} JoinSplit(s: string, sep: char)
    ensures Join(Split(s, sep), sep) == s
    decreases |s|
  {
    var k := IndexOf(s, sep);
    if k == |s| {
      assert s[..k] == s;
    } else {
      var head, rest := s[..k], s[k + 1..];
      var parts := Split(rest, sep);
      JoinSplit(rest, sep);
      SplitUnfold(s, sep);
      JoinCons(head, parts, sep);
      assert s == head + [sep] + rest;
    }
  }

  lemma JoinCons(head: string, parts: seq<string>, sep: char)
    requires |parts| >= 1
    ensures Join([head] + parts, sep) == head + [sep] + Join(parts, sep)
  {
    var all := [head] + parts;
    assert all[0] == head && all[1..] == parts;
  }

  /** Splitting a join gives the parts back when no part contains the separator. */
  lemma {:induction false} SplitJoin(parts: seq<string>, sep: char)
    requires |parts| >= 1
    requires forall k :: 0 <= k < |parts| ==> sep !in parts[k]
    ensures Split(Join(parts, sep), sep) == parts
    decreases |parts|
  {
    var s := Join(parts, sep);
    if |parts| == 1 {
      assert s[..|s|] == s;
      IndexOfAbsent(s, sep);
    } else {
      var p := parts[0];
      assert s == p + [sep] + Join(parts[1..], sep);
      IndexOfAt(s, p, sep);
      assert s[|p| + 1..] == Join(parts[1..], sep);
      assert s[..|p|] == p;
      SplitJoin(parts[1..], sep);
    }
  }

  /** Joining two non-empty lists of parts puts one separator between their joins. */
  lemma {:induction false} JoinAppend(a: seq<string>, b: seq<string>, sep: char)
    requires |a| >= 1 && |b| >= 1
    ensures Join(a + b, sep) == Join(a, sep) + [sep] + Join(b, sep)
    decreases |a|
  {
    assert (a + b)[0] == a[0];
    assert (a + b)[1..] == a[1..] + b;
    if |a| > 1 {
      JoinAppend(a[1..], b, sep);
    }
  }

  /** One more piece than there are separators. */
  lemma {:induction false} SplitCount(s: string, sep: char)
    ensures |Split(s, sep)| == multiset(s)[sep] + 1
    decreases |s|
  {
    var k := IndexOf(s, sep);
    if k == |s| {
      assert s[..k] == s;
    } else {
      var rest := s[k + 1..];
      SplitCount(rest, sep);
      CountAfter(s, k, sep);
      assert Split(s, sep) == [s[..k]] + Split(rest, sep);
    }
  }

  lemma CountAfter(s: string, k: nat, c: char)
    requires k < |s| && s[k] == c && c !in s[..k]
    ensures multiset(s)[c] == multiset(s[k + 1..])[c] + 1
  {
    assert s == s[..k] + [s[k]] + s[k + 1..];
    assert multiset(s) == multiset(s[..k]) + multiset([s[k]]) + multiset(s[k + 1..]);
  }

  /** A separator that occurs cuts the text into at least two pieces. */
  lemma SplitFound(s: string, sep: char)
    requires sep in s
    ensures |Split(s, sep)| >= 2
  {
    assert s[..|s|] == s;
  }

  lemma IndexOfFound(s: string, c: char)
    requires c in s
    ensures IndexOf(s, c) < |s|
  {
    assert s[..|s|] == s;
  }

  /** The first `c` is the one with no `c` before it. */
  lemma IndexOfUnique(s: string, c: char, k: nat)
    requires k < |s| && s[k] == c && c !in s[..k]
    ensures IndexOf(s, c) == k
  {
  }

  lemma IndexOfAbsent(s: string, c: char)
    requires c !in s
    ensures IndexOf(s, c) == |s|
  {
  }

  lemma {:induction false} IndexOfAt(s: string, p: string, c: char)
    requires c !in p && |p| < |s| && s[..|p|] == p && s[|p|] == c
    ensures IndexOf(s, c) == |p|
    decreases |p|
  {
    if p != [] {
      assert s[1..][..|p| - 1] == p[1..];
      IndexOfAt(s[1..], p[1..], c);
    }
  }

  // ---- splitlines ----

  /** The first line boundary at or after `i`, or `|s|`. */
  function LineEnd(s: string, i: nat): (k: nat)
    requires i <= |s|
    ensures i <= k <= |s|
    ensures forall j :: i <= j < k ==> !IsLineBreak(s[j])
    ensures k < |s| ==> IsLineBreak(s[k])
    decreases |s| - i
  {
    if i == |s| || IsLineBreak(s[i]) then i else LineEnd(s, i + 1)
  }

  /**
   * `s.splitlines()`: the lines, boundaries dropped, `\r\n` one boundary,
   * no empty line after a final boundary.
   */
  function SplitLines(s: string): (r: seq<string>)
    ensures forall k, j :: 0 <= k < |r| && 0 <= j < |r[k]| ==> !IsLineBreak(r[k][j])
    decreases |s|
  {
    if s == [] then []
    else
      var i := LineEnd(s, 0);
      if i == |s| then [s]
      else
        var next := if s[i] == '\r' && i + 1 < |s| && s[i + 1] == '\n' then i + 2 else i + 1;
        [s[..i]] + SplitLines(s[next..])
  }

  predicate NoLineBreak(s: string) { forall j :: 0 <= j < |s| ==> !IsLineBreak(s[j]) }

  /** `"\n".join(lines).splitlines()` gives the lines back when none is empty or holds a boundary. */
  lemma {:induction false} SplitLinesJoin(lines: seq<string>)
    requires forall k :: 0 <= k < |lines| ==> lines[k] != [] && NoLineBreak(lines[k])
    ensures SplitLines(Join(lines, '\n')) == lines
    decreases |lines|
  {
    var s := Join(lines, '\n');
    if |lines| == 1 {
      LineEndAbsent(s, 0);
    } else if |lines| > 1 {
      var p := lines[0];
      assert s == p + ['\n'] + Join(lines[1..], '\n');
      LineEndAt(s, p);
      var rest := Join(lines[1..], '\n');
      JoinNonEmpty(lines[1..], '\n');
      assert rest != [];
      assert s[|p| + 1..] == rest;
      assert s[..|p|] == p;
      if |p| + 1 < |s| {
        assert s[|p| + 1] == rest[0];
        assert rest[0] == lines[1][0];
      }
      SplitLinesJoin(lines[1..]);
    }
  }

  lemma JoinNonEmpty(parts: seq<string>, sep: char)
    requires |parts| >= 1 && parts[0] != []
    ensures Join(parts, sep) != [] && Join(parts, sep)[0] == parts[0][0]
  {
  }

  lemma {:induction false} LineEndAbsent(s: string, i: nat)
    requires i <= |s| && NoLineBreak(s)
    ensures LineEnd(s, i) == |s|
    decreases |s| - i
  {
    if i < |s| {
      LineEndAbsent(s, i + 1);
    }
  }

  lemma LineEndAt(s: string, p: string)
    requires NoLineBreak(p) && |p| < |s| && s[..|p|] == p && IsLineBreak(s[|p|])
    ensures LineEnd(s, 0) == |p|
  {
  }

  // ---- integers ----

  function DigitChar(d: nat): (c: char)
    requires d < 10
    ensures IsDigit(c)
  {
    ('0' as int + d) as char
  }

  function DigitValue(c: char): nat
    requires IsDigit(c)
  {
    c as int - '0' as int
  }

  /** The decimal digits of `n`, most significant first, no leading zero. */
  function FormatNat(n: nat): (s: string)
    ensures |s| >= 1 && AllDigits(s)
    ensures |s| > 1 ==> s[0] != '0'
  {
    if n < 10 then [DigitChar(n)] else FormatNat(n / 10) + [DigitChar(n % 10)]
  }

  /** The number a string of decimal digits denotes (leading zeros allowed). */
  function DigitsValue(s: string): nat
    requires AllDigits(s)
  {
    if s == [] then 0 else DigitsValue(s[..|s| - 1]) * 10 + DigitValue(s[|s| - 1])
  }

  lemma {:induction false} DigitsValueOfFormat(n: nat)
    ensures DigitsValue(FormatNat(n)) == n
  {
    if n >= 10 {
      var s := FormatNat(n);
      assert s[..|s| - 1] == FormatNat(n / 10);
      DigitsValueOfFormat(n / 10);
    }
  }

  function Pow10(k: nat): (p: nat)
    ensures p >= 1
  {
    if k == 0 then 1 else 10 * Pow10(k - 1)
  }

  function Zeros(k: nat): (s: string)
    ensures |s| == k && AllDigits(s)
  {
    if k == 0 then [] else Zeros(k - 1) + ['0']
  }

  lemma {:induction false} DigitsValueZeros(k: nat, s: string)
    requires AllDigits(s)
    ensures AllDigits(Zeros(k) + s) && DigitsValue(Zeros(k) + s) == DigitsValue(s)
    decreases |s|
  {
    if s == [] {
      assert Zeros(k) + s == Zeros(k);
      ZerosValue(k);
    } else {
      var t := Zeros(k) + s;
      assert t[..|t| - 1] == Zeros(k) + s[..|s| - 1];
      DigitsValueZeros(k, s[..|s| - 1]);
    }
  }

  lemma {:induction false} ZerosValue(k: nat)
    ensures DigitsValue(Zeros(k)) == 0
  {
    if k > 0 {
      assert Zeros(k)[..k - 1] == Zeros(k - 1);
      ZerosValue(k - 1);
    }
  }

  /** `str(i)`. */
  function FormatInt(i: int): string
  {
    if i < 0 then "-" + FormatNat(-i) else FormatNat(i)
  }

  /** The value of an optional sign followed by decimal digits, if that is what `t` is. */
  function SignedDigits(t: string): Option<int>
  {
    if t != [] && (t[0] == '-' || t[0] == '+') then
      var d := t[1..];
      if d != [] && AllDigits(d) then
        var v: int := DigitsValue(d);
        Some(if t[0] == '-' then -v else v)
      else None
    else if t != [] && AllDigits(t) then Some(DigitsValue(t))
    else None
  }

  /** `int(s)`: surrounding white space, an optional sign, then at least one decimal digit. */
  function ParseInt(s: string): (r: Option<int>)
    ensures r.Some? ==> exists k :: 0 <= k < |s| && IsDigit(s[k])
  {
    var t := Strip(s);
    var r := SignedDigits(t);
    if r.Some? then
      SignedDigitsLast(t);
      var k := StripEnd(s) - 1;
      assert s[k] == t[|t| - 1];
      r
    else r
  }

  lemma SignedDigitsLast(t: string)
    requires SignedDigits(t).Some?
    ensures t != [] && IsDigit(t[|t| - 1])
  {
    if t[0] == '-' || t[0] == '+' {
      assert t[|t| - 1] == t[1..][|t| - 2];
    }
  }

  /** A sign and a run of digits: the sign applies to the digits' value. */
  lemma SignedDigitsOf(t: string, body: string, negative: bool)
    requires body != [] && AllDigits(body)
    requires t == (if negative then "-" else "") + body
    ensures SignedDigits(t) == Some(if negative then -(DigitsValue(body) as int) else DigitsValue(body))
  {
    if negative {
      assert t[0] == '-' && t[1..] == body;
    } else {
      assert t == body;
      assert IsDigit(t[0]);
      assert t[0] != '-' && t[0] != '+';
    }
  }

  /** `int(str(i)) == i`. */
  lemma ParseFormatInt(i: int)
    ensures ParseInt(FormatInt(i)) == Some(i)
  {
    var n: nat := if i < 0 then -i else i;
    var negative := i < 0;
    var body := FormatNat(n);
    var text := FormatInt(i);
    assert text == (if negative then "-" else "") + body;
    DigitsValueOfFormat(n);
    assert text[|text| - 1] == body[|body| - 1];
    assert text[0] == '-' || text[0] == body[0];
    NotSpace(text[0]);
    NotSpace(text[|text| - 1]);
    StripNoop(text);
    SignedDigitsOf(text, body, negative);
  }

  // ---- floats ----

  /**
   * A float, held as the digits of its decimal form: the number
   * `digits / 10^places`. Python prints a float in its shortest form, with
   * at least one fraction digit and no trailing zero after the first one;
   * `Canonical` says a `Float` is in that form.
   */
  datatype Float = Float(digits: int, places: nat)

  function Value(x: Float): real
    decreases x.places
  {
    if x.places == 0 then x.digits as real else Value(Float(x.digits, x.places - 1)) / 10.0
  }

  predicate Canonical(x: Float)
  {
    x.places >= 1 && (x.places == 1 || x.digits % 10 != 0)
  }

  /** The same number in canonical form: trailing zeros dropped, one fraction digit kept. */
  function Normalize(x: Float): (r: Float)
    ensures Canonical(r)
    ensures Canonical(x) ==> r == x
    decreases x.places
  {
    if x.places == 0 then Float(x.digits * 10, 1)
    else if x.places > 1 && x.digits % 10 == 0 then Normalize(Float(x.digits / 10, x.places - 1))
    else x
  }

  /** Ten times the digits at one more place is the same number. */
  lemma {:induction false} ValueTenfold(q: int, k: nat)
    ensures Value(Float(10 * q, k + 1)) == Value(Float(q, k))
  {
    if k > 0 {
      ValueTenfold(q, k - 1);
    }
  }

  /** Normalizing does not change the number. */
  lemma {:induction false} NormalizeValue(x: Float)
    ensures Value(Normalize(x)) == Value(x)
    decreases x.places
  {
    if x.places == 0 {
      ValueTenfold(x.digits, 0);
    } else if x.places > 1 && x.digits % 10 == 0 {
      var q := x.digits / 10;
      NormalizeValue(Float(q, x.places - 1));
      assert x.digits == 10 * q;
      ValueTenfold(q, x.places - 1);
    }
  }

  /** The digits of `n`, zero-padded to more than `places` digits. */
  function Padded(n: nat, places: nat): (s: string)
    ensures |s| > places && AllDigits(s) && DigitsValue(s) == n
  {
    var d := FormatNat(n);
    DigitsValueOfFormat(n);
    if |d| <= places then
      DigitsValueZeros(places + 1 - |d|, d);
      Zeros(places + 1 - |d|) + d
    else d
  }

  /** The unsigned text of `n / 10^places`: a point before the last `places` digits. */
  function FloatBody(n: nat, places: nat): (s: string)
    ensures s != [] && IsDigit(s[0]) && IsDigit(s[|s| - 1])
  {
    if places == 0 then FormatNat(n) + ".0"
    else
      var p := Padded(n, places);
      var cut := |p| - places;
      p[..cut] + "." + p[cut..]
  }

  /**
   * `str(x)` as a plain decimal: a sign, the integer part, a point and
   * `places` fraction digits (a single `0` when `places` is 0).
   */
  function FormatFloat(x: Float): string
  {
    (if x.digits < 0 then "-" else "") + FloatBody(if x.digits < 0 then -x.digits else x.digits, x.places)
  }

  lemma AllDigitsAppend(w: string, f: string)
    requires AllDigits(w) && AllDigits(f)
    ensures AllDigits(w + f)
  {
  }

  /**
   * Digits, an optional point and more digits, with at least one digit in
   * all: the digits read as one number and the count after the point.
   */
  function Mantissa(m: string): Option<Float>
  {
    var d := IndexOf(m, '.');
    var ip := m[..d];
    var fp := if d < |m| then m[d + 1..] else [];
    if AllDigits(ip) && AllDigits(fp) && |ip| + |fp| >= 1 then
      AllDigitsAppend(ip, fp);
      Some(Float(DigitsValue(ip + fp), |fp|))
    else None
  }

  /** `m` times ten to the power `e`, exactly. */
  function Shift(m: Float, e: int): Float
  {
    if e <= m.places then Float(m.digits, m.places - e)
    else Float(m.digits * Pow10(e - m.places), 0)
  }

  /** A mantissa, then optionally `e` or `E` and a signed exponent. */
  function Unsigned(b: string): Option<Float>
  {
    var e := Min(IndexOf(b, 'e'), IndexOf(b, 'E'));
    var m := Mantissa(b[..e]);
    if m.None? then None
    else if e == |b| then m
    else
      var x := SignedDigits(b[e + 1..]);
      if x.None? then None else Some(Shift(m.value, x.value))
  }

  /** An optional sign, then unsigned float text. */
  function SignedFloat(t: string): Option<Float>
  {
    if t != [] && (t[0] == '-' || t[0] == '+') then
      var u := Unsigned(t[1..]);
      if u.None? then None
      else if t[0] == '-' then Some(Float(-u.value.digits, u.value.places))
      else u
    else Unsigned(t)
  }

  /**
   * `float(s)` for finite decimal text: surrounding white space, an optional
   * sign, a mantissa and an optional exponent; the float is in canonical form.
   */
  function ParseFloat(s: string): (r: Option<Float>)
    ensures r.Some? ==> Canonical(r.value)
  {
    var v := SignedFloat(Strip(s));
    if v.None? then None else Some(Normalize(v.value))
  }

  lemma NoDigitIs(s: string, c: char)
    requires AllDigits(s) && !IsDigit(c)
    ensures IndexOf(s, c) == |s|
  {
    assert c !in s;
    IndexOfAbsent(s, c);
  }

  lemma {:induction false} DigitsValueAppend(w: string, f: string)
    requires AllDigits(w) && AllDigits(f)
    ensures AllDigits(w + f) && DigitsValue(w + f) == DigitsValue(w) * Pow10(|f|) + DigitsValue(f)
    decreases |f|
  {
    if f == [] {
      assert w + f == w;
    } else {
      var g := f[..|f| - 1];
      var c := f[|f| - 1];
      assert (w + f)[..|w + f| - 1] == w + g;
      assert (w + f)[|w + f| - 1] == c;
      DigitsValueAppend(w, g);
      var v := DigitsValue(w);
      var p := Pow10(|g|);
      assert Pow10(|f|) == 10 * p;
      assert DigitsValue(f) == DigitsValue(g) * 10 + DigitValue(c);
      assert DigitsValue(w + f) == DigitsValue(w + g) * 10 + DigitValue(c);
      ShiftDigit(v, p, DigitsValue(g));
    }
  }

  lemma ShiftDigit(v: int, p: int, d: int)
    ensures (v * p + d) * 10 == v * (10 * p) + d * 10
  {
  }

  lemma MantissaPlain(w: string)
    requires AllDigits(w) && |w| >= 1
    ensures Mantissa(w) == Some(Float(DigitsValue(w), 0))
  {
    NoDigitIs(w, '.');
    var d := IndexOf(w, '.');
    assert w[..d] + [] == w;
  }

  lemma MantissaPoint(w: string, f: string)
    requires AllDigits(w) && AllDigits(f) && |w| >= 1
    ensures AllDigits(w + f) && Mantissa(w + "." + f) == Some(Float(DigitsValue(w + f), |f|))
  {
    var m := w + "." + f;
    IndexOfAt(m, w, '.');
    var d := IndexOf(m, '.');
    assert d == |w|;
    assert m[..d] == w;
    assert m[d + 1..] == f;
    AllDigitsAppend(w, f);
  }

  /** The index where a mantissa ends when the text has no exponent marker. */
  lemma NoExponent(b: string)
    requires forall k :: 0 <= k < |b| ==> b[k] != 'e' && b[k] != 'E'
    ensures Min(IndexOf(b, 'e'), IndexOf(b, 'E')) == |b|
  {
    IndexOfAbsent(b, 'e');
    IndexOfAbsent(b, 'E');
  }

  /** A mantissa written with a point and no exponent reads back as its digits and places. */
  lemma UnsignedPoint(w: string, f: string)
    requires AllDigits(w) && AllDigits(f) && |w| >= 1
    ensures AllDigits(w + f) && Unsigned(w + "." + f) == Some(Float(DigitsValue(w + f), |f|))
  {
    var b := w + "." + f;
    assert forall k :: 0 <= k < |b| ==> b[k] != 'e' && b[k] != 'E';
    NoExponent(b);
    assert b[..|b|] == b;
    MantissaPoint(w, f);
  }

  /** Plain digits read back as a whole number. */
  lemma UnsignedDigits(w: string)
    requires AllDigits(w) && |w| >= 1
    ensures Unsigned(w) == Some(Float(DigitsValue(w), 0))
  {
    NoExponent(w);
    assert w[..|w|] == w;
    MantissaPlain(w);
  }

  /** A whole number's text, `n.0`, reads back as `n` with one fraction digit. */
  lemma UnsignedWholeBody(n: nat)
    ensures Unsigned(FloatBody(n, 0)) == Some(Float(n * 10, 1))
  {
    var w := FormatNat(n);
    assert FloatBody(n, 0) == w + "." + "0";
    UnsignedPoint(w, "0");
    DigitsValueAppend(w, "0");
    DigitsValueOfFormat(n);
  }

  /** Text with `places` fraction digits reads back as the digits it was written from. */
  lemma UnsignedFractionBody(n: nat, places: nat)
    requires places > 0
    ensures Unsigned(FloatBody(n, places)) == Some(Float(n, places))
  {
    var p := Padded(n, places);
    var cut := |p| - places;
    var w := p[..cut];
    var f := p[cut..];
    assert FloatBody(n, places) == w + "." + f;
    assert w + f == p;
    UnsignedPoint(w, f);
  }

  /** The unsigned text reads back as the number it was written from. */
  lemma UnsignedFloatBody(n: nat, places: nat)
    ensures Unsigned(FloatBody(n, places)) == Some(if places == 0 then Float(n * 10, 1) else Float(n, places))
  {
    if places == 0 {
      UnsignedWholeBody(n);
    } else {
      UnsignedFractionBody(n, places);
    }
  }

  /** A sign and some text that starts with a digit: the sign applies to what the text reads as. */
  lemma SignedFloatOf(t: string, body: string, negative: bool, u: Float)
    requires body != [] && IsDigit(body[0])
    requires t == (if negative then "-" else "") + body
    requires Unsigned(body) == Some(u)
    ensures SignedFloat(t) == Some(if negative then Float(-u.digits, u.places) else u)
  {
    if negative {
      assert t[0] == '-' && t[1..] == body;
    } else {
      assert t == body;
      assert IsDigit(t[0]);
      assert t[0] != '-' && t[0] != '+';
    }
  }

  /** `float` of a sign and some text that starts and ends with a digit. */
  lemma ParseFloatSigned(s: string, body: string, negative: bool, u: Float)
    requires body != [] && IsDigit(body[0]) && IsDigit(body[|body| - 1])
    requires s == (if negative then "-" else "") + body
    requires Unsigned(body) == Some(u)
    ensures ParseFloat(s) == Some(Normalize(if negative then Float(-u.digits, u.places) else u))
  {
    assert s[|s| - 1] == body[|body| - 1];
    assert s[0] == '-' || s[0] == body[0];
    NotSpace(s[0]);
    NotSpace(s[|s| - 1]);
    StripNoop(s);
    SignedFloatOf(s, body, negative, u);
  }

  /** `float(str(x))` is `x` in canonical form, so `x` itself for a float Python printed. */
  lemma ParseFormatFloat(x: Float)
    ensures ParseFloat(FormatFloat(x)) == Some(Normalize(x))
    ensures Canonical(x) ==> ParseFloat(FormatFloat(x)) == Some(x)
  {
    var n: nat := if x.digits < 0 then -x.digits else x.digits;
    var negative := x.digits < 0;
    var body := FloatBody(n, x.places);
    var text := FormatFloat(x);
    assert text == (if negative then "-" else "") + body;
    UnsignedFloatBody(n, x.places);
    var u := if x.places == 0 then Float(n * 10, 1) else Float(n, x.places);
    ParseFloatSigned(text, body, negative, u);
    var signed := if negative then Float(-u.digits, u.places) else u;
    if x.places == 0 {
      assert signed == Float(x.digits * 10, 1);
    } else {
      assert signed == x;
    }
  }

  /** `float(str(i))` for an int is `i` with one fraction digit. */
  lemma ParseFloatOfInt(i: int)
    ensures ParseFloat(FormatInt(i)) == Some(Float(i * 10, 1))
  {
    var n: nat := if i < 0 then -i else i;
    var negative := i < 0;
    var body := FormatNat(n);
    var text := FormatInt(i);
    assert text == (if negative then "-" else "") + body;
    UnsignedDigits(body);
    DigitsValueOfFormat(n);
    var u := Float(n, 0);
    assert Unsigned(body) == Some(u);
    ParseFloatSigned(text, body, negative, u);
    var signed := if negative then Float(-u.digits, u.places) else u;
    assert signed == Float(i, 0);
  }

  /** An int read as a float keeps its value. */
  lemma ValueOfInt(i: int)
    ensures Value(Float(i * 10, 1)) == i as real
  {
    ValueTenfold(i, 0);
  }
}
