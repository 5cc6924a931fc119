/** The handful of Python 2 `str` and `int` operations the workflow tool
    relies on, written out over `seq<char>`: decimal formatting and parsing,
    zero padding, splitting on a one-character separator, joining, escape
    removal and clamped slicing. */
module PyText {
  import opened Wrappers

  predicate IsDigit(c: char) { '0' <= c <= '9' }

  predicate AllDigits(s: string) {
    forall i :: 0 <= i < |s| ==> IsDigit(s[i])
  }

  function DigitValue(c: char): nat
    requires IsDigit(c)
  {
    c as int - '0' as int
  }

  function DigitChar(d: nat): (c: char)
    requires d < 10
    ensures IsDigit(c) && DigitValue(c) == d
  {
    ('0' as int + d) as char
  }

  /** The value of a string of decimal digits; the empty string is 0. */
  function DigitsValue(s: string): nat
    requires AllDigits(s)
    decreases |s|
  {
    if s == [] then 0 else DigitsValue(s[..|s| - 1]) * 10 + DigitValue(s[|s| - 1])
  }

  /** `str(n)` for a non-negative `n`. */
  function NatToStr(n: nat): (r: string)
    ensures |r| >= 1 && AllDigits(r)
    ensures r[0] == '0' ==> n == 0
    decreases n
  {
    if n < 10 then [DigitChar(n)] else NatToStr(n / 10) + [DigitChar(n % 10)]
  }

  lemma {:induction false} NatToStrValue(n: nat)
    ensures DigitsValue(NatToStr(n)) == n
    decreases n
  {
    if n >= 10 {
      var s := NatToStr(n);
      assert s[..|s| - 1] == NatToStr(n / 10);
      NatToStrValue(n / 10);
    }
  }

  /** `str(i)` (equivalently `'%d' % i`) for any integer. */
  function IntToStr(i: int): (r: string)
    ensures |r| >= 1
    ensures i >= 0 ==> AllDigits(r)
    ensures i < 0 ==> r[0] == '-' && AllDigits(r[1..]) && |r| >= 2
  {
    if i < 0 then "-" + NatToStr(-i) else NatToStr(i)
  }

  function Zeros(k: nat): (r: string)
    ensures |r| == k && AllDigits(r)
    ensures forall i :: 0 <= i < k ==> r[i] == '0'
  {
    seq(k, _ => '0')
  }

  function Max(a: int, b: int): int { if a < b then b else a }

  /** Python `s.zfill(w)`: pad with zeros to width `w`, after a leading sign. */
  function ZFill(s: string, w: int): (r: string)
    ensures |r| == Max(|s|, w)
  {
    if |s| >= w then s
    else if |s| > 0 && (s[0] == '-' || s[0] == '+') then [s[0]] + Zeros(w - |s|) + s[1..]
    else Zeros(w - |s|) + s
  }

  /** Python `s.rjust(w, '0')`: pad with zeros in front, ignoring any sign. */
  function RJustZero(s: string, w: int): (r: string)
    ensures |r| == Max(|s|, w)
    ensures r[|r| - |s|..] == s
  {
    if |s| >= w then s else Zeros(w - |s|) + s
  }

  lemma {:induction false} DigitsValueZerosPrefix(k: nat, s: string)
    requires AllDigits(s)
    ensures AllDigits(Zeros(k) + s)
    ensures DigitsValue(Zeros(k) + s) == DigitsValue(s)
    decreases |s|
  {
    if s == [] {
      ZerosValue(k);
      assert Zeros(k) + s == Zeros(k);
    } else {
      var t := Zeros(k) + s;
      assert t[..|t| - 1] == Zeros(k) + s[..|s| - 1];
      DigitsValueZerosPrefix(k, s[..|s| - 1]);
    }
  }

  lemma {:induction false} ZerosValue(k: nat)
    ensures DigitsValue(Zeros(k)) == 0
    decreases k
  {
    if k > 0 {
      assert Zeros(k)[..k - 1] == Zeros(k - 1);
      ZerosValue(k - 1);
    }
  }

  /** Python `int(s)` on a string: an optional sign followed by at least one
      decimal digit; anything else raises `ValueError`. */
  function ParseInt(s: string): Option<int>
  {
    if |s| > 0 && (s[0] == '-' || s[0] == '+') then
      if |s| > 1 && AllDigits(s[1..]) then
        var v: int := DigitsValue(s[1..]);
        Some(if s[0] == '-' then -v else v)
      else None
    else if |s| > 0 && AllDigits(s) then Some(DigitsValue(s))
    else None
  }

  /** A Python value handed to `int()`: `None`, a string or an integer. */
  datatype PyVal = PyNone | PyStr(s: string) | PyInt(i: int)

  /** Python truthiness: `None`, `""` and `0` are false. */
  predicate Truthy(v: PyVal) {
    match v
    case PyNone => false
    case PyStr(s) => s != ""
    case PyInt(i) => i != 0
  }

  /** `int(v) if v else None`; `Err` where `int()` raises `ValueError`. */
  function IntOrNone(v: PyVal): (r: Result<Option<int>>)
    ensures r == Ok(None) <==> !Truthy(v)
    ensures v.PyInt? ==> r.Ok?
    ensures r.Ok? && r.value.Some? ==> r.value.value != 0 || v.PyStr?
  {
    match v
    case PyNone => Ok(None)
    case PyInt(i) => if i == 0 then Ok(None) else Ok(Some(i))
    case PyStr(s) =>
      if s == "" then Ok(None)
      else match ParseInt(s)
        case None => Err("invalid literal for int()")
        case Some(n) => Ok(Some(n))
  }

  /** Formatting an integer and parsing it back gives the integer again. */
  lemma IntToStrRoundTrip(i: int)
    ensures ParseInt(IntToStr(i)) == Some(i)
  {
    if i < 0 {
      var t := NatToStr(-i);
      assert IntToStr(i) == "-" + t;
      assert ("-" + t)[1..] == t;
      NatToStrValue(-i);
      var v: int := DigitsValue(t);
      assert ParseInt("-" + t) == Some(-v);
    } else {
      var t := NatToStr(i);
      assert IsDigit(t[0]);
      NatToStrValue(i);
      assert ParseInt(t) == Some(DigitsValue(t));
    }
  }

  /** A range end stored as a string reads back as the same integer, even `"0"`. */
  lemma IntOrNoneOfStr(i: int)
    ensures IntOrNone(PyStr(IntToStr(i))) == Ok(Some(i))
  {
    IntToStrRoundTrip(i);
  }

  /** Zero padding by `zfill` never changes the value `int()` reads back. */
  lemma ZFillRoundTrip(i: int, w: int)
    ensures ParseInt(ZFill(IntToStr(i), w)) == Some(i)
  {
    var s := IntToStr(i);
    IntToStrRoundTrip(i);
    if |s| < w {
      if i < 0 {
        ZFillNegative(s, w);
      } else {
        DigitsValueZerosPrefix(w - |s|, s);
      }
    }
  }

  lemma ZFillNegative(s: string, w: int)
    requires |s| >= 2 && s[0] == '-' && AllDigits(s[1..]) && |s| < w
    ensures ParseInt(ZFill(s, w)) == ParseInt(s)
  {
    var r := ZFill(s, w);
    var z := Zeros(w - |s|);
    var t := s[1..];
    assert r == ['-'] + (z + t);
    assert r[1..] == z + t;
    DigitsValueZerosPrefix(w - |s|, t);
    var v: int := DigitsValue(t);
    assert ParseInt(s) == Some(-v);
    assert ParseInt(r) == Some(-v);
  }

  /** Index of the first `c` in `s`. */
  function IndexOf(s: string, c: char): (k: nat)
    requires c in s
    ensures k < |s| && s[k] == c && c !in s[..k]
  {
    if s[0] == c then 0 else 1 + IndexOf(s[1..], c)
  }

  /** Python `s.find(c)`: the first index of `c`, or -1. */
  function Find(s: string, c: char): (k: int)
    ensures k == -1 <==> c !in s
    ensures k >= 0 ==> k < |s| && s[k] == c && c !in s[..k]
  {
    if c in s then IndexOf(s, c) else -1
  }

  /** Python `s.split(c)` for a single-character separator. */
  function Split(s: string, c: char): (r: seq<string>)
    ensures |r| >= 1
    ensures forall i :: 0 <= i < |r| ==> c !in r[i]
    decreases |s|
  {
    if c !in s then [s]
    else
      var k := IndexOf(s, c);
      [s[..k]] + Split(s[k + 1..], c)
  }

  /** Python `c.join(parts)`. */
  function Join(parts: seq<string>, c: char): string
    decreases |parts|
  {
    if |parts| == 0 then ""
    else if |parts| == 1 then parts[0]
    else parts[0] + [c] + Join(parts[1..], c)
  }

  /** Splitting and re-joining on the same separator gives back the string. */
  lemma {:induction false} JoinSplit(s: string, c: char)
    ensures Join(Split(s, c), c) == s
    decreases |s|
  {
    if c in s {
      var k := IndexOf(s, c);
      var rest := Split(s[k + 1..], c);
      assert Split(s, c) == [s[..k]] + rest;
      JoinSplit(s[k + 1..], c);
      assert Split(s, c)[1..] == rest;
      assert s == s[..k] + [c] + s[k + 1..];
    }
  }

  /** Joining pieces free of the separator and splitting again gives back the pieces. */
  lemma {:induction false} SplitJoin(parts: seq<string>, c: char)
    requires |parts| >= 1
    requires forall i :: 0 <= i < |parts| ==> c !in parts[i]
    ensures Split(Join(parts, c), c) == parts
    decreases |parts|
  {
    if |parts| > 1 {
      var s := Join(parts, c);
      var tail := Join(parts[1..], c);
      assert s == parts[0] + [c] + tail;
      assert c in s by { assert s[|parts[0]|] == c; }
      IndexOfAfterFree(parts[0], [c] + tail, c);
      assert s[|parts[0]| + 1..] == tail;
      assert s[..|parts[0]|] == parts[0];
      SplitJoin(parts[1..], c);
    }
  }

  lemma IndexOfAfterFree(a: string, b: string, c: char)
    requires c !in a && |b| > 0 && b[0] == c
    ensures c in a + b && IndexOf(a + b, c) == |a|
  {
    var s := a + b;
    assert s[|a|] == c;
  }

  /** Splitting after a separator-free head peels off that head. */
  lemma SplitCons(a: string, rest: string, c: char)
    requires c !in a
    ensures Split(a + [c] + rest, c) == [a] + Split(rest, c)
  {
    var s := a + [c] + rest;
    assert a + ([c] + rest) == s;
    IndexOfAfterFree(a, [c] + rest, c);
    assert Split(s, c) == [s[..|a|]] + Split(s[|a| + 1..], c);
    assert s[..|a|] == a;
    assert s[|a| + 1..] == rest;
  }

  /** Python `s.replace('\\' + ch, ch)`: a left-to-right, non-overlapping scan. */
  function Unescape(s: string, ch: char): (r: string)
    ensures |r| <= |s|
    decreases |s|
  {
    if |s| == 0 then ""
    else if |s| >= 2 && s[0] == '\\' && s[1] == ch then [ch] + Unescape(s[2..], ch)
    else [s[0]] + Unescape(s[1..], ch)
  }

  /** A string without `ch` has nothing to unescape. */
  lemma {:induction false} UnescapeWithout(s: string, ch: char)
    requires ch !in s
    ensures Unescape(s, ch) == s
    decreases |s|
  {
    if |s| > 0 {
      assert ch !in s[1..] by { assert forall i :: 0 <= i < |s| - 1 ==> s[1..][i] == s[i + 1]; }
      UnescapeWithout(s[1..], ch);
    }
  }

  /** Unescaping distributes over a concatenation whose seam is not an escape. */
  lemma {:induction false} UnescapeConcat(x: string, y: string, ch: char)
    requires |x| == 0 || |y| == 0 || x[|x| - 1] != '\\' || y[0] != ch
    ensures Unescape(x + y, ch) == Unescape(x, ch) + Unescape(y, ch)
    decreases |x|
  {
    if |x| == 0 {
      assert x + y == y;
    } else if |x| >= 2 && x[0] == '\\' && x[1] == ch {
      UnescapeEscaped(x, y, ch);
      UnescapeConcat(x[2..], y, ch);
      ConcatAssoc([ch], Unescape(x[2..], ch), Unescape(y, ch));
    } else {
      UnescapePlain(x, y, ch);
      UnescapeConcat(x[1..], y, ch);
      ConcatAssoc([x[0]], Unescape(x[1..], ch), Unescape(y, ch));
    }
  }

  /** An escape at the head is unescaped on its own. */
  lemma UnescapeEscaped(x: string, y: string, ch: char)
    requires |x| >= 2 && x[0] == '\\' && x[1] == ch
    ensures Unescape(x + y, ch) == [ch] + Unescape(x[2..] + y, ch)
    ensures Unescape(x, ch) == [ch] + Unescape(x[2..], ch)
  {
    assert (x + y)[2..] == x[2..] + y;
  }

  /** A head character that does not start an escape is kept. */
  lemma UnescapePlain(x: string, y: string, ch: char)
    requires |x| >= 1 && !(|x| >= 2 && x[0] == '\\' && x[1] == ch)
    requires |x| == 1 ==> |y| == 0 || x[0] != '\\' || y[0] != ch
    ensures Unescape(x + y, ch) == [x[0]] + Unescape(x[1..] + y, ch)
    ensures Unescape(x, ch) == [x[0]] + Unescape(x[1..], ch)
  {
    assert (x + y)[1..] == x[1..] + y;
    assert |x| == 1 && |y| > 0 ==> (x + y)[1] == y[0];
  }

  lemma ConcatAssoc<T>(a: seq<T>, b: seq<T>, c: seq<T>)
    ensures a + (b + c) == (a + b) + c
  {
  }

  /** A string without a backslash has nothing to unescape either. */
  lemma {:induction false} UnescapeNoBackslash(s: string, ch: char)
    requires '\\' !in s
    ensures Unescape(s, ch) == s
    decreases |s|
  {
    if |s| > 0 {
      assert '\\' !in s[1..] by { assert forall i :: 0 <= i < |s| - 1 ==> s[1..][i] == s[i + 1]; }
      UnescapeNoBackslash(s[1..], ch);
    }
  }

  /** ASCII lower-casing, as Python 2 `str.lower()` does for bytes. */
  function Lower(s: string): (r: string)
    ensures |r| == |s|
    ensures forall i :: 0 <= i < |s| && 'A' <= s[i] <= 'Z' ==> r[i] as int == s[i] as int - 'A' as int + 'a' as int
    ensures forall i :: 0 <= i < |s| && !('A' <= s[i] <= 'Z') ==> r[i] == s[i]
    ensures forall i :: 0 <= i < |r| ==> !('A' <= r[i] <= 'Z')
  {
    seq(|s|, i requires 0 <= i < |s| => if 'A' <= s[i] <= 'Z' then (s[i] as int + 32) as char else s[i])
  }

  /** Python `s[:k]` for `k >= 0`: slicing clamps to the length. */
  function PyPrefix(s: string, k: nat): (r: string)
    ensures |r| == if k < |s| then k else |s|
  {
    if k <= |s| then s[..k] else s
  }

  /** Python `s[k:]` for `k >= 0`. */
  function PySuffix(s: string, k: nat): (r: string)
    ensures |r| == if k < |s| then |s| - k else 0
  {
    if k <= |s| then s[k..] else ""
  }

  /** The number of trailing copies of `c` (`len(s) - len(s.rstrip(c))`). */
  function TrailingCount(s: string, c: char): (n: nat)
    ensures n <= |s|
    ensures forall i :: |s| - n <= i < |s| ==> s[i] == c
    ensures n < |s| ==> s[|s| - n - 1] != c
    decreases |s|
  {
    if |s| > 0 && s[|s| - 1] == c then 1 + TrailingCount(s[..|s| - 1], c) else 0
  }

  function Repeat(c: char, k: int): (r: string)
    ensures |r| == if k < 0 then 0 else k
    ensures forall i :: 0 <= i < |r| ==> r[i] == c
  {
    if k <= 0 then "" else seq(k, _ => c)
  }
}
