/** Nuke-style file sequences: a filename with runs of `#`, a start frame and
    an end frame. Every run of `k` unescaped `#` becomes the frame number
    zero-padded to at least `k` digits; `\#` passes through as a literal `#`. */
module Frames {
  import opened Wrappers
  import opened PyText

  // ---------------------------------------------------------------------------
  // The scanner `((?<!\\)\#+)`
  // ---------------------------------------------------------------------------

  /** A `#` at `j` that is not directly preceded by a backslash. */
  predicate UnescapedHash(s: string, j: nat) {
    j < |s| && s[j] == '#' && (j == 0 || s[j - 1] != '\\')
  }

  /** The first unescaped `#` at or after `i`. */
  function FirstRunFrom(s: string, i: nat): (r: Option<nat>)
    requires i <= |s|
    ensures r.Some? ==> i <= r.value < |s| && UnescapedHash(s, r.value)
    ensures r.Some? ==> forall j :: i <= j < r.value ==> !UnescapedHash(s, j)
    ensures r.None? ==> forall j :: i <= j < |s| ==> !UnescapedHash(s, j)
    decreases |s| - i
  {
    if i == |s| then None
    else if UnescapedHash(s, i) then Some(i)
    else FirstRunFrom(s, i + 1)
  }

  /** The end of the run of `#` starting at `i` (the regex is greedy). */
  function RunEnd(s: string, i: nat): (e: nat)
    requires i <= |s|
    ensures i <= e <= |s|
    ensures forall t :: i <= t < e ==> s[t] == '#'
    ensures e == |s| || s[e] != '#'
    decreases |s| - i
  {
    if i < |s| && s[i] == '#' then RunEnd(s, i + 1) else i
  }

  /** `hasFrameSymbols`: some `#` is not escaped by a backslash. */
  predicate HasFrameSymbols(s: string) {
    FirstRunFrom(s, 0).Some?
  }

  lemma HasFrameSymbolsExactly(s: string)
    ensures HasFrameSymbols(s) <==>
      exists j :: 0 <= j < |s| && s[j] == '#' && (j == 0 || s[j - 1] != '\\')
  {
    if !HasFrameSymbols(s) {
      forall j | 0 <= j < |s|
        ensures !(s[j] == '#' && (j == 0 || s[j - 1] != '\\'))
      {
        assert !UnescapedHash(s, j);
      }
    }
  }

  /** The text of a frame number: `str(frame)` for some integer. */
  type Numeral = d: string | d != "" && '#' !in d witness "0"

  /** `str(frame)` has no `#`. */
  lemma NumeralOfInt(frame: int)
    ensures '#' !in IntToStr(frame)
  {
    var d := IntToStr(frame);
    forall j | 0 <= j < |d|
      ensures d[j] != '#'
    {
      if frame < 0 && j > 0 {
        assert d[1..][j - 1] == d[j];
      }
    }
  }

  /** `str(frame).zfill(k)`, from the text of the frame number. */
  function Pad(num: Numeral, k: nat): (r: string)
    ensures |r| >= 1 && |r| >= k
    ensures '#' !in r
  {
    var r := ZFill(num, k);
    assert forall j :: 0 <= j < |r| ==> r[j] != '#' by {
      forall j | 0 <= j < |r|
        ensures r[j] != '#'
      {
        if |num| < k {
          if num[0] == '-' || num[0] == '+' {
            if j == 0 {
              assert r[j] == num[0];
            } else if j > k - |num| {
              assert r[j] == num[j - (k - |num|)];
            }
          } else if j >= k - |num| {
            assert r[j] == num[j - (k - |num|)];
          }
        } else {
          assert r[j] == num[j];
        }
      }
    }
    r
  }

  /** Replacing a run by digits removes at least one `#`. */
  lemma StepDecreases(s: string, i: nat, e: nat, pad: string)
    requires i < e <= |s| && forall t :: i <= t < e ==> s[t] == '#'
    requires '#' !in pad
    ensures multiset(s[..i] + pad + s[e..])['#'] < multiset(s)['#']
  {
    assert s == s[..i] + s[i..e] + s[e..];
    assert s[i..e][0] == '#';
    assert multiset(pad)['#'] == 0;
  }

  /** One pass of the loop: the first unescaped run becomes the padded frame number. */
  function Step(s: string, num: Numeral): (r: string)
    requires HasFrameSymbols(s)
  {
    var i := FirstRunFrom(s, 0).value;
    var e := RunEnd(s, i);
    s[..i] + Pad(num, e - i) + s[e..]
  }

  /** Each pass removes at least one `#`, so the loop terminates. */
  lemma StepShrinks(s: string, num: Numeral)
    requires HasFrameSymbols(s)
    ensures multiset(Step(s, num))['#'] < multiset(s)['#']
  {
    var i := FirstRunFrom(s, 0).value;
    var e := RunEnd(s, i);
    StepDecreases(s, i, e, Pad(num, e - i));
  }

  lemma StepAt(s: string, num: Numeral, i: nat, e: nat)
    requires FirstRunFrom(s, 0) == Some(i) && RunEnd(s, i) == e
    ensures HasFrameSymbols(s)
    ensures Step(s, num) == s[..i] + Pad(num, e - i) + s[e..]
  {
  }

  /** The replacement loop of `replaceFrameSymbols`, before escapes are removed. */
  function ReplaceRuns(s: string, num: Numeral): (r: string)
    ensures !HasFrameSymbols(r)
    decreases multiset(s)['#']
  {
    if HasFrameSymbols(s) then
      StepShrinks(s, num);
      ReplaceRuns(Step(s, num), num)
    else s
  }

  /** `replaceFrameSymbols(s, frame)`. */
  function FrameName(s: string, frame: int): string {
    Unescape(ReplaceRuns(s, FrameNumber(frame)), '#')
  }

  /** `str(frame)`. */
  function FrameNumber(frame: int): (d: Numeral)
    ensures d == IntToStr(frame)
  {
    NumeralOfInt(frame);
    IntToStr(frame)
  }

  /** The loop of `replaceFrameSymbols`: rescan after every replacement. */
  method ReplaceFrameSymbols(s: string, frame: int) returns (r: string)
    ensures r == FrameName(s, frame)
  {
    var num := FrameNumber(frame);
    r := s;
    while HasFrameSymbols(r)
      invariant ReplaceRuns(r, num) == ReplaceRuns(s, num)
      decreases multiset(r)['#']
    {
      StepShrinks(r, num);
      r := Step(r, num);
    }
    r := Unescape(r, '#');
  }

  // ---------------------------------------------------------------------------
  // What the replacement does to a filename template
  // ---------------------------------------------------------------------------

  /** A piece of a filename: literal text without `#`, an escaped `\#`, or a
      run of `k` num symbols. */
  datatype Piece = Lit(text: string) | Escaped | Run(k: nat)

  function RenderPiece(p: Piece): string {
    match p
    case Lit(x) => x
    case Escaped => "\\#"
    case Run(k) => Repeat('#', k)
  }

  /** A piece after its run, if any, is replaced and before escapes are removed. */
  function ReplacedPiece(p: Piece, num: Numeral): string {
    match p
    case Lit(x) => x
    case Escaped => "\\#"
    case Run(k) => Pad(num, k)
  }

  /** A piece as documented: a run becomes the padded frame number and `\#` a `#`. */
  function ExpectedPiece(p: Piece, num: Numeral): string {
    match p
    case Lit(x) => x
    case Escaped => "#"
    case Run(k) => Pad(num, k)
  }

  function Render(t: seq<Piece>): string
    decreases |t|
  {
    if t == [] then "" else RenderPiece(t[0]) + Render(t[1..])
  }

  function Replaced(t: seq<Piece>, num: Numeral): string
    decreases |t|
  {
    if t == [] then "" else ReplacedPiece(t[0], num) + Replaced(t[1..], num)
  }

  function Expected(t: seq<Piece>, num: Numeral): string
    decreases |t|
  {
    if t == [] then "" else ExpectedPiece(t[0], num) + Expected(t[1..], num)
  }

  /** Literals are non-empty and free of `#`, runs are non-empty, and a run
      follows only an escape or a literal that does not end in a backslash
      (two adjacent runs would be one run). */
  predicate WellFormed(t: seq<Piece>) {
    (forall j :: 0 <= j < |t| && t[j].Lit? ==> t[j].text != "" && '#' !in t[j].text) &&
    (forall j :: 0 <= j < |t| && t[j].Run? ==> t[j].k >= 1) &&
    (forall j :: 1 <= j < |t| && t[j].Run? ==>
       t[j - 1].Escaped? || (t[j - 1].Lit? && t[j - 1].text[|t[j - 1].text| - 1] != '\\'))
  }

  /** A clean prefix (no unescaped `#`) leaves the scan of the rest unchanged,
      as long as the seam does not escape the rest's first `#`. */
  lemma FirstRunConcat(p: string, q: string)
    requires !HasFrameSymbols(p)
    requires |p| == 0 || |q| == 0 || q[0] != '#' || p[|p| - 1] != '\\'
    ensures FirstRunFrom(q, 0).None? ==> FirstRunFrom(p + q, 0).None?
    ensures FirstRunFrom(q, 0).Some? ==> FirstRunFrom(p + q, 0) == Some(|p| + FirstRunFrom(q, 0).value)
  {
    var s := p + q;
    assert forall j :: 0 <= j < |p| ==> !UnescapedHash(s, j) by {
      forall j | 0 <= j < |p|
        ensures !UnescapedHash(s, j)
      {
        assert !UnescapedHash(p, j);
        assert s[j] == p[j];
        if j > 0 { assert s[j - 1] == p[j - 1]; }
      }
    }
    assert forall k :: 0 <= k < |q| ==> (UnescapedHash(s, |p| + k) <==> UnescapedHash(q, k)) by {
      forall k | 0 <= k < |q|
        ensures UnescapedHash(s, |p| + k) <==> UnescapedHash(q, k)
      {
        assert s[|p| + k] == q[k];
        if k > 0 { assert s[|p| + k - 1] == q[k - 1]; }
        else if |p| > 0 { assert s[|p| - 1] == p[|p| - 1]; }
      }
    }
    var a := FirstRunFrom(s, 0);
    var b := FirstRunFrom(q, 0);
    if a.Some? {
      assert a.value >= |p|;
      assert UnescapedHash(q, a.value - |p|);
    }
    if b.Some? {
      var k := |p| + b.value;
      assert UnescapedHash(s, k);
      assert a.Some?;
      assert a.value <= k;
      assert UnescapedHash(q, a.value - |p|);
      assert a.value == k;
    }
  }

  lemma RunEndShift(p: string, q: string, k: nat)
    requires k <= |q|
    ensures RunEnd(p + q, |p| + k) == |p| + RunEnd(q, k)
    decreases |q| - k
  {
    if k < |q| {
      assert (p + q)[|p| + k] == q[k];
      if q[k] == '#' {
        RunEndShift(p, q, k + 1);
      }
    }
  }

  /** One pass on `p + q` is one pass on `q` behind the untouched `p`. */
  lemma StepPrefix(p: string, q: string, num: Numeral)
    requires !HasFrameSymbols(p) && HasFrameSymbols(q)
    requires |p| == 0 || |q| == 0 || q[0] != '#' || p[|p| - 1] != '\\'
    ensures HasFrameSymbols(p + q)
    ensures Step(p + q, num) == p + Step(q, num)
    ensures |p| == 0 || |Step(q, num)| == 0 || Step(q, num)[0] != '#' || p[|p| - 1] != '\\'
  {
    FirstRunConcat(p, q);
    var k := FirstRunFrom(q, 0).value;
    var e := RunEnd(q, k);
    RunEndShift(p, q, k);
    var pad := Pad(num, e - k);
    var i2 := |p| + k;
    var e2 := |p| + e;
    StepAt(p + q, num, i2, e2);
    assert e2 - i2 == e - k;
    assert Pad(num, e2 - i2) == pad;
    StepAt(q, num, k, e);
    SpliceShift(p, q, k, e, pad);
    assert Step(p + q, num) == (p + q)[..i2] + pad + (p + q)[e2..];
    assert Step(p + q, num) == p + (q[..k] + pad + q[e..]);
    assert Step(q, num) == q[..k] + pad + q[e..];
    StepFirst(q, num);
  }

  lemma SpliceShift(p: string, q: string, k: nat, e: nat, pad: string)
    requires k <= e <= |q|
    ensures (p + q)[..|p| + k] + pad + (p + q)[|p| + e..] == p + (q[..k] + pad + q[e..])
  {
    assert (p + q)[..|p| + k] == p + q[..k];
    assert (p + q)[|p| + e..] == q[e..];
  }

  /** A pass never leaves a `#` in front: the first character is kept or
      becomes the first character of the padded number. */
  lemma StepFirst(q: string, num: Numeral)
    requires HasFrameSymbols(q)
    ensures |Step(q, num)| > 0
    ensures Step(q, num)[0] != '#' || (q[0] == '#' && FirstRunFrom(q, 0).value > 0)
  {
    var k := FirstRunFrom(q, 0).value;
    var e := RunEnd(q, k);
    var pad := Pad(num, e - k);
    StepAt(q, num, k, e);
    if k == 0 {
      assert pad[0] in pad;
    }
  }

  /** The replacement loop never touches a clean prefix. */
  lemma {:induction false} ReplaceRunsPrefix(p: string, q: string, num: Numeral)
    requires !HasFrameSymbols(p)
    requires |p| == 0 || |q| == 0 || q[0] != '#' || p[|p| - 1] != '\\'
    ensures ReplaceRuns(p + q, num) == p + ReplaceRuns(q, num)
    decreases multiset(q)['#']
  {
    if HasFrameSymbols(q) {
      StepPrefix(p, q, num);
      StepShrinks(q, num);
      ReplaceRunsPrefix(p, Step(q, num), num);
    } else {
      FirstRunConcat(p, q);
    }
  }

  lemma NoHashClean(p: string)
    requires '#' !in p
    ensures !HasFrameSymbols(p)
  {
    forall j | 0 <= j < |p|
      ensures p[j] != '#'
    {
      assert p[j] in p;
    }
  }

  lemma EscapedClean()
    ensures !HasFrameSymbols("\\#")
  {
    assert !UnescapedHash("\\#", 0) && !UnescapedHash("\\#", 1);
  }

  /** What may follow a piece: nothing, or text that does not start with `#`
      unless the piece is an escape or a literal not ending in a backslash. */
  predicate SeamOk(p: Piece, rest: seq<Piece>) {
    rest == [] || !rest[0].Run? ||
    p.Escaped? || (p.Lit? && p.text != "" && p.text[|p.text| - 1] != '\\')
  }

  lemma WellFormedTail(t: seq<Piece>)
    requires WellFormed(t) && t != []
    ensures WellFormed(t[1..])
    ensures SeamOk(t[0], t[1..])
    ensures t[0].Lit? ==> t[0].text != "" && '#' !in t[0].text
    ensures t[0].Run? ==> t[0].k >= 1
    ensures |t| > 1 && t[0].Run? ==> !t[1].Run?
  {
    var u := t[1..];
    forall j | 1 <= j < |u| && u[j].Run?
      ensures u[j - 1].Escaped? || (u[j - 1].Lit? && u[j - 1].text[|u[j - 1].text| - 1] != '\\')
    {
      assert u[j] == t[j + 1] && u[j - 1] == t[j];
    }
    forall j | 0 <= j < |u| && u[j].Lit?
      ensures u[j].text != "" && '#' !in u[j].text
    {
      assert u[j] == t[j + 1];
    }
    forall j | 0 <= j < |u| && u[j].Run?
      ensures u[j].k >= 1
    {
      assert u[j] == t[j + 1];
    }
    if |t| > 1 && t[1].Run? {
      assert t[1] == u[0];
    }
  }

  /** A well-formed template that does not start with a run does not start with `#`. */
  lemma RenderStart(t: seq<Piece>)
    requires WellFormed(t) && t != [] && !t[0].Run?
    ensures Render(t) != "" && Render(t)[0] != '#'
  {
    WellFormedTail(t);
    if t[0].Lit? {
      assert t[0].text[0] in t[0].text;
    }
  }

  /** The seam between a piece and the rendered rest never escapes a run. */
  lemma SeamText(p: Piece, rest: seq<Piece>)
    requires WellFormed(rest) && SeamOk(p, rest)
    ensures var h := RenderPiece(p); var q := Render(rest);
      |h| == 0 || |q| == 0 || q[0] != '#' || h[|h| - 1] != '\\'
  {
    if rest != [] && !rest[0].Run? {
      RenderStart(rest);
    }
  }

  /** A literal or an escape passes through the replacement loop unchanged. */
  lemma PlainPiece(t: seq<Piece>, num: Numeral)
    requires WellFormed(t) && t != [] && !t[0].Run?
    requires ReplaceRuns(Render(t[1..]), num) == Replaced(t[1..], num)
    ensures ReplaceRuns(Render(t), num) == Replaced(t, num)
  {
    WellFormedTail(t);
    var h := RenderPiece(t[0]);
    if t[0].Lit? {
      NoHashClean(h);
    } else {
      EscapedClean();
    }
    SeamText(t[0], t[1..]);
    ReplaceRunsPrefix(h, Render(t[1..]), num);
  }

  /** A run is the first thing the loop replaces. */
  lemma RunFirstStep(t: seq<Piece>, num: Numeral)
    requires WellFormed(t) && t != [] && t[0].Run?
    ensures HasFrameSymbols(Render(t))
    ensures Step(Render(t), num) == Pad(num, t[0].k) + Render(t[1..])
  {
    WellFormedTail(t);
    var k := t[0].k;
    var q := Render(t[1..]);
    var s := Render(t);
    assert s == Repeat('#', k) + q;
    if t[1..] != [] {
      RenderStart(t[1..]);
    }
    assert UnescapedHash(s, 0);
    assert FirstRunFrom(s, 0) == Some(0);
    RunEndExact(s, 0, k);
    StepAt(s, num, 0, k);
    assert s[k..] == q;
  }

  /** After the run, the rest of the template follows unchanged. */
  lemma RunPiece(t: seq<Piece>, num: Numeral)
    requires WellFormed(t) && t != [] && t[0].Run?
    requires ReplaceRuns(Render(t[1..]), num) == Replaced(t[1..], num)
    ensures ReplaceRuns(Render(t), num) == Replaced(t, num)
  {
    var pad := Pad(num, t[0].k);
    var s := Render(t);
    RunFirstStep(t, num);
    StepShrinks(s, num);
    assert ReplaceRuns(s, num) == ReplaceRuns(pad + Render(t[1..]), num);
    NoHashClean(pad);
    assert pad[|pad| - 1] in pad;
    ReplaceRunsPrefix(pad, Render(t[1..]), num);
  }

  /** Each run of the template is replaced by the padded frame number; the
      rest of the text is untouched. */
  lemma {:induction false} ReplaceRunsTemplate(t: seq<Piece>, num: Numeral)
    requires WellFormed(t)
    ensures ReplaceRuns(Render(t), num) == Replaced(t, num)
    decreases |t|
  {
    if t != [] {
      WellFormedTail(t);
      ReplaceRunsTemplate(t[1..], num);
      if t[0].Run? {
        RunPiece(t, num);
      } else {
        PlainPiece(t, num);
      }
    }
  }

  lemma RunEndExact(s: string, i: nat, k: nat)
    requires i <= k <= |s| && forall t :: i <= t < k ==> s[t] == '#'
    requires k == |s| || s[k] != '#'
    ensures RunEnd(s, i) == k
    decreases k - i
  {
    if i < k {
      RunEndExact(s, i + 1, k);
    }
  }

  /** The replaced text never starts with `#`. */
  lemma ReplacedStart(t: seq<Piece>, num: Numeral)
    requires WellFormed(t) && Replaced(t, num) != []
    ensures Replaced(t, num)[0] != '#'
  {
    WellFormedTail(t);
    match t[0]
    case Lit(x) =>
    case Escaped =>
    case Run(k) =>
      var pad := Pad(num, k);
      assert pad[0] in pad;
  }

  /** Removing the escapes of the replaced text gives the documented result. */
  lemma {:induction false} UnescapeTemplate(t: seq<Piece>, num: Numeral)
    requires WellFormed(t)
    ensures Unescape(Replaced(t, num), '#') == Expected(t, num)
    decreases |t|
  {
    if t != [] {
      WellFormedTail(t);
      UnescapeTemplate(t[1..], num);
      var rest := Replaced(t[1..], num);
      if rest != [] {
        ReplacedStart(t[1..], num);
      }
      var h := ReplacedPiece(t[0], num);
      UnescapeConcat(h, rest, '#');
      match t[0]
      case Lit(x) =>
        UnescapeWithout(x, '#');
      case Escaped =>
      case Run(k) =>
        assert '#' !in h;
        UnescapeWithout(h, '#');
    }
  }

  /** `replaceFrameSymbols` on a template: each run of `k` unescaped `#`
      becomes the frame number zero-padded to `k` digits and each `\#` a `#`. */
  lemma FrameNameTemplate(t: seq<Piece>, frame: int)
    requires WellFormed(t)
    ensures FrameName(Render(t), frame) == Expected(t, FrameNumber(frame))
  {
    ReplaceRunsTemplate(t, FrameNumber(frame));
    UnescapeTemplate(t, FrameNumber(frame));
  }

  /** A worked example: once a template is known to render as `s` and to be
      expected as `expected`, the frame name of `s` is `expected`. */
  lemma TemplateExample(t: seq<Piece>, frame: int, s: string, expected: string)
    requires WellFormed(t) && Render(t) == s
    requires Expected(t, FrameNumber(frame)) == expected
    ensures FrameName(s, frame) == expected
  {
    FrameNameTemplate(t, frame);
  }

  lemma FrameNumberOne(frame: int)
    requires frame == 1
    ensures FrameNumber(frame) == "1"
  {
  }

  lemma FrameNumberFive(frame: int)
    requires frame == 5
    ensures FrameNumber(frame) == "5"
  {
  }

  lemma FrameNumberHundred(frame: int)
    requires frame == 100
    ensures FrameNumber(frame) == "100"
  {
    assert NatToStr(10) == "10";
  }

  /** `foo.#.txt` and `foo.##.txt` as templates. */
  lemma RunTemplate(t: seq<Piece>, k: nat)
    requires t == [Lit("foo."), Run(k), Lit(".txt")] && 1 <= k
    ensures WellFormed(t)
    ensures Render(t) == "foo." + Repeat('#', k) + ".txt"
  {
    assert Render(t[2..]) == ".txt";
  }

  lemma RunTemplateExpected(t: seq<Piece>, k: nat, num: Numeral)
    requires t == [Lit("foo."), Run(k), Lit(".txt")]
    ensures Expected(t, num) == "foo." + Pad(num, k) + ".txt"
  {
    assert Expected(t[2..], num) == ".txt";
  }

  /** `foo.#.txt` at frame 1 is `foo.1.txt`. */
  lemma ExampleSingle(s: string, frame: int)
    requires s == "foo.#.txt" && frame == 1
    ensures FrameName(s, frame) == "foo.1.txt"
  {
    var t := [Lit("foo."), Run(1), Lit(".txt")];
    RunTemplate(t, 1);
    FrameNumberOne(frame);
    RunTemplateExpected(t, 1, "1");
    assert Pad("1", 1) == "1";
    TemplateExample(t, frame, s, "foo.1.txt");
  }

  /** `foo.##.txt` at frame 1 is `foo.01.txt`. */
  lemma ExamplePadded(s: string, frame: int)
    requires s == "foo.##.txt" && frame == 1
    ensures FrameName(s, frame) == "foo.01.txt"
  {
    var t := [Lit("foo."), Run(2), Lit(".txt")];
    RunTemplate(t, 2);
    assert Repeat('#', 2) == "##";
    FrameNumberOne(frame);
    RunTemplateExpected(t, 2, "1");
    assert Pad("1", 2) == "01";
    TemplateExample(t, frame, s, "foo.01.txt");
  }

  /** `foo.#.txt` at frame 100 is `foo.100.txt`: padding never truncates. */
  lemma ExampleWide(s: string, frame: int)
    requires s == "foo.#.txt" && frame == 100
    ensures FrameName(s, frame) == "foo.100.txt"
  {
    var t := [Lit("foo."), Run(1), Lit(".txt")];
    RunTemplate(t, 1);
    FrameNumberHundred(frame);
    RunTemplateExpected(t, 1, "100");
    assert Pad("100", 1) == "100";
    TemplateExample(t, frame, s, "foo.100.txt");
  }

  /** `foo\#.#.txt` as a template. */
  lemma EscapedTemplate(t: seq<Piece>)
    requires t == [Lit("foo"), Escaped, Lit("."), Run(1), Lit(".txt")]
    ensures WellFormed(t)
    ensures Render(t) == "foo\\#.#.txt"
  {
    assert Render(t[2..]) == ".#.txt" by {
      assert Render(t[4..]) == ".txt";
      assert Render(t[3..]) == "#.txt";
    }
  }

  lemma EscapedTemplateExpected(t: seq<Piece>, num: Numeral)
    requires t == [Lit("foo"), Escaped, Lit("."), Run(1), Lit(".txt")]
    ensures Expected(t, num) == "foo#." + Pad(num, 1) + ".txt"
  {
    assert Expected(t[2..], num) == "." + Pad(num, 1) + ".txt" by {
      assert Expected(t[4..], num) == ".txt";
      assert Expected(t[3..], num) == Pad(num, 1) + ".txt";
    }
  }

  /** `foo\#.#.txt` at frame 5 is `foo#.5.txt`. */
  lemma ExampleEscaped(s: string, frame: int)
    requires s == "foo\\#.#.txt" && frame == 5
    ensures FrameName(s, frame) == "foo#.5.txt"
  {
    var t := [Lit("foo"), Escaped, Lit("."), Run(1), Lit(".txt")];
    EscapedTemplate(t);
    FrameNumberFive(frame);
    EscapedTemplateExpected(t, "5");
    assert Pad("5", 1) == "5";
    TemplateExample(t, frame, s, "foo#.5.txt");
  }

  // ---------------------------------------------------------------------------
  // The `framespec` object
  // ---------------------------------------------------------------------------

  /** The list `frames()` returns for a filename and a pair of optional ends. */
  function FrameList(filename: string, start: Option<int>, end: Option<int>): (r: seq<string>)
    ensures start.None? || end.None? ==> r == [filename]
    ensures start.Some? && end.Some? ==>
      |r| == Max(0, end.value - start.value + 1) &&
      forall k :: 0 <= k < |r| ==> r[k] == FrameName(filename, start.value + k)
  {
    if start.None? || end.None? then [filename]
    else seq(Max(0, end.value - start.value + 1), k => FrameName(filename, start.value + k))
  }

  class FrameSpec {
    var filename: string
    var startFrame: Option<int>
    var endFrame: Option<int>

    /** A framespec without a range. */
    constructor (fileString: string)
      ensures filename == fileString && startFrame == None && endFrame == None
    {
      filename := fileString;
      startFrame := None;
      endFrame := None;
    }

    /** `setFramerange`: falsy ends (`None`, `""`, `0`) become `None`, the rest
        go through `int()`. The start is stored before the end is converted,
        so a bad end leaves the new start in place. */
    method SetFramerange(start: PyVal, end: PyVal) returns (r: Result<()>)
      modifies this
      ensures filename == old(filename)
      ensures IntOrNone(start).Err? ==>
        r.Err? && startFrame == old(startFrame) && endFrame == old(endFrame)
      ensures IntOrNone(start).Ok? && IntOrNone(end).Err? ==>
        r.Err? && startFrame == IntOrNone(start).value && endFrame == old(endFrame)
      ensures IntOrNone(start).Ok? && IntOrNone(end).Ok? ==>
        r.Ok? && startFrame == IntOrNone(start).value && endFrame == IntOrNone(end).value
    {
      var s := IntOrNone(start);
      if s.Err? {
        return Err(s.reason);
      }
      startFrame := s.value;
      var e := IntOrNone(end);
      if e.Err? {
        return Err(e.reason);
      }
      endFrame := e.value;
      r := Ok(());
    }

    /** `frames()`: the filename alone when either end is missing, otherwise
        one name per frame from start to end inclusive. */
    method Frames() returns (r: seq<string>)
      ensures r == FrameList(filename, startFrame, endFrame)
    {
      if startFrame.None? || endFrame.None? {
        return [filename];
      }
      r := [];
      var i := startFrame.value;
      while i < endFrame.value + 1
        invariant startFrame.value <= i <= Max(startFrame.value, endFrame.value + 1)
        invariant |r| == i - startFrame.value
        invariant forall k :: 0 <= k < |r| ==> r[k] == FrameName(filename, startFrame.value + k)
      {
        var name := ReplaceFrameSymbols(filename, i);
        r := r + [name];
        i := i + 1;
      }
    }
  }

  /** `framespec(fileString, fileRange)`: the range, when given, goes through
      `setFramerange`, which may raise. */
  method NewFrameSpec(fileString: string, fileRange: Option<(PyVal, PyVal)>) returns (r: Result<FrameSpec>)
    ensures r.Ok? ==> fresh(r.value) && r.value.filename == fileString
    ensures fileRange.None? ==> r.Ok? && r.value.startFrame == None && r.value.endFrame == None
    ensures fileRange.Some? ==>
      (r.Ok? <==> IntOrNone(fileRange.value.0).Ok? && IntOrNone(fileRange.value.1).Ok?)
    ensures fileRange.Some? && r.Ok? ==>
      r.value.startFrame == IntOrNone(fileRange.value.0).value &&
      r.value.endFrame == IntOrNone(fileRange.value.1).value
  {
    var spec := new FrameSpec(fileString);
    if fileRange.Some? {
      var applied := spec.SetFramerange(fileRange.value.0, fileRange.value.1);
      if applied.Err? {
        return Err(applied.reason);
      }
    }
    r := Ok(spec);
  }

  /** The frames of `framespec(filename, range)`, as a value. */
  function SpecFrames(filename: string, range: Option<(PyVal, PyVal)>): (r: Result<seq<string>>)
    ensures range.None? ==> r == Ok([filename])
  {
    match range
    case None => Ok([filename])
    case Some((a, b)) =>
      match IntOrNone(a)
      case Err(m) => Err(m)
      case Ok(s) =>
        match IntOrNone(b)
        case Err(m) => Err(m)
        case Ok(e) => Ok(FrameList(filename, s, e))
  }

  /** Frame 0 counts as "no range": `(0, 5)` expands to the bare filename. */
  lemma FrameZeroIsNoRange(filename: string, end: int)
    ensures SpecFrames(filename, Some((PyInt(0), PyInt(end)))) == Ok([filename])
  {
  }
}
