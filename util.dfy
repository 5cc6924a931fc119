/** Naming helpers of the utility module: the next version of a filename and
    a fresh name similar to existing ones. */
module Util {
  import opened Wrappers
  import opened PyText

  // ---------------------------------------------------------------------------
  // Paths, as Python 2's `os.path.split` and `os.path.join` treat them
  // ---------------------------------------------------------------------------

  /** The index just after the last `/`, or 0 when there is none. */
  function BaseStart(p: string): (i: nat)
    ensures i <= |p|
    ensures '/' !in p[i..]
    ensures i > 0 ==> p[i - 1] == '/'
    decreases |p|
  {
    if |p| == 0 then 0
    else if p[|p| - 1] == '/' then |p|
    else
      var i := BaseStart(p[..|p| - 1]);
      assert p[i..] == p[..|p| - 1][i..] + [p[|p| - 1]];
      i
  }

  /** `os.path.split(p)`: the head keeps its trailing slashes only when it is
      made of nothing else. */
  function PathSplit(p: string): (r: (string, string))
    ensures '/' !in r.1
    ensures r.0 == "" || r.0[|r.0| - 1] != '/' || forall k :: 0 <= k < |r.0| ==> r.0[k] == '/'
  {
    var i := BaseStart(p);
    var head := p[..i];
    var t := TrailingCount(head, '/');
    (if t == |head| then head else head[..|head| - t], p[i..])
  }

  /** `os.path.join(a, b)`. */
  function PathJoin(a: string, b: string): string {
    if |b| > 0 && b[0] == '/' then b
    else if a == "" || a[|a| - 1] == '/' then a + b
    else a + "/" + b
  }

  /** The last `/` of `h + b` is the last one of `h` when `b` has none. */
  lemma BaseStartAfter(h: string, b: string)
    requires |h| > 0 && h[|h| - 1] == '/' && '/' !in b
    ensures BaseStart(h + b) == |h|
  {
    var p := h + b;
    var i := BaseStart(p);
    assert p[|h| - 1] == '/';
  }

  /** Joining a directory from `os.path.split` with a plain name and splitting
      again gives back that directory and that name. */
  lemma PathSplitJoin(p: string, base: string)
    requires '/' !in base
    ensures PathSplit(PathJoin(PathSplit(p).0, base)) == (PathSplit(p).0, base)
  {
    var h := PathSplit(p).0;
    assert !(|base| > 0 && base[0] == '/') by {
      if |base| > 0 { assert base[0] in base; }
    }
    if h == "" {
      assert PathJoin(h, base) == base;
      assert BaseStart(base) == 0;
      assert base[..0] == "";
    } else if h[|h| - 1] == '/' {
      assert PathJoin(h, base) == h + base;
      BaseStartAfter(h, base);
      assert (h + base)[..|h|] == h;
      assert (h + base)[|h|..] == base;
    } else {
      var hs := h + "/";
      assert PathJoin(h, base) == hs + base;
      BaseStartAfter(hs, base);
      assert (hs + base)[..|hs|] == hs;
      assert (hs + base)[|hs|..] == base;
      var t := TrailingCount(hs, '/');
      assert t == 1;
      assert hs[..|hs| - 1] == h;
    }
  }

  // ---------------------------------------------------------------------------
  // nextFilenameVersion
  // ---------------------------------------------------------------------------

  /** Made only of `#`; the empty segment qualifies, as Python's `all` of
      nothing is true. */
  predicate AllHash(s: string) {
    forall k :: 0 <= k < |s| ==> s[k] == '#'
  }

  /** The leftmost segment at or after `lo` made only of `#`. */
  function LeftmostAllHash(segs: seq<string>, lo: nat): (r: Option<nat>)
    ensures r.Some? ==> lo <= r.value < |segs| && AllHash(segs[r.value]) &&
                        (forall k :: lo <= k < r.value ==> !AllHash(segs[k]))
    ensures r.None? ==> forall k :: lo <= k < |segs| ==> !AllHash(segs[k])
    decreases |segs| - lo
  {
    if lo >= |segs| then None
    else if AllHash(segs[lo]) then Some(lo)
    else LeftmostAllHash(segs, lo + 1)
  }

  /** The dot-separated segment that carries the version: the one just before
      the leftmost all-`#` segment, else the last but one, else the only one.
      `None` where that index falls before the first segment, where Python's
      negative index raises `IndexError`. */
  function VersionSlot(segs: seq<string>): (r: Option<nat>)
    requires |segs| >= 1
    ensures r.None? <==> AllHash(segs[0])
    ensures r.Some? ==> r.value < |segs| && forall k :: 0 <= k <= r.value ==> !AllHash(segs[k])
    ensures r.Some? && r.value + 2 < |segs| ==> AllHash(segs[r.value + 1])
  {
    match LeftmostAllHash(segs, 0)
    case None => Some(if |segs| > 1 then |segs| - 2 else 0)
    case Some(p) => if p == 0 then None else Some(p - 1)
  }

  /** The number of trailing decimal digits. */
  function TrailingDigits(s: string): (n: nat)
    ensures n <= |s|
    ensures AllDigits(s[|s| - n..])
    ensures n < |s| ==> !IsDigit(s[|s| - n - 1])
    decreases |s|
  {
    if |s| > 0 && IsDigit(s[|s| - 1]) then
      var t := s[..|s| - 1];
      var m := TrailingDigits(t);
      DigitsSnoc(s, m);
      1 + m
    else 0
  }

  /** A digit after a run of digits extends the run. */
  lemma DigitsSnoc(s: string, m: nat)
    requires |s| > 0 && IsDigit(s[|s| - 1]) && m <= |s| - 1
    requires AllDigits(s[..|s| - 1][|s| - 1 - m..])
    requires m < |s| - 1 ==> !IsDigit(s[..|s| - 1][|s| - 1 - m - 1])
    ensures AllDigits(s[|s| - (1 + m)..])
    ensures 1 + m < |s| ==> !IsDigit(s[|s| - (1 + m) - 1])
  {
    var t := s[..|s| - 1];
    var u := s[|s| - (1 + m)..];
    forall i | 0 <= i < |u|
      ensures IsDigit(u[i])
    {
      if i < m {
        assert u[i] == t[|t| - m..][i];
      }
    }
  }

  /** `re.match(r'.*?(\d+)$', s).group(1)`: the digits ending at the end of
      `s`, or just before a final newline, provided no newline precedes them
      (`.` does not match a newline). */
  function NumberMatch(s: string): (r: Option<string>)
    ensures r.Some? ==> 1 <= |r.value| <= |s| && AllDigits(r.value)
  {
    var core := if |s| > 0 && s[|s| - 1] == '\n' then s[..|s| - 1] else s;
    var d := TrailingDigits(core);
    if d > 0 && '\n' !in core[..|core| - d] then Some(core[|core| - d..]) else None
  }

  /** The version segment after the increment: trailing `#` marks and the
      underscores before them come off, the trailing number goes up by one
      at its old width (a missing number counts as `000`), and the marks go
      back on behind at least one underscore. */
  function NextSegment(seg: string): string {
    var pounds := PoundCount(seg);
    var bumped := Bumped(MarksRemoved(seg));
    if pounds > 0 then bumped + "_" + Repeat('_', UnderscoreCount(seg) - 1) + Repeat('#', pounds) else bumped
  }

  /** The underscores just before the first `#`, or at the end. */
  function UnderscoreCount(seg: string): nat {
    TrailingCount(seg[..|seg| - PoundCount(seg)], '_')
  }

  /** The segment without its `#` marks and the underscores before them. */
  function MarksRemoved(seg: string): string {
    var s1 := seg[..|seg| - PoundCount(seg)];
    s1[..|s1| - UnderscoreCount(seg)]
  }

  /** The length from the first `#` to the end. */
  function PoundCount(seg: string): (n: nat)
    ensures n <= |seg|
    ensures n > 0 <==> '#' in seg
  {
    if '#' in seg then |seg| - IndexOf(seg, '#') else 0
  }

  /** The trailing number incremented at its old width, or `001` appended. */
  function Bumped(s: string): string {
    match NumberMatch(s)
    case None => s + ZFill(NatToStr(1), 3)
    case Some(num) => s[..|s| - |num|] + Incremented(num)
  }

  /** A run of digits plus one, zero-padded to at least its old width. */
  function Incremented(num: string): string
    requires AllDigits(num)
  {
    ZFill(NatToStr(DigitsValue(num) + 1), |num|)
  }

  /** `nextFilenameVersion(filename)`: the directory stays, the version
      segment of the base name is replaced by its next version. It raises
      exactly when the first dot segment is made only of `#`. */
  function NextVersion(filename: string): (r: Result<string>)
    ensures r.Err? <==> AllHash(Split(PathSplit(filename).1, '.')[0])
  {
    var (path, base) := PathSplit(filename);
    var segs := Split(base, '.');
    match VersionSlot(segs)
    case None => Err("list index out of range")
    case Some(i) => Ok(PathJoin(path, Join(segs[i := NextSegment(segs[i])], '.')))
  }

  /** `nextFilenameVersion`: find the version segment by scanning the
      segments from the right, then rewrite it in place. */
  method NextFilenameVersion(filename: string) returns (r: Result<string>)
    ensures r == NextVersion(filename)
  {
    var (path, baseName) := PathSplit(filename);
    var splitBase := Split(baseName, '.');
    var n := |splitBase|;
    var versionIndex := VersionIndex(splitBase);
    if versionIndex < -n {
      return Err("list index out of range");
    }
    var idx := n + versionIndex;
    var seg := BumpSegment(splitBase[idx]);
    splitBase := splitBase[idx := seg];
    r := Ok(PathJoin(path, Join(splitBase, '.')));
  }

  /** The scan from the right for the version segment, as a negative index. */
  method VersionIndex(splitBase: seq<string>) returns (versionIndex: int)
    requires |splitBase| >= 1
    ensures versionIndex < 0
    ensures VersionSlot(splitBase).None? <==> versionIndex < -|splitBase|
    ensures VersionSlot(splitBase).Some? ==> VersionSlot(splitBase).value == |splitBase| + versionIndex
  {
    var n := |splitBase|;
    var start: int := if n > 1 then -2 else -1;
    versionIndex := start;
    for i := 0 to n
      invariant versionIndex == match LeftmostAllHash(splitBase, n - i)
        case None => start
        case Some(p) => p - 1 - n
    {
      if AllHash(splitBase[n - 1 - i]) {
        versionIndex := -(i + 1) - 1;
      }
    }
  }

  /** The segment rewrite of `nextFilenameVersion`, step by step. */
  method BumpSegment(segment: string) returns (seg: string)
    ensures seg == NextSegment(segment)
  {
    seg := segment;
    var poundCount := 0;
    if '#' in seg {
      poundCount := |seg| - IndexOf(seg, '#');
      seg := seg[..|seg| - poundCount];
    }
    assert poundCount == PoundCount(segment);
    assert seg == segment[..|segment| - poundCount];
    var trailingUnderscores: int := TrailingCount(seg, '_');
    seg := seg[..|seg| - trailingUnderscores];
    assert trailingUnderscores == UnderscoreCount(segment);
    assert seg == MarksRemoved(segment);
    seg := BumpNumber(seg);
    if poundCount > 0 {
      seg := seg + "_";
      seg := seg + Repeat('_', trailingUnderscores - 1);
      seg := seg + Repeat('#', poundCount);
    }
  }

  /** The number part of the segment rewrite, step by step. */
  method BumpNumber(stripped: string) returns (seg: string)
    ensures seg == Bumped(stripped)
  {
    seg := stripped;
    var numberString := "000";
    var versionNumber := 0;
    var m := NumberMatch(seg);
    if m.Some? {
      numberString := m.value;
      versionNumber := DigitsValue(numberString);
      seg := seg[..|seg| - |numberString|];
    }
    ghost var front := seg;
    versionNumber := versionNumber + 1;
    seg := seg + ZFill(NatToStr(versionNumber), |numberString|);
    BumpedIs(stripped, m, front, numberString, versionNumber, seg);
  }

  lemma BumpedIs(stripped: string, m: Option<string>, front: string, numberString: string, v: nat, seg: string)
    requires m == NumberMatch(stripped)
    requires m.None? ==> front == stripped && numberString == "000" && v == 1
    requires m.Some? ==> numberString == m.value && front == stripped[..|stripped| - |m.value|] && v == DigitsValue(m.value) + 1
    requires seg == front + ZFill(NatToStr(v), |numberString|)
    ensures seg == Bumped(stripped)
  {
  }

  // ---------------------------------------------------------------------------
  // What nextFilenameVersion promises
  // ---------------------------------------------------------------------------

  lemma ZFillNatDigits(n: nat, w: int)
    ensures AllDigits(ZFill(NatToStr(n), w))
    ensures DigitsValue(ZFill(NatToStr(n), w)) == n
  {
    var s := NatToStr(n);
    NatToStrValue(n);
    if |s| < w {
      assert ZFill(s, w) == Zeros(w - |s|) + s;
      DigitsValueZerosPrefix(w - |s|, s);
    }
  }

  /** The increment is a run of digits one larger, no narrower than before. */
  lemma IncrementedValue(num: string)
    requires AllDigits(num)
    ensures |Incremented(num)| >= |num|
    ensures AllDigits(Incremented(num))
    ensures DigitsValue(Incremented(num)) == DigitsValue(num) + 1
  {
    ZFillNatDigits(DigitsValue(num) + 1, |num|);
  }

  /** The characters of `Join(parts, c)` are `c` and those of the parts. */
  lemma {:induction false} JoinChars(parts: seq<string>, c: char, x: char)
    requires x in Join(parts, c)
    ensures x == c || exists k :: 0 <= k < |parts| && x in parts[k]
    decreases |parts|
  {
    if |parts| > 1 {
      var tail := Join(parts[1..], c);
      assert Join(parts, c) == parts[0] + [c] + tail;
      if x in tail {
        JoinChars(parts[1..], c, x);
        if x != c {
          var k :| 0 <= k < |parts[1..]| && x in parts[1..][k];
          assert x in parts[k + 1];
        }
      }
    }
  }

  /** Only digits are added to the text before the number. */
  lemma BumpedChars(s: string, x: char)
    requires x in Bumped(s)
    ensures x in s || IsDigit(x)
  {
    match NumberMatch(s)
    case None =>
      ZFillNatDigits(1, 3);
      var z := ZFill(NatToStr(1), 3);
      if x !in s {
        var k :| 0 <= k < |z| && z[k] == x;
      }
    case Some(num) =>
      var w := Incremented(num);
      IncrementedValue(num);
      var pre := s[..|s| - |num|];
      if x in pre {
        var k :| 0 <= k < |pre| && pre[k] == x;
        assert s[k] == x;
      } else {
        var k :| 0 <= k < |w| && w[k] == x;
      }
  }

  /** The new segment holds the old segment's characters, digits, `_` and `#`. */
  lemma NextSegmentChars(seg: string, x: char)
    requires x in NextSegment(seg)
    ensures x in seg || IsDigit(x) || x == '_' || x == '#'
  {
    var m := MarksRemoved(seg);
    var s1 := seg[..|seg| - PoundCount(seg)];
    assert m == s1[..|s1| - UnderscoreCount(seg)];
    var b := Bumped(m);
    var u := Repeat('_', UnderscoreCount(seg) - 1);
    var h := Repeat('#', PoundCount(seg));
    if x in b {
      BumpedChars(m, x);
      if x in m {
        var k :| 0 <= k < |m| && m[k] == x;
        assert seg[k] == x;
      }
    } else if PoundCount(seg) > 0 {
      assert NextSegment(seg) == b + "_" + u + h;
      if x in u {
        var k :| 0 <= k < |u| && u[k] == x;
      } else if x in h {
        var k :| 0 <= k < |h| && h[k] == x;
      }
    }
  }

  /** `nextFilenameVersion` keeps the directory and every dot segment of the
      base name except the version segment, which becomes `NextSegment` of
      itself. */
  lemma NextVersionShape(filename: string)
    requires NextVersion(filename).Ok?
    ensures var (dir, base) := PathSplit(filename);
            var segs := Split(base, '.');
            var i := VersionSlot(segs).value;
            PathSplit(NextVersion(filename).value) == (dir, Join(segs[i := NextSegment(segs[i])], '.')) &&
            Split(PathSplit(NextVersion(filename).value).1, '.') == segs[i := NextSegment(segs[i])]
  {
    var (dir, base) := PathSplit(filename);
    var segs := Split(base, '.');
    var i := VersionSlot(segs).value;
    var segs' := segs[i := NextSegment(segs[i])];
    forall k | 0 <= k < |segs'|
      ensures '.' !in segs'[k] && '/' !in segs'[k]
    {
      if k == i {
        if '.' in segs'[k] { NextSegmentChars(segs[i], '.'); }
        if '/' in segs'[k] { NextSegmentChars(segs[i], '/'); JoinSplit(base, '.'); JoinInPart(segs, i, '/'); }
      } else {
        if '/' in segs[k] { JoinSplit(base, '.'); JoinInPart(segs, k, '/'); }
      }
    }
    var nb := Join(segs', '.');
    assert '/' !in nb by {
      if '/' in nb {
        JoinChars(segs', '.', '/');
      }
    }
    PathSplitJoin(filename, nb);
    SplitJoin(segs', '.');
  }

  /** A character of a part is a character of the joined string. */
  lemma {:induction false} JoinInPart(parts: seq<string>, k: nat, x: char)
    requires k < |parts| && x in parts[k]
    ensures x in Join(parts, '.')
    decreases |parts|
  {
    if |parts| > 1 {
      assert Join(parts, '.') == parts[0] + ['.'] + Join(parts[1..], '.');
      if k > 0 {
        JoinInPart(parts[1..], k - 1, x);
      }
    }
  }

  /** The count of trailing digits is pinned down by its characterization. */
  lemma TrailingDigitsIs(s: string, n: nat)
    requires n <= |s|
    requires forall j :: |s| - n <= j < |s| ==> IsDigit(s[j])
    requires n < |s| ==> !IsDigit(s[|s| - n - 1])
    ensures TrailingDigits(s) == n
  {
  }

  lemma TrailingCountIs(s: string, c: char, n: nat)
    requires n <= |s|
    requires forall j :: |s| - n <= j < |s| ==> s[j] == c
    requires n < |s| ==> s[|s| - n - 1] != c
    ensures TrailingCount(s, c) == n
  {
  }

  /** A trailing run of digits after a non-digit is what the number pattern
      captures, when no newline is involved. */
  lemma NumberMatchOf(a: string, d: string)
    requires AllDigits(d) && |d| >= 1 && (|a| == 0 || !IsDigit(a[|a| - 1])) && '\n' !in a
    ensures NumberMatch(a + d) == Some(d)
  {
    var s := a + d;
    assert s[|s| - 1] == d[|d| - 1];
    assert s[|s| - 1] != '\n';
    assert |a| > 0 ==> s[|a| - 1] == a[|a| - 1];
    TrailingDigitsIs(s, |d|);
    assert s[|s| - |d|..] == d;
    assert s[..|s| - |d|] == a;
    NumberMatchPlain(s, |d|);
  }

  /** Without a final newline, the number pattern captures the trailing
      digits when no newline comes before them. */
  lemma NumberMatchPlain(s: string, n: nat)
    requires |s| > 0 && s[|s| - 1] != '\n' && TrailingDigits(s) == n && n > 0 && '\n' !in s[..|s| - n]
    ensures NumberMatch(s) == Some(s[|s| - n..])
  {
    var core := if s[|s| - 1] == '\n' then "" else s;
    assert core == s;
  }

  /** With no trailing digits and no newline, `001` is appended. */
  lemma NumberMatchNone(s: string)
    requires (|s| == 0 || !IsDigit(s[|s| - 1])) && '\n' !in s
    ensures NumberMatch(s) == None
    ensures Bumped(s) == s + "001"
  {
    assert NatToStr(1) == "1";
  }

  /** The number goes up by one, keeps at least its width, and the text
      before it stays. */
  lemma BumpedIncrements(a: string, d: string)
    requires AllDigits(d) && |d| >= 1 && (|a| == 0 || !IsDigit(a[|a| - 1])) && '\n' !in a
    ensures var b := Bumped(a + d);
            |b| >= |a| + |d| && b[..|a|] == a && AllDigits(b[|a|..]) &&
            DigitsValue(b[|a|..]) == DigitsValue(d) + 1
  {
    BumpedOf(a, d);
    var w := Incremented(d);
    IncrementedValue(d);
    assert (a + w)[..|a|] == a;
    assert (a + w)[|a|..] == w;
  }

  lemma BumpedOf(a: string, d: string)
    requires AllDigits(d) && |d| >= 1 && (|a| == 0 || !IsDigit(a[|a| - 1])) && '\n' !in a
    ensures Bumped(a + d) == a + Incremented(d)
  {
    var s := a + d;
    NumberMatchOf(a, d);
    assert s[..|s| - |d|] == a;
  }

  /** Without `#` marks, trailing underscores are dropped before the bump. */
  lemma NextSegmentNoMarks(core: string, u: nat)
    requires '#' !in core && (|core| == 0 || core[|core| - 1] != '_')
    ensures NextSegment(core + Repeat('_', u)) == Bumped(core)
  {
    MarksOf(core, u, 0);
    assert core + Repeat('_', u) + Repeat('#', 0) == core + Repeat('_', u);
  }

  /** How the segment `core + "_"*u + "#"*p` falls apart into its pieces. */
  lemma MarksOf(core: string, u: nat, p: nat)
    requires '#' !in core && (|core| == 0 || core[|core| - 1] != '_')
    ensures var seg := core + Repeat('_', u) + Repeat('#', p);
            PoundCount(seg) == p && UnderscoreCount(seg) == u && MarksRemoved(seg) == core
  {
    var mid := core + Repeat('_', u);
    var seg := mid + Repeat('#', p);
    assert forall k :: 0 <= k < |mid| ==> mid[k] == if k < |core| then core[k] else '_';
    assert '#' !in mid;
    PoundCountOf(mid, p);
    assert seg[..|seg| - p] == mid;
    TrailingUnderscores(core, u);
    assert mid[..|mid| - u] == core;
  }

  lemma PoundCountOf(mid: string, p: nat)
    requires '#' !in mid
    ensures PoundCount(mid + Repeat('#', p)) == p
  {
    if p > 0 {
      IndexOfAfterFree(mid, Repeat('#', p), '#');
    } else {
      assert mid + Repeat('#', p) == mid;
    }
  }

  lemma TrailingUnderscores(core: string, u: nat)
    requires |core| == 0 || core[|core| - 1] != '_'
    ensures TrailingCount(core + Repeat('_', u), '_') == u
  {
    var s := core + Repeat('_', u);
    assert |core| > 0 ==> s[|core| - 1] == core[|core| - 1];
    TrailingCountIs(s, '_', u);
  }

  /** `#` marks come off with the underscores before them, and go back on
      behind at least one underscore after the bump. */
  lemma NextSegmentMarks(core: string, u: nat, p: nat)
    requires '#' !in core && (|core| == 0 || core[|core| - 1] != '_') && p >= 1
    ensures NextSegment(core + Repeat('_', u) + Repeat('#', p)) ==
            Bumped(core) + "_" + Repeat('_', u - 1) + Repeat('#', p)
  {
    MarksOf(core, u, p);
    NextSegmentOfMarks(core + Repeat('_', u) + Repeat('#', p), core, u, p);
  }

  lemma NextSegmentOfMarks(seg: string, core: string, u: nat, p: nat)
    requires PoundCount(seg) == p && p >= 1 && UnderscoreCount(seg) == u && MarksRemoved(seg) == core
    ensures NextSegment(seg) == Bumped(core) + "_" + Repeat('_', u - 1) + Repeat('#', p)
  {
  }

  /** A base name without directory whose dot segments are `parts`. */
  lemma NextVersionPlain(f: string, parts: seq<string>, i: nat)
    requires |parts| >= 1 && f == Join(parts, '.') && '/' !in f
    requires forall k :: 0 <= k < |parts| ==> '.' !in parts[k]
    requires VersionSlot(parts) == Some(i)
    ensures NextVersion(f) == Ok(Join(parts[i := NextSegment(parts[i])], '.'))
  {
    PathSplitPlain(f);
    SplitJoin(parts, '.');
    PathJoinEmpty(Join(parts[i := NextSegment(parts[i])], '.'));
  }

  lemma PathJoinEmpty(b: string)
    ensures PathJoin("", b) == b
  {
    assert "" + b == b;
  }

  /** A name without `/` has an empty directory part. */
  lemma PathSplitPlain(f: string)
    requires '/' !in f
    ensures PathSplit(f) == ("", f)
  {
    assert BaseStart(f) == 0;
    assert f[..0] == "" && f[0..] == f;
  }

  /** A two-segment name with no all-`#` segment versions its first segment. */
  lemma NextVersionTwo(f: string, a: string, b: string)
    requires f == a + "." + b && '/' !in f && '.' !in a && '.' !in b
    requires !AllHash(a) && !AllHash(b)
    ensures NextVersion(f) == Ok(NextSegment(a) + "." + b)
  {
    var parts := [a, b];
    JoinTwo(a, b);
    assert LeftmostAllHash(parts, 2) == None;
    assert LeftmostAllHash(parts, 0) == None;
    NextVersionPlain(f, parts, 0);
    assert parts[0 := NextSegment(a)] == [NextSegment(a), b];
    JoinTwo(NextSegment(a), b);
  }

  lemma JoinTwo(a: string, b: string)
    ensures Join([a, b], '.') == a + "." + b
  {
    assert [a, b][1..] == [b];
  }

  lemma JoinThree(a: string, h: string, b: string)
    ensures Join([a, h, b], '.') == a + "." + h + "." + b
  {
    assert [a, h, b][1..] == [h, b];
    JoinTwo(h, b);
  }

  /** `foo.####.tif`-shaped names version the segment before the marks. */
  lemma NextVersionThree(f: string, a: string, h: string, b: string)
    requires f == a + "." + h + "." + b && '/' !in f && '.' !in a && '.' !in h && '.' !in b
    requires !AllHash(a) && AllHash(h)
    ensures NextVersion(f) == Ok(NextSegment(a) + "." + h + "." + b)
  {
    var parts := [a, h, b];
    JoinThree(a, h, b);
    assert LeftmostAllHash(parts, 1) == Some(1);
    NextVersionPlain(f, parts, 0);
    assert parts[0 := NextSegment(a)] == [NextSegment(a), h, b];
    JoinThree(NextSegment(a), h, b);
  }

  /** A segment ending in a number, with no marks, gets the number bumped. */
  lemma SegmentNumber(seg: string, a: string, d: string)
    requires seg == a + d && AllDigits(d) && |d| >= 1
    requires (|a| == 0 || !IsDigit(a[|a| - 1])) && '\n' !in a && '#' !in a
    ensures NextSegment(seg) == a + Incremented(d)
  {
    assert |seg| > 0 && seg[|seg| - 1] == d[|d| - 1];
    assert '#' !in d;
    NextSegmentNoMarks(seg, 0);
    assert seg + Repeat('_', 0) == seg;
    BumpedOf(a, d);
  }

  lemma IncrementedExample(d: string, r: string)
    requires d == "001" && r == "002"
    ensures Incremented(d) == r
  {
    assert d == Zeros(2) + "1";
    DigitsValueZerosPrefix(2, "1");
    assert NatToStr(2) == "2";
    assert Zeros(2) + "2" == r;
  }

  /** `foobar_v001` becomes `foobar_v002`. */
  lemma SegmentNumberExample(seg: string, a: string, d: string)
    requires seg == "foobar_v001" && a == "foobar_v" && d == "001"
    ensures NextSegment(seg) == "foobar_v002"
  {
    assert AllDigits(d) && |d| >= 1;
    assert !IsDigit(a[|a| - 1]);
    assert '\n' !in a && '#' !in a;
    assert seg == a + d;
    SegmentNumber(seg, a, d);
    IncrementedExample(d, "002");
  }

  /** `shot_v009_####` becomes `shot_v010_####`. */
  lemma SegmentMarksExample(seg: string, core: string, a: string, d: string)
    requires seg == "shot_v009_####" && core == "shot_v009" && a == "shot_v" && d == "009"
    ensures NextSegment(seg) == "shot_v010_####"
  {
    assert Repeat('_', 1) == "_" && Repeat('#', 4) == "####" && Repeat('_', 0) == "";
    assert seg == core + Repeat('_', 1) + Repeat('#', 4);
    assert '#' !in core && core[|core| - 1] != '_';
    NextSegmentMarks(core, 1, 4);
    BumpedCarryExample(core, a, d);
    MarksBack(Bumped(core), "shot_v010", "shot_v010_####");
  }

  lemma MarksBack(x: string, x0: string, r: string)
    requires x == x0 && x0 == "shot_v010" && r == "shot_v010_####"
    ensures x + "_" + Repeat('_', 0) + Repeat('#', 4) == r
  {
    assert Repeat('_', 0) == "" && Repeat('#', 4) == "####";
  }

  lemma BumpedCarryExample(core: string, a: string, d: string)
    requires core == "shot_v009" && a == "shot_v" && d == "009"
    ensures Bumped(core) == "shot_v010"
  {
    assert core == a + d;
    assert AllDigits(d) && !IsDigit(a[|a| - 1]) && '\n' !in a;
    BumpedOf(a, d);
    IncrementedCarry(d, "010");
  }

  lemma IncrementedCarry(d: string, r: string)
    requires d == "009" && r == "010"
    ensures Incremented(d) == r
  {
    assert d == Zeros(2) + "9";
    DigitsValueZerosPrefix(2, "9");
    assert NatToStr(10) == "10";
    assert Zeros(1) + "10" == r;
  }

  /** `foo` has no number, so `foo001` comes out. */
  lemma SegmentFreshExample(seg: string)
    requires seg == "foo"
    ensures NextSegment(seg) == "foo001"
  {
    assert '#' !in seg && seg[|seg| - 1] != '_';
    NextSegmentNoMarks(seg, 0);
    assert seg + Repeat('_', 0) == seg;
    NumberMatchNone(seg);
  }

  // ---------------------------------------------------------------------------
  // generateUniqueNameSimiarToExisting
  // ---------------------------------------------------------------------------

  /** `"%02d" % k`. */
  function Fmt02(k: int): string {
    ZFill(IntToStr(k), 2)
  }

  /** `int(en[len(prefix):])` for every existing name, in order; `int()`
      raises on the first name whose tail is not an integer literal. */
  function NameIndices(prefix: string, names: seq<string>): (r: Result<seq<int>>)
    ensures r.Ok? ==> |r.value| == |names| &&
                      forall k :: 0 <= k < |names| ==> ParseInt(PySuffix(names[k], |prefix|)) == Some(r.value[k])
    ensures r.Err? <==> exists k :: 0 <= k < |names| && ParseInt(PySuffix(names[k], |prefix|)).None?
    decreases |names|
  {
    if |names| == 0 then Ok([])
    else
      var front := names[..|names| - 1];
      var last := names[|names| - 1];
      match NameIndices(prefix, front)
      case Err(e) =>
        assert forall k :: 0 <= k < |front| ==> front[k] == names[k];
        Err(e)
      case Ok(ns) =>
        match ParseInt(PySuffix(last, |prefix|))
        case None => Err("invalid literal for int()")
        case Some(v) => Ok(ns + [v])
  }

  ghost predicate Sorted(s: seq<int>) {
    forall i, j :: 0 <= i < j < |s| ==> s[i] <= s[j]
  }

  /** `x` put into place in a sorted list. */
  function Insert(x: int, s: seq<int>): (r: seq<int>)
    requires Sorted(s)
    ensures Sorted(r) && multiset(r) == multiset(s) + multiset{x}
    decreases |s|
  {
    if |s| == 0 then [x]
    else if x <= s[0] then [x] + s
    else
      var t := Insert(x, s[1..]);
      InsertBehind(x, s, t);
      [s[0]] + t
  }

  /** Putting the head of a sorted list in front of the insertion into its tail. */
  lemma InsertBehind(x: int, s: seq<int>, t: seq<int>)
    requires Sorted(s) && |s| > 0 && s[0] < x
    requires Sorted(t) && multiset(t) == multiset(s[1..]) + multiset{x}
    ensures Sorted([s[0]] + t) && multiset([s[0]] + t) == multiset(s) + multiset{x}
  {
    assert s == [s[0]] + s[1..];
    forall k | 0 <= k < |t|
      ensures s[0] <= t[k]
    {
      assert t[k] in multiset(t);
      if t[k] != x {
        assert t[k] in s[1..];
        var j :| 0 <= j < |s[1..]| && s[1..][j] == t[k];
        assert s[j + 1] == t[k];
      }
    }
  }

  /** Python's `list.sort()` on integers: a sorted permutation. */
  function SortInts(s: seq<int>): (r: seq<int>)
    ensures Sorted(r) && multiset(r) == multiset(s)
    decreases |s|
  {
    if |s| == 0 then []
    else
      assert s == s[..|s| - 1] + [s[|s| - 1]];
      Insert(s[|s| - 1], SortInts(s[..|s| - 1]))
  }

  /** The scan of the source: from position `i` of the sorted indices, one
      past the first index not followed by its successor, or one past the
      last index. */
  function RunEnd(ns: seq<int>, i: nat): int
    requires i < |ns|
    decreases |ns| - i
  {
    if i + 1 == |ns| then ns[i] + 1
    else if ns[i + 1] != ns[i] + 1 then ns[i] + 1
    else RunEnd(ns, i + 1)
  }

  /** The index the source picks from the sorted indices: 1 when the
      smallest is not 1, else the end of the run that starts there. */
  function PickedIndexAsWritten(ns: seq<int>): int {
    if |ns| == 0 || ns[0] != 1 then 1 else RunEnd(ns, 0)
  }

  /** `generateUniqueNameSimiarToExisting(prefix, existingNames)` as written. */
  function UniqueNameAsWritten(prefix: string, names: seq<string>): (r: Result<string>)
    ensures r.Err? <==> NameIndices(prefix, names).Err?
  {
    var ns :- NameIndices(prefix, names);
    Ok(prefix + Fmt02(PickedIndexAsWritten(SortInts(ns))))
  }

  /** The smallest integer from `k` on that is not in `S`. */
  function FirstFree(S: set<int>, k: int): (r: int)
    ensures r >= k && r !in S
    ensures forall j :: k <= j < r ==> j in S
    decreases set x | x in S && x >= k
  {
    if k in S then
      ghost var now := set x | x in S && x >= k;
      ghost var next := set x | x in S && x >= k + 1;
      assert next <= now && k in now && k !in next;
      FirstFree(S, k + 1)
    else k
  }

  /** A name that is not among the existing ones: the prefix with the
      smallest positive index not in use, at two digits. */
  function UniqueName(prefix: string, names: seq<string>): (r: Result<string>)
    ensures r.Err? <==> NameIndices(prefix, names).Err?
  {
    var ns :- NameIndices(prefix, names);
    Ok(prefix + Fmt02(FirstFree(set x | x in ns, 1)))
  }

  /** The name picked is new, and every smaller positive index is taken. */
  lemma UniqueNameFresh(prefix: string, names: seq<string>)
    requires UniqueName(prefix, names).Ok?
    ensures UniqueName(prefix, names).value !in names
    ensures var ns := NameIndices(prefix, names).value;
            var k := FirstFree(set x | x in ns, 1);
            UniqueName(prefix, names).value == prefix + Fmt02(k) && k >= 1 &&
            forall j :: 1 <= j < k ==> j in ns
  {
    var ns := NameIndices(prefix, names).value;
    var S := set x | x in ns;
    var k := FirstFree(S, 1);
    assert UniqueName(prefix, names).value == prefix + Fmt02(k);
    NameAbsent(prefix, names, ns, S, k);
    assert forall j :: 1 <= j < k ==> j in S;
    assert forall x :: x in S ==> x in ns;
  }

  /** A name whose index is not among the parsed indices is not an existing name. */
  lemma NameAbsent(prefix: string, names: seq<string>, ns: seq<int>, S: set<int>, k: int)
    requires NameIndices(prefix, names) == Ok(ns) && S == (set x | x in ns) && k !in S
    ensures prefix + Fmt02(k) !in names
  {
    var n := prefix + Fmt02(k);
    ZFillRoundTrip(k, 2);
    assert PySuffix(n, |prefix|) == Fmt02(k) by {
      assert n[|prefix|..] == Fmt02(k);
    }
    forall j | 0 <= j < |names|
      ensures names[j] != n
    {
      assert ns[j] in S;
    }
  }

  /** `FirstFree` is pinned down by its characterization. */
  lemma FirstFreeIs(S: set<int>, k: int, r: int)
    requires r >= k && r !in S
    requires forall j :: k <= j < r ==> j in S
    ensures FirstFree(S, k) == r
  {
  }

  /** A value met at two positions is counted twice. */
  lemma CountTwice(s: seq<int>, i: nat, j: nat)
    requires i < j < |s| && s[i] == s[j]
    ensures multiset(s)[s[i]] >= 2
  {
    assert s == s[..j] + s[j..];
    assert s[i] in s[..j];
    assert s[j] in s[j..];
  }

  /** Over strictly increasing indices whose values cover `1..s[i]`, the
      scan from `i` ends at the smallest positive value not present. */
  lemma {:induction false} RunEndFree(s: seq<int>, S: set<int>, i: nat)
    requires forall a, b :: 0 <= a < b < |s| ==> s[a] < s[b]
    requires forall x :: x in S <==> x in s
    requires i < |s| && s[i] >= 1 && forall j :: 1 <= j <= s[i] ==> j in S
    ensures RunEnd(s, i) == FirstFree(S, 1)
    decreases |s| - i
  {
    if i + 1 == |s| || s[i + 1] != s[i] + 1 {
      assert s[i] + 1 !in S by {
        forall a | 0 <= a < |s|
          ensures s[a] != s[i] + 1
        {
          if a > i + 1 { assert s[a] > s[i + 1]; }
        }
      }
      FirstFreeIs(S, 1, s[i] + 1);
    } else {
      assert s[i + 1] in S;
      RunEndFree(s, S, i + 1);
    }
  }

  /** Sorting distinct positive integers gives a strictly increasing list of
      positive integers with the same members. */
  lemma SortedDistinct(ns: seq<int>, s: seq<int>, S: set<int>)
    requires (forall i :: 0 <= i < |ns| ==> ns[i] >= 1) && forall x :: multiset(ns)[x] <= 1
    requires Sorted(s) && multiset(s) == multiset(ns) && S == set x | x in ns
    ensures forall x :: x in S <==> x in s
    ensures forall a :: 0 <= a < |s| ==> s[a] >= 1
    ensures forall a, b :: 0 <= a < b < |s| ==> s[a] < s[b]
  {
    forall x
      ensures x in ns <==> x in s
    {
      assert x in ns <==> x in multiset(ns);
      assert x in s <==> x in multiset(s);
    }
    forall a | 0 <= a < |s|
      ensures s[a] >= 1
    {
      assert s[a] in multiset(ns);
    }
    forall a, b | 0 <= a < b < |s|
      ensures s[a] < s[b]
    {
      if s[a] == s[b] {
        CountTwice(s, a, b);
      }
    }
  }

  /** With distinct positive indices the source picks the smallest positive
      index not in use, like the corrected definition. */
  lemma UniqueNameAgrees(prefix: string, names: seq<string>)
    requires NameIndices(prefix, names).Ok?
    requires var ns := NameIndices(prefix, names).value;
             (forall i :: 0 <= i < |ns| ==> ns[i] >= 1) && forall x :: multiset(ns)[x] <= 1
    ensures UniqueNameAsWritten(prefix, names) == UniqueName(prefix, names)
  {
    PickedIsFirstFree(NameIndices(prefix, names).value);
  }

  lemma PickedIsFirstFree(ns: seq<int>)
    requires (forall i :: 0 <= i < |ns| ==> ns[i] >= 1) && forall x :: multiset(ns)[x] <= 1
    ensures PickedIndexAsWritten(SortInts(ns)) == FirstFree(set x | x in ns, 1)
  {
    var s := SortInts(ns);
    var S := set x | x in ns;
    SortedDistinct(ns, s, S);
    PickedIsFirstFreeSorted(s, S);
  }

  lemma PickedIsFirstFreeSorted(s: seq<int>, S: set<int>)
    requires forall x :: x in S <==> x in s
    requires forall a :: 0 <= a < |s| ==> s[a] >= 1
    requires forall a, b :: 0 <= a < b < |s| ==> s[a] < s[b]
    ensures PickedIndexAsWritten(s) == FirstFree(S, 1)
  {
    if |s| == 0 || s[0] != 1 {
      assert 1 !in S by {
        forall a | 0 <= a < |s|
          ensures s[a] != 1
        {
          if a > 0 { assert s[a] > s[0]; }
        }
      }
      FirstFreeIs(S, 1, 1);
    } else {
      assert s[0] in S;
      RunEndFree(s, S, 0);
    }
  }

  /** The parsed indices are determined name by name. */
  lemma {:induction false} NameIndicesOf(prefix: string, names: seq<string>, ns: seq<int>)
    requires |ns| == |names|
    requires forall k :: 0 <= k < |names| ==> ParseInt(PySuffix(names[k], |prefix|)) == Some(ns[k])
    ensures NameIndices(prefix, names) == Ok(ns)
    decreases |names|
  {
    if |names| > 0 {
      var front := names[..|names| - 1];
      NameIndicesOf(prefix, front, ns[..|ns| - 1]);
      assert ns == ns[..|ns| - 1] + [ns[|ns| - 1]];
    }
  }

  lemma SuffixAfter(prefix: string, t: string)
    ensures PySuffix(prefix + t, |prefix|) == t
  {
    assert (prefix + t)[|prefix|..] == t;
  }

  lemma SortExample(s: seq<int>)
    requires s == [1, 1, 2]
    ensures SortInts(s) == s
  {
    var one: seq<int> := [1];
    assert one[..0] == [];
    assert SortInts(one) == one;
    var two: seq<int> := [1, 1];
    assert two[..1] == one;
    assert Insert(1, one) == two;
    assert SortInts(two) == two;
    assert s[..2] == two;
    assert Insert(2, one) == [1, 2];
    assert Insert(2, two) == s;
  }

  /** `int()` of a plain run of digits. */
  lemma ParseDigits(s: string, v: nat)
    requires (s == "1" && v == 1) || (s == "01" && v == 1) || (s == "02" && v == 2)
    ensures ParseInt(s) == Some(v)
  {
    if |s| == 2 {
      assert s[..1] == "0";
      assert DigitsValue("0") == 0;
    } else {
      assert DigitsValue(s) == DigitsValue([]) * 10 + DigitValue(s[0]);
    }
  }

  lemma Fmt02Example(k: int, r: string)
    requires (k == 2 && r == "02") || (k == 3 && r == "03")
    ensures Fmt02(k) == r
  {
    assert IntToStr(k) == [DigitChar(k)];
  }

  /** Two names parsing to the same index (`group01` and `group1`) make the
      source return a name that already exists: the scan stops at the
      repeated 1 and proposes 2, which `group02` holds. The corrected
      definition proposes 3. */
  lemma UniqueNameDuplicate(prefix: string, names: seq<string>)
    requires names == [prefix + "01", prefix + "1", prefix + "02"]
    ensures UniqueNameAsWritten(prefix, names) == Ok(prefix + "02")
    ensures prefix + "02" in names
    ensures UniqueName(prefix, names) == Ok(prefix + "03")
  {
    var ns := [1, 1, 2];
    DuplicateIndices(prefix, names, ns);
    SortExample(ns);
    assert PickedIndexAsWritten(ns) == 2;
    Fmt02Example(2, "02");
    assert names[2] == prefix + "02";
    DuplicateFree(ns);
    Fmt02Example(3, "03");
  }

  lemma DuplicateIndices(prefix: string, names: seq<string>, ns: seq<int>)
    requires names == [prefix + "01", prefix + "1", prefix + "02"] && ns == [1, 1, 2]
    ensures NameIndices(prefix, names) == Ok(ns)
  {
    SuffixAfter(prefix, "01");
    SuffixAfter(prefix, "1");
    SuffixAfter(prefix, "02");
    ParseDigits("01", 1);
    ParseDigits("1", 1);
    ParseDigits("02", 2);
    NameIndicesOf(prefix, names, ns);
  }

  lemma DuplicateFree(ns: seq<int>)
    requires ns == [1, 1, 2]
    ensures FirstFree(set x | x in ns, 1) == 3
  {
    var S := set x | x in ns;
    assert ns[0] == 1 && ns[2] == 2;
    assert 1 in S && 2 in S && 3 !in S;
    FirstFreeIs(S, 1, 3);
  }

  /** `NameIndices` of one more name. */
  lemma NameIndicesSnoc(prefix: string, names: seq<string>, k: nat)
    requires k < |names|
    ensures NameIndices(prefix, names[..k + 1]) ==
            match NameIndices(prefix, names[..k])
            case Err(e) => Err(e)
            case Ok(ns) =>
              match ParseInt(PySuffix(names[k], |prefix|))
              case None => Err("invalid literal for int()")
              case Some(v) => Ok(ns + [v])
  {
    assert names[..k + 1][..k] == names[..k];
  }

  /** `generateUniqueNameSimiarToExisting`, step by step: parse every
      existing name's tail, sort, then walk the sorted indices. */
  method GenerateUniqueName(prefix: string, existingNames: seq<string>) returns (r: Result<string>)
    ensures r == UniqueNameAsWritten(prefix, existingNames)
  {
    var parsed := ParseIndices(prefix, existingNames);
    if parsed.Err? {
      return Err(parsed.reason);
    }
    var nameIndices := SortInts(parsed.value);
    var index := PickIndex(nameIndices);
    return Ok(prefix + Fmt02(index));
  }

  /** The first loop of `generateUniqueNameSimiarToExisting`: the integer
      after the prefix of each existing name, in order. */
  method ParseIndices(prefix: string, existingNames: seq<string>) returns (r: Result<seq<int>>)
    ensures r == NameIndices(prefix, existingNames)
  {
    var nameIndices: seq<int> := [];
    for k := 0 to |existingNames|
      invariant NameIndices(prefix, existingNames[..k]) == Ok(nameIndices)
    {
      NameIndicesSnoc(prefix, existingNames, k);
      var numberLop := PySuffix(existingNames[k], |prefix|);
      var v := ParseInt(numberLop);
      if v.None? {
        assert NameIndices(prefix, existingNames[..k + 1]).Err?;
        NameIndicesErr(prefix, existingNames, k + 1);
        return Err("invalid literal for int()");
      }
      nameIndices := nameIndices + [v.value];
    }
    assert existingNames[..|existingNames|] == existingNames;
    return Ok(nameIndices);
  }

  /** The scan of the sorted indices: `1` unless the smallest index is `1`,
      otherwise one past the end of the first run of consecutive indices. */
  method PickIndex(nameIndices: seq<int>) returns (index: int)
    ensures index == PickedIndexAsWritten(nameIndices)
  {
    if |nameIndices| == 0 || nameIndices[0] != 1 {
      return 1;
    }
    for i := 0 to |nameIndices|
      invariant i < |nameIndices| && RunEnd(nameIndices, i) == RunEnd(nameIndices, 0)
    {
      if |nameIndices| == i + 1 {
        return nameIndices[i] + 1;
      }
      if nameIndices[i + 1] != nameIndices[i] + 1 {
        return nameIndices[i] + 1;
      }
    }
  }

  /** A name that fails to parse makes the whole parse fail, with the same error. */
  lemma NameIndicesErr(prefix: string, names: seq<string>, k: nat)
    requires k <= |names| && NameIndices(prefix, names[..k]).Err?
    ensures NameIndices(prefix, names) == Err("invalid literal for int()")
  {
    var j :| 0 <= j < k && ParseInt(PySuffix(names[..k][j], |prefix|)).None?;
    assert names[..k][j] == names[j];
    NameIndicesErrMessage(prefix, names);
  }

  /** The only error the parse reports is `int()`'s. */
  lemma {:induction false} NameIndicesErrMessage(prefix: string, names: seq<string>)
    ensures NameIndices(prefix, names).Err? ==> NameIndices(prefix, names) == Err("invalid literal for int()")
    decreases |names|
  {
    if |names| > 0 {
      NameIndicesErrMessage(prefix, names[..|names| - 1]);
    }
  }
}
