/** The workflow variable table and the two `$` scanners.

    The table maps a variable name to its value and a read-only flag. A
    string refers to a workflow variable as `$NAME` and to a process
    environment variable as `$$NAME`; `\$` is a literal dollar sign. The
    process environment is passed in as a map. */
module Variables {
  import opened Wrappers
  import opened PyText

  /** One entry of the table: the value and the read-only flag. */
  datatype Variable = Variable(value: string, readOnly: bool)

  /** A `{NAME, VALUE}` record of `changeableList`. */
  datatype NamedValue = NamedValue(name: string, value: string)

  /** Everything substitution reads: the workflow table and the environment. */
  datatype Scope = Scope(vars: map<string, Variable>, environ: map<string, string>)

  function ValuesOf(vars: map<string, Variable>): (m: map<string, string>)
    ensures m.Keys == vars.Keys
    ensures forall k :: k in m ==> m[k] == vars[k].value
  {
    map k | k in vars :: vars[k].value
  }

  // ---------------------------------------------------------------------------
  // The scanners: `(?<!\\)(?<!\$)\${d}(?!\$)[A-Z0-9_]*` for d = 1 and d = 2
  // ---------------------------------------------------------------------------

  predicate IsNameChar(c: char) {
    'A' <= c <= 'Z' || '0' <= c <= '9' || c == '_'
  }

  /** Exactly `d` dollar signs start at `i`: not preceded by `\` or `$`, and
      not followed by another `$`. */
  predicate DollarRunAt(s: string, i: nat, d: nat) {
    i + d <= |s| &&
    (forall t :: i <= t < i + d ==> s[t] == '$') &&
    (i == 0 || (s[i - 1] != '\\' && s[i - 1] != '$')) &&
    (i + d == |s| || s[i + d] != '$')
  }

  /** The end of the longest run of name characters starting at `j`. */
  function NameEnd(s: string, j: nat): (k: nat)
    requires j <= |s|
    ensures j <= k <= |s|
    ensures forall t :: j <= t < k ==> IsNameChar(s[t])
    ensures k == |s| || !IsNameChar(s[k])
    decreases |s| - j
  {
    if j < |s| && IsNameChar(s[j]) then NameEnd(s, j + 1) else j
  }

  /** One regular-expression match: its span and the name after the dollars. */
  datatype Match = Match(start: nat, end: nat, name: string)

  ghost predicate IsMatch(s: string, d: nat, m: Match) {
    DollarRunAt(s, m.start, d) && m.start + d <= |s| &&
    m.end == NameEnd(s, m.start + d) && m.name == s[m.start + d..m.end]
  }

  /** `finditer` from position `from`: the non-overlapping matches, left to right. */
  function Matches(s: string, d: nat, from: nat): (ms: seq<Match>)
    requires d >= 1 && from <= |s|
    ensures forall k :: 0 <= k < |ms| ==> from <= ms[k].start && IsMatch(s, d, ms[k])
    ensures Ordered(ms, from, |s|)
    decreases |s| - from
  {
    if from == |s| then []
    else if DollarRunAt(s, from, d) then
      var e := NameEnd(s, from + d);
      [Match(from, e, s[from + d..e])] + Matches(s, d, e)
    else Matches(s, d, from + 1)
  }

  /** The spans lie in `[pos, n)`, are non-empty and do not overlap, left to right. */
  ghost predicate Ordered(ms: seq<Match>, pos: nat, n: nat) {
    (forall k :: 0 <= k < |ms| ==> pos <= ms[k].start < ms[k].end <= n) &&
    (forall i, j :: 0 <= i < j < |ms| ==> ms[i].end <= ms[j].start)
  }

  function Starts(ms: seq<Match>): set<nat> {
    set m | m in ms :: m.start
  }

  /** The scan finds a match at `i` exactly when `d` dollars start there: a
      run never begins inside an earlier match. */
  lemma {:induction false} MatchStartsExactly(s: string, d: nat, from: nat, i: nat)
    requires d >= 1 && from <= i && from <= |s|
    ensures DollarRunAt(s, i, d) <==> i in Starts(Matches(s, d, from))
    decreases |s| - from
  {
    var ms := Matches(s, d, from);
    if from == |s| {
    } else if DollarRunAt(s, from, d) {
      var e := NameEnd(s, from + d);
      var rest := Matches(s, d, e);
      assert ms == [Match(from, e, s[from + d..e])] + rest;
      StartsCons(Match(from, e, s[from + d..e]), rest);
      if i == from {
      } else if i < e {
        NoRunInside(s, d, from, i);
        assert i !in Starts(rest);
      } else {
        MatchStartsExactly(s, d, e, i);
      }
    } else {
      var rest := Matches(s, d, from + 1);
      assert ms == rest;
      if i == from {
        assert i !in Starts(rest);
      } else {
        MatchStartsExactly(s, d, from + 1, i);
      }
    }
  }

  lemma StartsCons(m: Match, rest: seq<Match>)
    ensures Starts([m] + rest) == {m.start} + Starts(rest)
  {
    var ms := [m] + rest;
    forall x | x in Starts(rest) ensures x in Starts(ms) {
      var q :| q in rest && q.start == x;
      assert q in ms;
    }
  }

  /** No run of dollars starts inside a match. */
  lemma NoRunInside(s: string, d: nat, from: nat, i: nat)
    requires d >= 1 && DollarRunAt(s, from, d) && from < i < NameEnd(s, from + d)
    ensures !DollarRunAt(s, i, d)
  {
    if i < from + d {
      assert s[i - 1] == '$';
    } else {
      assert IsNameChar(s[i]);
    }
  }

  /** The names the scan reports for `d` dollars. */
  function NamesIn(s: string, d: nat): set<string>
    requires d >= 1
  {
    set m | m in Matches(s, d, 0) :: m.name
  }

  /** A run of `d` dollars at `i` followed by the name `n`. */
  ghost predicate NamedRunAt(s: string, i: nat, d: nat, n: string) {
    DollarRunAt(s, i, d) && n == s[i + d..NameEnd(s, i + d)]
  }

  /** `present`'s lists hold exactly the names after a run of `d` dollars
      that is not escaped, not part of a longer run of dollars, and made of
      `[A-Z0-9_]*` up to the first other character. */
  lemma NamesInExactly(s: string, d: nat, n: string)
    requires d >= 1
    ensures n in NamesIn(s, d) <==> exists i: nat :: NamedRunAt(s, i, d, n)
  {
    if n in NamesIn(s, d) {
      var i := NamesInSound(s, d, n);
    }
    if i: nat :| NamedRunAt(s, i, d, n) {
      NamesInComplete(s, d, n, i);
    }
  }

  lemma NamesInSound(s: string, d: nat, n: string) returns (i: nat)
    requires d >= 1 && n in NamesIn(s, d)
    ensures NamedRunAt(s, i, d, n)
  {
    var ms := Matches(s, d, 0);
    var m :| m in ms && m.name == n;
    var k :| 0 <= k < |ms| && ms[k] == m;
    assert IsMatch(s, d, ms[k]);
    i := m.start;
  }

  lemma NamesInComplete(s: string, d: nat, n: string, i: nat)
    requires d >= 1 && NamedRunAt(s, i, d, n)
    ensures n in NamesIn(s, d)
  {
    MatchStartsExactly(s, d, 0, i);
    MatchNamed(s, d, Matches(s, d, 0), i);
  }

  /** The match a scan reports at `i` carries the name after the dollars. */
  lemma MatchNamed(s: string, d: nat, ms: seq<Match>, i: nat)
    requires forall k :: 0 <= k < |ms| ==> IsMatch(s, d, ms[k])
    requires i in Starts(ms) && i + d <= |s|
    ensures s[i + d..NameEnd(s, i + d)] in set m | m in ms :: m.name
  {
    var m :| m in ms && m.start == i;
    var k :| 0 <= k < |ms| && ms[k] == m;
    assert IsMatch(s, d, m);
  }

  lemma NoDollarNoMatch(s: string, d: nat, from: nat)
    requires d >= 1 && from <= |s| && '$' !in s
    ensures Matches(s, d, from) == []
    decreases |s| - from
  {
    if from < |s| {
      assert s[from] != '$';
      NoDollarNoMatch(s, d, from + 1);
    }
  }

  // ---------------------------------------------------------------------------
  // `substitute` as written: offsets of the original matches, spliced into
  // the string that earlier replacements have already changed
  // ---------------------------------------------------------------------------

  /** One pass of `substitute`: for each match found on the original string,
      in order, splice the looked-up value into the current string at the
      match's ORIGINAL offsets, with Python's clamped slicing. */
  function SpliceAll(cur: string, ms: seq<Match>, lookup: map<string, string>): string
    decreases |ms|
  {
    if ms == [] then cur
    else
      var m := ms[0];
      var next := if m.name in lookup
                  then PyPrefix(cur, m.start) + lookup[m.name] + PySuffix(cur, m.end)
                  else cur;
      SpliceAll(next, ms[1..], lookup)
  }

  /** `substitute` exactly as the source computes it. */
  function SubstituteAsWritten(scope: Scope, s: string): string {
    var s1 := SpliceAll(s, Matches(s, 1, 0), ValuesOf(scope.vars));
    var s2 := SpliceAll(s1, Matches(s1, 2, 0), scope.environ);
    Unescape(s2, '$')
  }

  // ---------------------------------------------------------------------------
  // `substitute` as intended: every match replaced in the original string
  // ---------------------------------------------------------------------------

  /** The text from `pos` on, with every match whose name is defined replaced
      by its value and every other match kept verbatim. */
  function Rebuild(s: string, ms: seq<Match>, lookup: map<string, string>, pos: nat): string
    requires pos <= |s|
    requires Ordered(ms, pos, |s|)
    decreases |ms|
  {
    if ms == [] then s[pos..]
    else
      var m := ms[0];
      s[pos..m.start] + (if m.name in lookup then lookup[m.name] else s[m.start..m.end])
        + Rebuild(s, ms[1..], lookup, m.end)
  }

  function ReplacePass(s: string, d: nat, lookup: map<string, string>): string
    requires d >= 1
  {
    Rebuild(s, Matches(s, d, 0), lookup, 0)
  }

  /** `substitute` with every `$NAME` and `$$NAME` replaced in place. */
  function Substitute(scope: Scope, s: string): string {
    var s1 := ReplacePass(s, 1, ValuesOf(scope.vars));
    Unescape(ReplacePass(s1, 2, scope.environ), '$')
  }

  /** Replacing matches whose names are all undefined changes nothing. */
  lemma {:induction false} RebuildUndefined(s: string, ms: seq<Match>, lookup: map<string, string>, pos: nat)
    requires pos <= |s|
    requires Ordered(ms, pos, |s|)
    requires forall k :: 0 <= k < |ms| ==> ms[k].name !in lookup
    ensures Rebuild(s, ms, lookup, pos) == s[pos..]
    decreases |ms|
  {
    if ms != [] {
      var m := ms[0];
      RebuildUndefined(s, ms[1..], lookup, m.end);
      assert s[pos..m.start] + s[m.start..m.end] + s[m.end..] == s[pos..];
    }
  }

  lemma {:induction false} SpliceUndefined(cur: string, ms: seq<Match>, lookup: map<string, string>)
    requires forall k :: 0 <= k < |ms| ==> ms[k].name !in lookup
    ensures SpliceAll(cur, ms, lookup) == cur
    decreases |ms|
  {
    if ms != [] {
      SpliceUndefined(cur, ms[1..], lookup);
    }
  }

  /** Every replacement except the last one keeps the length of the text it replaces. */
  ghost predicate OnlyLastResizes(ms: seq<Match>, lookup: map<string, string>) {
    forall i, j :: 0 <= i < j < |ms| && ms[i].name in lookup && ms[j].name in lookup ==>
      |lookup[ms[i].name]| == ms[i].end - ms[i].start
  }

  lemma OnlyLastResizesTail(ms: seq<Match>, lookup: map<string, string>)
    requires ms != [] && OnlyLastResizes(ms, lookup)
    ensures OnlyLastResizes(ms[1..], lookup)
  {
    forall i, j | 0 <= i < j < |ms[1..]| && ms[1..][i].name in lookup && ms[1..][j].name in lookup
      ensures |lookup[ms[1..][i].name]| == ms[1..][i].end - ms[1..][i].start
    {
      assert ms[1..][i] == ms[i + 1] && ms[1..][j] == ms[j + 1];
    }
  }

  /** Once a replacement changes the length, no later name is defined. */
  lemma ResizedIsLast(ms: seq<Match>, lookup: map<string, string>)
    requires ms != [] && OnlyLastResizes(ms, lookup)
    requires ms[0].name in lookup && |lookup[ms[0].name]| != ms[0].end - ms[0].start
    ensures forall k :: 0 <= k < |ms[1..]| ==> ms[1..][k].name !in lookup
  {
    forall k | 0 <= k < |ms[1..]|
      ensures ms[1..][k].name !in lookup
    {
      assert ms[1..][k] == ms[k + 1];
    }
  }

  /** Splicing at the original offsets is exact as long as only the last
      replacement changes the length: then every earlier offset still points
      at the same text. */
  lemma {:induction false} SpliceExact(s: string, ms: seq<Match>, lookup: map<string, string>, pos: nat, done: string)
    requires pos <= |s| && |done| == pos
    requires Ordered(ms, pos, |s|)
    requires OnlyLastResizes(ms, lookup)
    ensures SpliceAll(done + s[pos..], ms, lookup) == done + Rebuild(s, ms, lookup, pos)
    decreases |ms|
  {
    if ms != [] {
      var m := ms[0];
      var cur := done + s[pos..];
      OnlyLastResizesTail(ms, lookup);
      assert Ordered(ms[1..], m.end, |s|);
      var piece := if m.name in lookup then lookup[m.name] else s[m.start..m.end];
      var next := if m.name in lookup
                  then PyPrefix(cur, m.start) + lookup[m.name] + PySuffix(cur, m.end)
                  else cur;
      assert SpliceAll(cur, ms, lookup) == SpliceAll(next, ms[1..], lookup);
      assert Rebuild(s, ms, lookup, pos) == s[pos..m.start] + piece + Rebuild(s, ms[1..], lookup, m.end);
      SplitAt(s, done, pos, m.start, m.end);
      assert next == (done + s[pos..m.start] + piece) + s[m.end..];
      var done' := done + s[pos..m.start] + piece;
      var rest := Rebuild(s, ms[1..], lookup, m.end);
      if m.name in lookup && |piece| != m.end - m.start {
        ResizedIsLast(ms, lookup);
        SpliceUndefined(next, ms[1..], lookup);
        RebuildUndefined(s, ms[1..], lookup, m.end);
        assert SpliceAll(next, ms[1..], lookup) == done' + rest;
      } else {
        SpliceExact(s, ms[1..], lookup, m.end, done');
        assert SpliceAll(next, ms[1..], lookup) == done' + rest;
      }
      Associate(done, s[pos..m.start], piece, rest);
    }
  }

  lemma Associate(a: string, b: string, c: string, d: string)
    ensures a + (b + c + d) == (a + b + c) + d
  {
  }

  /** Cutting `done + s[pos..]` at offsets `a <= b` of `s`. */
  lemma SplitAt(s: string, done: string, pos: nat, a: nat, b: nat)
    requires |done| == pos && pos <= a <= b <= |s|
    ensures PyPrefix(done + s[pos..], a) == done + s[pos..a]
    ensures PySuffix(done + s[pos..], b) == s[b..]
    ensures done + s[pos..] == (done + s[pos..a] + s[a..b]) + s[b..]
  {
  }

  /** One pass as written agrees with the intended pass whenever only its last
      replacement changes the length; in particular a single replacement is exact. */
  lemma PassAgrees(s: string, d: nat, lookup: map<string, string>)
    requires d >= 1
    requires OnlyLastResizes(Matches(s, d, 0), lookup)
    ensures SpliceAll(s, Matches(s, d, 0), lookup) == ReplacePass(s, d, lookup)
  {
    assert s == "" + s[0..];
    SpliceExact(s, Matches(s, d, 0), lookup, 0, "");
  }

  /** A string without `$` is returned unchanged, by both versions. */
  lemma SubstituteNoDollar(scope: Scope, s: string)
    requires '$' !in s
    ensures Substitute(scope, s) == s
    ensures SubstituteAsWritten(scope, s) == s
  {
    NoDollarNoMatch(s, 1, 0);
    NoDollarNoMatch(s, 2, 0);
    UnescapeWithout(s, '$');
  }

  /** When each pass has at most one length-changing replacement, and it is
      the last, the source's splicing gives the intended result. */
  lemma SubstituteAgrees(scope: Scope, s: string)
    requires OnlyLastResizes(Matches(s, 1, 0), ValuesOf(scope.vars))
    requires OnlyLastResizes(Matches(ReplacePass(s, 1, ValuesOf(scope.vars)), 2, 0), scope.environ)
    ensures SubstituteAsWritten(scope, s) == Substitute(scope, s)
  {
    PassAgrees(s, 1, ValuesOf(scope.vars));
    PassAgrees(ReplacePass(s, 1, ValuesOf(scope.vars)), 2, scope.environ);
  }

  /** With two length-changing replacements the splice offsets drift:
      `"$A $B"` with `A = ""` and `B = "b"` becomes `" $Bb"`, not `" b"`. */
  lemma SubstituteDrifts()
    ensures var scope := Scope(map["A" := Variable("", false), "B" := Variable("b", false)], map[]);
      SubstituteAsWritten(scope, "$A $B") == " $Bb" && Substitute(scope, "$A $B") == " b"
  {
    var scope := Scope(map["A" := Variable("", false), "B" := Variable("b", false)], map[]);
    var lookup := ValuesOf(scope.vars);
    assert lookup == map["A" := "", "B" := "b"];
    ExampleMatches();
    ExampleSplice(lookup);
    NoDoubleIn(" $Bb");
    UnescapeNoBackslash(" $Bb", '$');
    ExampleRebuild(lookup);
    NoDoubleIn(" b");
    UnescapeWithout(" b", '$');
  }

  lemma ExampleMatches()
    ensures Matches("$A $B", 1, 0) == [Match(0, 2, "A"), Match(3, 5, "B")]
  {
    var s := "$A $B";
    assert NameEnd(s, 5) == 5;
    assert NameEnd(s, 4) == 5;
    assert NameEnd(s, 2) == 2;
    assert NameEnd(s, 1) == 2;
    assert s[4..5] == "B" && s[1..2] == "A";
    assert Matches(s, 1, 5) == [];
    assert DollarRunAt(s, 3, 1);
    assert Matches(s, 1, 3) == [Match(3, 5, "B")];
    assert !DollarRunAt(s, 2, 1);
    assert Matches(s, 1, 2) == [Match(3, 5, "B")];
    assert DollarRunAt(s, 0, 1);
  }

  lemma ExampleSplice(lookup: map<string, string>)
    requires lookup == map["A" := "", "B" := "b"]
    ensures SpliceAll("$A $B", [Match(0, 2, "A"), Match(3, 5, "B")], lookup) == " $Bb"
  {
    var s := "$A $B";
    var ms := [Match(0, 2, "A"), Match(3, 5, "B")];
    var afterA := PyPrefix(s, 0) + "" + PySuffix(s, 2);
    assert afterA == " $B";
    var afterB := PyPrefix(afterA, 3) + "b" + PySuffix(afterA, 5);
    assert afterB == " $Bb";
    assert ms[1..] == [Match(3, 5, "B")];
    assert SpliceAll(afterB, [], lookup) == afterB;
    assert SpliceAll(afterA, ms[1..], lookup) == afterB;
  }

  lemma ExampleRebuild(lookup: map<string, string>)
    requires lookup == map["A" := "", "B" := "b"]
    ensures Rebuild("$A $B", [Match(0, 2, "A"), Match(3, 5, "B")], lookup, 0) == " b"
  {
    var s := "$A $B";
    var ms := [Match(0, 2, "A"), Match(3, 5, "B")];
    assert ms[1..] == [Match(3, 5, "B")];
    assert Rebuild(s, [], lookup, 5) == [];
    assert Rebuild(s, ms[1..], lookup, 2) == " b";
  }

  lemma NoDoubleIn(s: string)
    requires forall i :: 0 <= i < |s| - 1 ==> !(s[i] == '$' && s[i + 1] == '$')
    ensures Matches(s, 2, 0) == []
  {
    NoRunFrom(s, 0);
  }

  lemma {:induction false} NoRunFrom(s: string, from: nat)
    requires from <= |s|
    requires forall i :: 0 <= i < |s| - 1 ==> !(s[i] == '$' && s[i + 1] == '$')
    ensures Matches(s, 2, from) == []
    decreases |s| - from
  {
    if from < |s| {
      if from + 1 < |s| {
        assert !(s[from] == '$' && s[from + 1] == '$');
      }
      NoRunFrom(s, from + 1);
    }
  }

  // ---------------------------------------------------------------------------
  // The module-level table and its operations
  // ---------------------------------------------------------------------------

  /** The module-level `variableSubstitutions` dictionary. */
  class VariableTable {
    var vars: map<string, Variable>

    constructor ()
      ensures vars == map[]
    {
      vars := map[];
    }

    /** `add`: a new name starts as `("", False)`; an existing name raises. */
    method Add(name: string) returns (r: Result<()>)
      modifies this
      ensures old(name in vars) ==> r.Err? && vars == old(vars)
      ensures old(name !in vars) ==> r.Ok? && vars == old(vars)[name := Variable("", false)]
    {
      if name !in vars {
        vars := vars[name := Variable("", false)];
        r := Ok(());
      } else {
        r := Err("Variable already exists in substitution dictionary");
      }
    }

    /** `remove`: deletes that key only; an unknown name raises. */
    method Remove(name: string) returns (r: Result<()>)
      modifies this
      ensures old(name !in vars) ==> r.Err? && vars == old(vars)
      ensures old(name in vars) ==> r.Ok? && vars == old(vars) - {name}
    {
      if name in vars {
        vars := vars - {name};
        r := Ok(());
      } else {
        r := Err("Variable does not exist in substitution dictionary");
      }
    }

    /** `setx`: replaces value and flag of an existing name, read-only or not. */
    method Setx(name: string, value: string, readOnly: bool) returns (r: Result<()>)
      modifies this
      ensures old(name !in vars) ==> r.Err? && vars == old(vars)
      ensures old(name in vars) ==> r.Ok? && vars == old(vars)[name := Variable(value, readOnly)]
    {
      if name in vars {
        vars := vars[name := Variable(value, readOnly)];
        r := Ok(());
      } else {
        r := Err("Variable does not exist in substitution dictionary");
      }
    }

    /** `names`. */
    function Names(): (ns: set<string>)
      reads this
      ensures forall n :: n in ns <==> n in vars
    {
      vars.Keys
    }

    /** `value`: the stored value, or an error for an unknown name. */
    function Value(name: string): (r: Result<string>)
      reads this
      ensures r.Ok? <==> name in vars
      ensures r.Ok? ==> r.value == vars[name].value
    {
      if name in vars then Ok(vars[name].value) else Err("Variable does not exist in substitution dictionary")
    }

    /** `changeableList`: one record per entry whose read-only flag is off. */
    method ChangeableList() returns (records: seq<NamedValue>)
      ensures forall n, v :: NamedValue(n, v) in records <==> n in vars && !vars[n].readOnly && vars[n].value == v
      ensures forall i, j :: 0 <= i < j < |records| ==> records[i].name != records[j].name
    {
      records := [];
      var pending := vars.Keys;
      while pending != {}
        invariant pending <= vars.Keys
        invariant forall n, v :: NamedValue(n, v) in records <==>
          n in vars && n !in pending && !vars[n].readOnly && vars[n].value == v
        invariant forall i, j :: 0 <= i < j < |records| ==> records[i].name != records[j].name
        invariant forall i :: 0 <= i < |records| ==> records[i].name !in pending
        decreases |pending|
      {
        var n :| n in pending;
        pending := pending - {n};
        if !vars[n].readOnly {
          records := records + [NamedValue(n, vars[n].value)];
        }
      }
    }

    /** `substitute`, looping over the matches of the string as it was when
        each pass began and splicing into the string being rewritten. */
    method Substitute(incoming: string, environ: map<string, string>) returns (r: string)
      ensures r == SubstituteAsWritten(Scope(vars, environ), incoming)
    {
      var newString := incoming;
      var lookup := ValuesOf(vars);
      var singles := Matches(newString, 1, 0);
      var i := 0;
      while i < |singles|
        invariant i <= |singles|
        invariant SpliceAll(newString, singles[i..], lookup) == SpliceAll(incoming, singles, lookup)
      {
        var m := singles[i];
        if m.name in lookup {
          newString := PyPrefix(newString, m.start) + lookup[m.name] + PySuffix(newString, m.end);
        }
        assert singles[i..][1..] == singles[i + 1..];
        i := i + 1;
      }
      var afterSingles := newString;
      var doubles := Matches(newString, 2, 0);
      i := 0;
      while i < |doubles|
        invariant i <= |doubles|
        invariant SpliceAll(newString, doubles[i..], environ) == SpliceAll(afterSingles, doubles, environ)
      {
        var m := doubles[i];
        if m.name in environ {
          newString := PyPrefix(newString, m.start) + environ[m.name] + PySuffix(newString, m.end);
        }
        assert doubles[i..][1..] == doubles[i + 1..];
        i := i + 1;
      }
      r := Unescape(newString, '$');
    }
  }

  /** `present`: the de-duplicated names after single and after double dollars. */
  method Present(s: string) returns (singles: seq<string>, doubles: seq<string>)
    ensures forall n :: n in singles <==> n in NamesIn(s, 1)
    ensures forall n :: n in doubles <==> n in NamesIn(s, 2)
    ensures forall i, j :: 0 <= i < j < |singles| ==> singles[i] != singles[j]
    ensures forall i, j :: 0 <= i < j < |doubles| ==> doubles[i] != doubles[j]
  {
    singles := CollectNames(Matches(s, 1, 0));
    doubles := CollectNames(Matches(s, 2, 0));
  }

  /** The loop over `finditer` followed by `list(set(...))`. */
  method CollectNames(ms: seq<Match>) returns (names: seq<string>)
    ensures forall n :: n in names <==> exists m :: m in ms && m.name == n
    ensures forall i, j :: 0 <= i < j < |names| ==> names[i] != names[j]
  {
    var seen: set<string> := {};
    var i := 0;
    while i < |ms|
      invariant i <= |ms|
      invariant forall n :: n in seen <==> exists k :: 0 <= k < i && ms[k].name == n
    {
      seen := seen + {ms[i].name};
      i := i + 1;
    }
    names := [];
    var pending := seen;
    while pending != {}
      invariant pending <= seen
      invariant forall n :: n in names <==> n in seen && n !in pending
      invariant forall a, b :: 0 <= a < b < |names| ==> names[a] != names[b]
      decreases |pending|
    {
      var n :| n in pending;
      pending := pending - {n};
      names := names + [n];
    }
    forall n | n in names
      ensures exists m :: m in ms && m.name == n
    {
      var k :| 0 <= k < |ms| && ms[k].name == n;
      assert ms[k] in ms;
    }
  }
}
