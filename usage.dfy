/** The variables a node uses (`dagNodeVariablesUsed` in the main window):
    every `$NAME` and `$$NAME` found in the raw (unsubstituted) values and
    ranges of the node's inputs, attributes and outputs, each name once. */
module Usage {
  import opened Wrappers
  import Variables
  import Nodes

  type Node = Nodes.Node
  type Property = Nodes.Property

  /** A range the scan can read: absent, or with both ends set. Scanning a
      missing end hands `None` to the regular expression, which raises. */
  predicate ScannableRange(r: Nodes.Range) {
    r.None? || (r.value.0.Some? && r.value.1.Some?)
  }

  /** The scan of a property does not raise. An output is scanned once per
      sub-output, so an output without any is never read. */
  predicate Scannable(p: Property) {
    (p.OutputProp? && p.files == map[]) || ScannableRange(p.seqRange)
  }

  /** `x` follows `d` dollars in an end of the range. */
  predicate RangeMentions(r: Nodes.Range, d: nat, x: string)
    requires d >= 1
  {
    r.Some? &&
    ((r.value.0.Some? && x in Variables.NamesIn(r.value.0.value, d)) ||
     (r.value.1.Some? && x in Variables.NamesIn(r.value.1.value, d)))
  }

  /** `x` follows `d` dollars somewhere the scan of `p` reads: its value
      (every file of an output) or an end of its range. */
  predicate Mentions(p: Property, d: nat, x: string)
    requires d >= 1
  {
    match p
    case OutputProp(_, _, files, seqRange) =>
      files != map[] && ((exists k :: k in files && x in Variables.NamesIn(files[k], d)) || RangeMentions(seqRange, d, x))
    case InputProp(_, _, _, value, seqRange) =>
      x in Variables.NamesIn(value, d) || RangeMentions(seqRange, d, x)
    case AttributeProp(_, value, _, seqRange) =>
      x in Variables.NamesIn(value, d) || RangeMentions(seqRange, d, x)
  }

  /** A string without `$` mentions no variable. */
  lemma NoDollarNoName(s: string, d: nat, x: string)
    requires d >= 1 && '$' !in s
    ensures x !in Variables.NamesIn(s, d)
  {
    Variables.NoDollarNoMatch(s, d, 0);
  }

  /** No `$` in the property's value (every file of an output) or range. */
  predicate DollarFree(p: Property) {
    (p.OutputProp? ==> forall k :: k in p.files ==> '$' !in p.files[k]) &&
    (!p.OutputProp? ==> '$' !in p.value) &&
    (p.seqRange.Some? ==>
      (p.seqRange.value.0.Some? ==> '$' !in p.seqRange.value.0.value) &&
      (p.seqRange.value.1.Some? ==> '$' !in p.seqRange.value.1.value))
  }

  /** A property holding no `$` anywhere mentions no variable. */
  lemma NoDollarUnused(p: Property, d: nat, x: string)
    requires d >= 1 && DollarFree(p)
    ensures !Mentions(p, d, x)
  {
    if p.seqRange.Some? {
      if p.seqRange.value.0.Some? {
        NoDollarNoName(p.seqRange.value.0.value, d, x);
      }
      if p.seqRange.value.1.Some? {
        NoDollarNoName(p.seqRange.value.1.value, d, x);
      }
    }
    if p.OutputProp? {
      forall k | k in p.files
        ensures x !in Variables.NamesIn(p.files[k], d)
      {
        NoDollarNoName(p.files[k], d, x);
      }
    } else {
      NoDollarNoName(p.value, d, x);
    }
  }

  /** `present` applied to a string and to both ends of a range when one is
      set: the names found after one and after two dollars. */
  method ScanText(s: string, r: Nodes.Range) returns (out: Result<(seq<string>, seq<string>)>)
    ensures out.Err? <==> !ScannableRange(r)
    ensures out.Ok? ==> forall x :: x in out.value.0 <==> x in Variables.NamesIn(s, 1) || RangeMentions(r, 1, x)
    ensures out.Ok? ==> forall x :: x in out.value.1 <==> x in Variables.NamesIn(s, 2) || RangeMentions(r, 2, x)
  {
    var vps0, vps1 := Variables.Present(s);
    var vss0: seq<string>, vss1: seq<string> := [], [];
    var vss20: seq<string>, vss21: seq<string> := [], [];
    if r.Some? {
      if r.value.0.None? || r.value.1.None? {
        return Err("TypeError: expected string or buffer");
      }
      vss0, vss1 := Variables.Present(r.value.0.value);
      vss20, vss21 := Variables.Present(r.value.1.value);
    }
    out := Ok((vps0 + vss0 + vss20, vps1 + vss1 + vss21));
  }

  /** The scan of one property: an input or attribute once, an output once
      per sub-output. */
  method ScanProperty(p: Property) returns (out: Result<(seq<string>, seq<string>)>)
    ensures out.Err? <==> !Scannable(p)
    ensures out.Ok? ==> forall x :: x in out.value.0 <==> Mentions(p, 1, x)
    ensures out.Ok? ==> forall x :: x in out.value.1 <==> Mentions(p, 2, x)
  {
    if !p.OutputProp? {
      out := ScanText(p.value, p.seqRange);
      return;
    }
    var singles: seq<string>, doubles: seq<string> := [], [];
    var rest := p.files.Keys;
    var ok := true;
    while rest != {} && ok
      invariant rest <= p.files.Keys
      invariant ok ==> forall x :: x in singles <==>
        (exists k :: k in p.files.Keys - rest && x in Variables.NamesIn(p.files[k], 1)) ||
        (rest != p.files.Keys && RangeMentions(p.seqRange, 1, x))
      invariant ok ==> forall x :: x in doubles <==>
        (exists k :: k in p.files.Keys - rest && x in Variables.NamesIn(p.files[k], 2)) ||
        (rest != p.files.Keys && RangeMentions(p.seqRange, 2, x))
      invariant !ok ==> !ScannableRange(p.seqRange) && p.files != map[]
      invariant ok && rest != p.files.Keys ==> ScannableRange(p.seqRange)
      decreases rest, if ok then 1 else 0
    {
      var k :| k in rest;
      var scanned := ScanText(p.files[k], p.seqRange);
      if scanned.Err? {
        ok := false;
      } else {
        singles, doubles := singles + scanned.value.0, doubles + scanned.value.1;
        rest := rest - {k};
      }
    }
    if !ok {
      return Err("TypeError: expected string or buffer");
    }
    out := Ok((singles, doubles));
  }

  /** Some property of the node makes the scan raise. */
  predicate Unscannable(n: Node) {
    exists key :: key in n.props && !Scannable(n.props[key])
  }

  /** Some property of the node mentions `x` after `d` dollars. */
  predicate Uses(n: Node, d: nat, x: string)
    requires d >= 1
  {
    exists key :: key in n.props && Mentions(n.props[key], d, x)
  }

  /** `list(set(xs))`: each element once, in some order. */
  method Distinct(xs: seq<string>) returns (ys: seq<string>)
    ensures forall x :: x in ys <==> x in xs
    ensures forall i, j :: 0 <= i < j < |ys| ==> ys[i] != ys[j]
  {
    ys := [];
    var pending := set x | x in xs;
    while pending != {}
      invariant forall x :: x in ys <==> x in xs && x !in pending
      invariant forall x :: x in pending ==> x in xs
      invariant forall i, j :: 0 <= i < j < |ys| ==> ys[i] != ys[j]
      decreases pending
    {
      var x :| x in pending;
      pending := pending - {x};
      ys := ys + [x];
    }
  }

  /** `dagNodeVariablesUsed(n)`: the names after one dollar and the names
      after two dollars the node mentions anywhere, each once; the scan
      raises when a property it reads has a range with a missing end. The
      properties are visited in any order. */
  method VariablesUsed(n: Node) returns (r: Result<(seq<string>, seq<string>)>)
    ensures r.Err? <==> Unscannable(n)
    ensures r.Ok? ==> forall x :: x in r.value.0 <==> Uses(n, 1, x)
    ensures r.Ok? ==> forall x :: x in r.value.1 <==> Uses(n, 2, x)
    ensures r.Ok? ==> forall i, j :: 0 <= i < j < |r.value.0| ==> r.value.0[i] != r.value.0[j]
    ensures r.Ok? ==> forall i, j :: 0 <= i < j < |r.value.1| ==> r.value.1[i] != r.value.1[j]
  {
    var singles: seq<string>, doubles: seq<string> := [], [];
    var rest := n.props.Keys;
    var ok := true;
    while rest != {} && ok
      invariant rest <= n.props.Keys
      invariant ok ==> forall x :: x in singles <==> exists key :: key in n.props.Keys - rest && Mentions(n.props[key], 1, x)
      invariant ok ==> forall x :: x in doubles <==> exists key :: key in n.props.Keys - rest && Mentions(n.props[key], 2, x)
      invariant ok ==> forall key :: key in n.props.Keys - rest ==> Scannable(n.props[key])
      invariant !ok ==> Unscannable(n)
      decreases rest, if ok then 1 else 0
    {
      var key :| key in rest;
      var scanned := ScanProperty(n.props[key]);
      if scanned.Err? {
        ok := false;
      } else {
        singles, doubles := singles + scanned.value.0, doubles + scanned.value.1;
        rest := rest - {key};
      }
    }
    if !ok {
      return Err("TypeError: expected string or buffer");
    }
    var s := Distinct(singles);
    var d := Distinct(doubles);
    r := Ok((s, d));
  }
}
