// What the wildcards of a catalog glob mean, stated on the pattern text
// itself and proved to be what the compiled rule accepts.
//
// A glob is read as a template: each wildcard is replaced by a "fill".
// In the path every `*` takes any string, the empty one included. In the
// domain a `*.` takes either nothing or one non-empty dot-free label with
// its dot, and any other `*` takes any string. All other characters stand
// for themselves.
module Wildcards {
  import opened Wrappers
  import opened Pattern

  // ---------------------------------------------------------------------
  // Filling a glob
  // ---------------------------------------------------------------------

  /** The number of `*` in a path glob. */
  function PathWildcards(p: string): nat
  {
    if p == [] then 0
    else (if p[0] == '*' then 1 else 0) + PathWildcards(p[1..])
  }

  /** The path glob with its `*`s replaced, in order, by the fills. */
  function FillPath(p: string, fills: seq<string>): string
    requires |fills| == PathWildcards(p)
  {
    if p == [] then []
    else if p[0] == '*' then fills[0] + FillPath(p[1..], fills[1..])
    else [p[0]] + FillPath(p[1..], fills)
  }

  /** The number of wildcards in a domain glob: a `*.` counts once, and so does any other `*`. */
  function DomainWildcards(d: string): nat
  {
    if d == [] then 0
    else if d[0] == '*' && |d| > 1 && d[1] == '.' then 1 + DomainWildcards(d[2..])
    else if d[0] == '*' then 1 + DomainWildcards(d[1..])
    else DomainWildcards(d[1..])
  }

  /** The domain glob with its wildcards replaced, in order, by the fills; a `*.` is replaced together with its dot. */
  function FillDomain(d: string, fills: seq<string>): string
    requires |fills| == DomainWildcards(d)
  {
    if d == [] then []
    else if d[0] == '*' && |d| > 1 && d[1] == '.' then fills[0] + FillDomain(d[2..], fills[1..])
    else if d[0] == '*' then fills[0] + FillDomain(d[1..], fills[1..])
    else [d[0]] + FillDomain(d[1..], fills)
  }

  /** What may stand for `*.`: nothing, or a non-empty dot-free label followed by a dot. */
  predicate IsLabelFill(f: string) {
    f == [] || (|f| >= 2 && f[|f| - 1] == '.' && NoDot(f[..|f| - 1]))
  }

  /** Every fill of a `*.` in the domain glob is a label fill; fills of other `*`s are unconstrained. */
  predicate FitsDomain(d: string, fills: seq<string>)
    requires |fills| == DomainWildcards(d)
  {
    if d == [] then true
    else if d[0] == '*' && |d| > 1 && d[1] == '.' then IsLabelFill(fills[0]) && FitsDomain(d[2..], fills[1..])
    else if d[0] == '*' then FitsDomain(d[1..], fills[1..])
    else FitsDomain(d[1..], fills)
  }

  /**
   * The glob reading of a split pattern: u starts with the scheme, `://`,
   * a filling of the domain and a filling of the path.
   */
  ghost predicate GlobAccepts(parts: Parts, u: string) {
    exists dfills: seq<string>, pfills: seq<string> ::
      |dfills| == DomainWildcards(parts.domain) && |pfills| == PathWildcards(parts.path)
      && FitsDomain(parts.domain, dfills)
      && parts.scheme + "://" + FillDomain(parts.domain, dfills) + FillPath(parts.path, pfills) <= u
  }

  /** Filling a concatenated path glob fills each part with its own fills. */
  lemma {:induction false} FillPathAppend(a: string, b: string, fa: seq<string>, fb: seq<string>)
    requires |fa| == PathWildcards(a) && |fb| == PathWildcards(b)
    ensures PathWildcards(a + b) == |fa| + |fb|
    ensures FillPath(a + b, fa + fb) == FillPath(a, fa) + FillPath(b, fb)
    decreases |a|, 1
  {
    if a == [] {
      assert a + b == b && fa + fb == fb;
    } else if a[0] == '*' {
      PathStarAppend(a, b, fa, fb);
    } else {
      PathLitAppend(a, b, fa, fb);
    }
  }

  lemma {:induction false} PathStarAppend(a: string, b: string, fa: seq<string>, fb: seq<string>)
    requires a != [] && a[0] == '*'
    requires |fa| == PathWildcards(a) && |fb| == PathWildcards(b)
    ensures PathWildcards(a + b) == |fa| + |fb|
    ensures FillPath(a + b, fa + fb) == FillPath(a, fa) + FillPath(b, fb)
    decreases |a|, 0
  {
    var ab, fs := a + b, fa + fb;
    assert ab[0] == '*' && ab[1..] == a[1..] + b;
    assert fs[0] == fa[0] && fs[1..] == fa[1..] + fb;
    FillPathAppend(a[1..], b, fa[1..], fb);
    var x, y := FillPath(a[1..], fa[1..]), FillPath(b, fb);
    assert FillPath(ab, fs) == fa[0] + (x + y);
    assert FillPath(a, fa) == fa[0] + x;
    AppendAssoc(fa[0], x, y);
  }

  lemma {:induction false} PathLitAppend(a: string, b: string, fa: seq<string>, fb: seq<string>)
    requires a != [] && a[0] != '*'
    requires |fa| == PathWildcards(a) && |fb| == PathWildcards(b)
    ensures PathWildcards(a + b) == |fa| + |fb|
    ensures FillPath(a + b, fa + fb) == FillPath(a, fa) + FillPath(b, fb)
    decreases |a|, 0
  {
    var ab := a + b;
    assert ab[0] == a[0] && ab[1..] == a[1..] + b;
    FillPathAppend(a[1..], b, fa, fb);
    var x, y := FillPath(a[1..], fa), FillPath(b, fb);
    assert FillPath(ab, fa + fb) == [a[0]] + (x + y);
    assert FillPath(a, fa) == [a[0]] + x;
    AppendAssoc([a[0]], x, y);
  }

  /** In a path glob, a `*` between a and b stands for any string r, the empty one included. */
  lemma PathStarTakesAnyRun(a: string, b: string, fa: seq<string>, fb: seq<string>, r: string)
    requires |fa| == PathWildcards(a) && |fb| == PathWildcards(b)
    ensures PathWildcards(a + "*" + b) == |fa| + 1 + |fb|
    ensures FillPath(a + "*" + b, fa + [r] + fb) == FillPath(a, fa) + r + FillPath(b, fb)
  {
    assert FillPath("*", [r]) == r + FillPath([], []);
    FillPathAppend(a, "*", fa, [r]);
    FillPathAppend(a + "*", b, fa + [r], fb);
  }

  /** A domain glob a that ends in `*` cannot be joined to a b that starts with `.`: the two would form a `*.`. */
  predicate Joinable(a: string, b: string) {
    !(a != [] && a[|a| - 1] == '*' && b != [] && b[0] == '.')
  }

  /** Filling a concatenated domain glob fills each part with its own fills, unless the join forms a new `*.`. */
  lemma {:induction false} FillDomainAppend(a: string, b: string, fa: seq<string>, fb: seq<string>)
    requires |fa| == DomainWildcards(a) && |fb| == DomainWildcards(b) && Joinable(a, b)
    ensures DomainWildcards(a + b) == |fa| + |fb|
    ensures FitsDomain(a + b, fa + fb) <==> FitsDomain(a, fa) && FitsDomain(b, fb)
    ensures FillDomain(a + b, fa + fb) == FillDomain(a, fa) + FillDomain(b, fb)
    decreases |a|, 1
  {
    if a == [] {
      assert a + b == b && fa + fb == fb;
    } else if a[0] == '*' && |a| > 1 && a[1] == '.' {
      LabelAppend(a, b, fa, fb);
    } else if a[0] == '*' {
      StarAppend(a, b, fa, fb);
    } else {
      LitAppend(a, b, fa, fb);
    }
  }

  lemma {:induction false} LabelAppend(a: string, b: string, fa: seq<string>, fb: seq<string>)
    requires |a| > 1 && a[0] == '*' && a[1] == '.'
    requires |fa| == DomainWildcards(a) && |fb| == DomainWildcards(b) && Joinable(a, b)
    ensures DomainWildcards(a + b) == |fa| + |fb|
    ensures FitsDomain(a + b, fa + fb) <==> FitsDomain(a, fa) && FitsDomain(b, fb)
    ensures FillDomain(a + b, fa + fb) == FillDomain(a, fa) + FillDomain(b, fb)
    decreases |a|, 0
  {
    var ab, fs := a + b, fa + fb;
    assert ab[0] == '*' && ab[1] == '.' && ab[2..] == a[2..] + b;
    assert fs[0] == fa[0] && fs[1..] == fa[1..] + fb;
    FillDomainAppend(a[2..], b, fa[1..], fb);
  }

  lemma {:induction false} StarAppend(a: string, b: string, fa: seq<string>, fb: seq<string>)
    requires a != [] && a[0] == '*' && !(|a| > 1 && a[1] == '.')
    requires |fa| == DomainWildcards(a) && |fb| == DomainWildcards(b) && Joinable(a, b)
    ensures DomainWildcards(a + b) == |fa| + |fb|
    ensures FitsDomain(a + b, fa + fb) <==> FitsDomain(a, fa) && FitsDomain(b, fb)
    ensures FillDomain(a + b, fa + fb) == FillDomain(a, fa) + FillDomain(b, fb)
    decreases |a|, 0
  {
    var ab, fs := a + b, fa + fb;
    assert ab[0] == '*' && ab[1..] == a[1..] + b;
    assert !(|ab| > 1 && ab[1] == '.');
    assert fs[0] == fa[0] && fs[1..] == fa[1..] + fb;
    FillDomainAppend(a[1..], b, fa[1..], fb);
    var x, y := FillDomain(a[1..], fa[1..]), FillDomain(b, fb);
    assert FillDomain(ab, fs) == fa[0] + (x + y);
    assert FillDomain(a, fa) == fa[0] + x;
    AppendAssoc(fa[0], x, y);
  }

  lemma {:induction false} LitAppend(a: string, b: string, fa: seq<string>, fb: seq<string>)
    requires a != [] && a[0] != '*'
    requires |fa| == DomainWildcards(a) && |fb| == DomainWildcards(b) && Joinable(a, b)
    ensures DomainWildcards(a + b) == |fa| + |fb|
    ensures FitsDomain(a + b, fa + fb) <==> FitsDomain(a, fa) && FitsDomain(b, fb)
    ensures FillDomain(a + b, fa + fb) == FillDomain(a, fa) + FillDomain(b, fb)
    decreases |a|, 0
  {
    var ab := a + b;
    assert ab[0] == a[0] && ab[1..] == a[1..] + b;
    assert a[1..] != [] ==> a[1..][|a[1..]| - 1] == a[|a| - 1];
    FillDomainAppend(a[1..], b, fa, fb);
    var x, y := FillDomain(a[1..], fa), FillDomain(b, fb);
    assert FillDomain(ab, fa + fb) == [a[0]] + (x + y);
    assert FillDomain(a, fa) == [a[0]] + x;
    AppendAssoc([a[0]], x, y);
  }

  /** In a domain glob, a `*` not followed by `.` stands for any string r, the empty one included. */
  lemma DomainStarTakesAnyRun(a: string, b: string, fa: seq<string>, fb: seq<string>, r: string)
    requires |fa| == DomainWildcards(a) && |fb| == DomainWildcards(b)
    requires b == [] || b[0] != '.'
    ensures DomainWildcards(a + "*" + b) == |fa| + 1 + |fb|
    ensures FitsDomain(a + "*" + b, fa + [r] + fb) <==> FitsDomain(a, fa) && FitsDomain(b, fb)
    ensures FillDomain(a + "*" + b, fa + [r] + fb) == FillDomain(a, fa) + r + FillDomain(b, fb)
  {
    LoneDomainStar(r);
    FillDomainAppend(a, "*", fa, [r]);
    assert Joinable(a + "*", b);
    FillDomainAppend(a + "*", b, fa + [r], fb);
  }

  /** The domain glob `*` on its own is one wildcard, and any string fills it. */
  lemma LoneDomainStar(r: string)
    ensures DomainWildcards("*") == 1 && FitsDomain("*", [r]) && FillDomain("*", [r]) == r
  {
    var d := "*";
    assert d[1..] == [];
    assert FillDomain(d, [r]) == r + FillDomain([], []);
  }

  // ---------------------------------------------------------------------
  // Full matches of concatenated rules
  // ---------------------------------------------------------------------

  // One introduction rule per token kind for a match that consumes the whole string.

  lemma FullLit(t: seq<Token>, w: string)
    requires t != [] && t[0].Lit? && w != [] && w[0] == t[0].c && FullMatch(t[1..], w[1..])
    ensures FullMatch(t, w)
  {
  }

  lemma FullAnyRun(t: seq<Token>, w: string, k: nat)
    requires t != [] && t[0] == AnyRun && k <= |w| && FullMatch(t[1..], w[k..])
    ensures FullMatch(t, w)
  {
  }

  lemma FullOptLabel(t: seq<Token>, w: string, k: nat)
    requires t != [] && t[0] == OptLabel
    requires k == 0 || (k < |w| && w[k] == '.' && NoDot(w[..k]))
    requires FullMatch(t[1..], if k == 0 then w else w[k + 1..])
    ensures FullMatch(t, w)
  {
  }

  /** A rule that fully matches a and a rule that fully matches b together fully match a + b. */
  lemma {:induction false} FullMatchJoin(t1: seq<Token>, t2: seq<Token>, a: string, b: string)
    requires FullMatch(t1, a) && FullMatch(t2, b)
    ensures FullMatch(t1 + t2, a + b)
    decreases |t1|, 1
  {
    if t1 == [] {
      assert t1 + t2 == t2 && a + b == b;
    } else {
      match t1[0]
      case Lit(_) => LitJoin(t1, t2, a, b);
      case AnyRun => AnyRunJoin(t1, t2, a, b);
      case OptLabel => OptLabelJoin(t1, t2, a, b);
    }
  }

  lemma {:induction false} LitJoin(t1: seq<Token>, t2: seq<Token>, a: string, b: string)
    requires t1 != [] && t1[0].Lit? && FullMatch(t1, a) && FullMatch(t2, b)
    ensures FullMatch(t1 + t2, a + b)
    decreases |t1|, 0
  {
    FullMatchJoin(t1[1..], t2, a[1..], b);
    var t := t1 + t2;
    assert t[0] == t1[0] && t[1..] == t1[1..] + t2;
    assert (a + b)[1..] == a[1..] + b;
    FullLit(t, a + b);
  }

  lemma {:induction false} AnyRunJoin(t1: seq<Token>, t2: seq<Token>, a: string, b: string)
    requires t1 != [] && t1[0] == AnyRun && FullMatch(t1, a) && FullMatch(t2, b)
    ensures FullMatch(t1 + t2, a + b)
    decreases |t1|, 0
  {
    var k :| 0 <= k <= |a| && FullMatch(t1[1..], a[k..]);
    FullMatchJoin(t1[1..], t2, a[k..], b);
    var t := t1 + t2;
    assert t[0] == t1[0] && t[1..] == t1[1..] + t2;
    assert (a + b)[k..] == a[k..] + b;
    FullAnyRun(t, a + b, k);
  }

  lemma {:induction false} OptLabelJoin(t1: seq<Token>, t2: seq<Token>, a: string, b: string)
    requires t1 != [] && t1[0] == OptLabel && FullMatch(t1, a) && FullMatch(t2, b)
    ensures FullMatch(t1 + t2, a + b)
    decreases |t1|, 0
  {
    var t := t1 + t2;
    assert t[0] == t1[0] && t[1..] == t1[1..] + t2;
    if FullMatch(t1[1..], a) {
      FullMatchJoin(t1[1..], t2, a, b);
      FullOptLabel(t, a + b, 0);
    } else {
      var k :| 0 < k < |a| && a[k] == '.' && NoDot(a[..k]) && FullMatch(t1[1..], a[k + 1..]);
      FullMatchJoin(t1[1..], t2, a[k + 1..], b);
      assert (a + b)[..k] == a[..k] && (a + b)[k] == '.' && (a + b)[k + 1..] == a[k + 1..] + b;
      FullOptLabel(t, a + b, k);
    }
  }

  /** A label and its dot at the front of w, followed by a' and b', as the pieces a full-match split needs. */
  lemma LabelThenRest(w: string, k: nat, a': string, b': string)
    requires 0 < k < |w| && w[k] == '.' && NoDot(w[..k]) && w[k + 1..] == a' + b'
    ensures var a := w[..k + 1] + a';
            w == a + b' && a[..k] == w[..k] && k < |a| && a[k] == '.' && NoDot(a[..k]) && a[k + 1..] == a'
  {
    var a := w[..k + 1] + a';
    assert a[..k] == w[..k];
    assert a[k + 1..] == a';
    assert w == w[..k + 1] + w[k + 1..];
  }

  /** A full match of a concatenated rule splits the string into a full match of each part. */
  lemma {:induction false} FullMatchSplit(t1: seq<Token>, t2: seq<Token>, w: string) returns (a: string, b: string)
    requires FullMatch(t1 + t2, w)
    ensures w == a + b && FullMatch(t1, a) && FullMatch(t2, b)
    decreases |t1|, 1
  {
    if t1 == [] {
      assert t1 + t2 == t2;
      a, b := [], w;
    } else {
      match t1[0]
      case Lit(_) => a, b := LitSplit(t1, t2, w);
      case AnyRun => a, b := AnyRunSplit(t1, t2, w);
      case OptLabel => a, b := OptLabelSplit(t1, t2, w);
    }
  }

  lemma {:induction false} LitSplit(t1: seq<Token>, t2: seq<Token>, w: string) returns (a: string, b: string)
    requires t1 != [] && t1[0].Lit? && FullMatch(t1 + t2, w)
    ensures w == a + b && FullMatch(t1, a) && FullMatch(t2, b)
    decreases |t1|, 0
  {
    var t := t1 + t2;
    assert t[0] == t1[0] && t[1..] == t1[1..] + t2;
    var a', b' := FullMatchSplit(t1[1..], t2, w[1..]);
    a, b := [w[0]] + a', b';
    assert a[1..] == a';
    FullLit(t1, a);
  }

  lemma {:induction false} AnyRunSplit(t1: seq<Token>, t2: seq<Token>, w: string) returns (a: string, b: string)
    requires t1 != [] && t1[0] == AnyRun && FullMatch(t1 + t2, w)
    ensures w == a + b && FullMatch(t1, a) && FullMatch(t2, b)
    decreases |t1|, 0
  {
    var t := t1 + t2;
    assert t[0] == t1[0] && t[1..] == t1[1..] + t2;
    var k :| 0 <= k <= |w| && FullMatch(t[1..], w[k..]);
    var a', b' := FullMatchSplit(t1[1..], t2, w[k..]);
    var run := w[..k];
    a, b := run + a', b';
    assert w == run + w[k..];
    AppendAssoc(run, a', b');
    assert a[k..] == a';
    FullAnyRun(t1, a, k);
  }

  lemma {:induction false} OptLabelSplit(t1: seq<Token>, t2: seq<Token>, w: string) returns (a: string, b: string)
    requires t1 != [] && t1[0] == OptLabel && FullMatch(t1 + t2, w)
    ensures w == a + b && FullMatch(t1, a) && FullMatch(t2, b)
    decreases |t1|, 0
  {
    var t := t1 + t2;
    assert t[0] == t1[0] && t[1..] == t1[1..] + t2;
    if FullMatch(t[1..], w) {
      a, b := FullMatchSplit(t1[1..], t2, w);
      FullOptLabel(t1, a, 0);
    } else {
      var k :| 0 < k < |w| && w[k] == '.' && NoDot(w[..k]) && FullMatch(t[1..], w[k + 1..]);
      var a', b' := FullMatchSplit(t1[1..], t2, w[k + 1..]);
      a, b := w[..k + 1] + a', b';
      LabelThenRest(w, k, a', b');
      FullOptLabel(t1, a, k);
    }
  }

  // ---------------------------------------------------------------------
  // The compiled path and domain accept exactly their fillings
  // ---------------------------------------------------------------------

  /** Every filling of a path glob is fully matched by its compiled tokens. */
  lemma {:induction false} PathFillMatches(p: string, fills: seq<string>)
    requires |fills| == PathWildcards(p)
    ensures FullMatch(PathTokens(p), FillPath(p, fills))
  {
    if p != [] {
      var t := PathTokens(p);
      assert t[1..] == PathTokens(p[1..]);
      if p[0] == '*' {
        PathFillMatches(p[1..], fills[1..]);
        var w := FillPath(p, fills);
        assert w[|fills[0]|..] == FillPath(p[1..], fills[1..]);
      } else {
        PathFillMatches(p[1..], fills);
        assert FillPath(p, fills)[1..] == FillPath(p[1..], fills);
      }
    }
  }

  /** Every string fully matched by the compiled tokens of a path glob is a filling of it. */
  lemma {:induction false} PathMatchFills(p: string, w: string) returns (fills: seq<string>)
    requires FullMatch(PathTokens(p), w)
    ensures |fills| == PathWildcards(p) && FillPath(p, fills) == w
  {
    if p == [] {
      fills := [];
    } else {
      var t := PathTokens(p);
      assert t[1..] == PathTokens(p[1..]);
      if p[0] == '*' {
        var k :| 0 <= k <= |w| && FullMatch(t[1..], w[k..]);
        var rest := PathMatchFills(p[1..], w[k..]);
        fills := [w[..k]] + rest;
        assert fills[1..] == rest;
        assert w == w[..k] + w[k..];
      } else {
        fills := PathMatchFills(p[1..], w[1..]);
        assert w == [w[0]] + w[1..];
      }
    }
  }

  /** Every filling of a domain glob whose label fills fit is fully matched by its compiled tokens. */
  lemma {:induction false} DomainFillMatches(d: string, fills: seq<string>)
    requires |fills| == DomainWildcards(d) && FitsDomain(d, fills)
    ensures FullMatch(DomainTokens(d), FillDomain(d, fills))
  {
    if d != [] {
      var t := DomainTokens(d);
      var w := FillDomain(d, fills);
      if d[0] == '*' && |d| > 1 && d[1] == '.' {
        assert t[0] == OptLabel && t[1..] == DomainTokens(d[2..]);
        DomainFillMatches(d[2..], fills[1..]);
        var f := fills[0];
        if f == [] {
          assert w == FillDomain(d[2..], fills[1..]);
        } else {
          var k := |f| - 1;
          assert w[..k] == f[..k] && w[k] == '.';
          assert w[k + 1..] == FillDomain(d[2..], fills[1..]);
        }
      } else if d[0] == '*' {
        assert t[0] == AnyRun && t[1..] == DomainTokens(d[1..]);
        DomainFillMatches(d[1..], fills[1..]);
        assert w[|fills[0]|..] == FillDomain(d[1..], fills[1..]);
      } else {
        assert t[0] == Lit(d[0]) && t[1..] == DomainTokens(d[1..]);
        DomainFillMatches(d[1..], fills);
        assert w[1..] == FillDomain(d[1..], fills);
      }
    }
  }

  /** Every string fully matched by the compiled tokens of a domain glob is a filling of it whose label fills fit. */
  lemma {:induction false} DomainMatchFills(d: string, w: string) returns (fills: seq<string>)
    requires FullMatch(DomainTokens(d), w)
    ensures |fills| == DomainWildcards(d) && FitsDomain(d, fills) && FillDomain(d, fills) == w
    decreases |d|, 1
  {
    if d == [] {
      fills := [];
    } else if d[0] == '*' && |d| > 1 && d[1] == '.' {
      fills := LabelMatchFills(d, w);
    } else if d[0] == '*' {
      fills := StarMatchFills(d, w);
    } else {
      fills := LitMatchFills(d, w);
    }
  }

  lemma {:induction false} LabelMatchFills(d: string, w: string) returns (fills: seq<string>)
    requires |d| > 1 && d[0] == '*' && d[1] == '.' && FullMatch(DomainTokens(d), w)
    ensures |fills| == DomainWildcards(d) && FitsDomain(d, fills) && FillDomain(d, fills) == w
    decreases |d|, 0
  {
    var t := DomainTokens(d);
    assert t[0] == OptLabel && t[1..] == DomainTokens(d[2..]);
    if FullMatch(t[1..], w) {
      var rest := DomainMatchFills(d[2..], w);
      fills := [[]] + rest;
      assert fills[1..] == rest;
    } else {
      var k :| 0 < k < |w| && w[k] == '.' && NoDot(w[..k]) && FullMatch(t[1..], w[k + 1..]);
      var rest := DomainMatchFills(d[2..], w[k + 1..]);
      LabelFillOf(w, k);
      fills := [w[..k + 1]] + rest;
      assert fills[1..] == rest;
    }
  }

  /** A non-empty dot-free label and its dot at the front of w form a label fill. */
  lemma LabelFillOf(w: string, k: nat)
    requires 0 < k < |w| && w[k] == '.' && NoDot(w[..k])
    ensures IsLabelFill(w[..k + 1]) && w == w[..k + 1] + w[k + 1..]
  {
    var f := w[..k + 1];
    assert f[..|f| - 1] == w[..k];
  }

  lemma {:induction false} StarMatchFills(d: string, w: string) returns (fills: seq<string>)
    requires d != [] && d[0] == '*' && !(|d| > 1 && d[1] == '.') && FullMatch(DomainTokens(d), w)
    ensures |fills| == DomainWildcards(d) && FitsDomain(d, fills) && FillDomain(d, fills) == w
    decreases |d|, 0
  {
    var t := DomainTokens(d);
    assert t[0] == AnyRun && t[1..] == DomainTokens(d[1..]);
    var k :| 0 <= k <= |w| && FullMatch(t[1..], w[k..]);
    var rest := DomainMatchFills(d[1..], w[k..]);
    fills := [w[..k]] + rest;
    assert fills[1..] == rest;
    assert w == w[..k] + w[k..];
  }

  lemma {:induction false} LitMatchFills(d: string, w: string) returns (fills: seq<string>)
    requires d != [] && d[0] != '*' && FullMatch(DomainTokens(d), w)
    ensures |fills| == DomainWildcards(d) && FitsDomain(d, fills) && FillDomain(d, fills) == w
    decreases |d|, 0
  {
    var t := DomainTokens(d);
    assert t[0] == Lit(d[0]) && t[1..] == DomainTokens(d[1..]);
    fills := DomainMatchFills(d[1..], w[1..]);
    assert w == [w[0]] + w[1..];
  }

  // ---------------------------------------------------------------------
  // The compiled glob accepts exactly the glob reading
  // ---------------------------------------------------------------------

  /** The compiled rule of a glob is the escaped scheme and `://`, then the domain and path tokens. */
  lemma GlobRule(text: string) returns (parts: Parts)
    requires Split(text).Some?
    ensures parts == Split(text).value
    ensures UrlToRegex(Glob(text))
         == Some(Literals(parts.scheme + "://") + (DomainTokens(parts.domain) + PathTokens(parts.path)))
  {
    parts := Split(text).value;
    LiteralsAppend(parts.scheme, "://");
    var l1, l2 := Literals(parts.scheme), Literals("://");
    var d, p := DomainTokens(parts.domain), PathTokens(parts.path);
    assert l1 + l2 + d + p == (l1 + l2) + (d + p);
  }

  /** A string that starts with s and whose rest starts with x starts with s + x. */
  lemma PrefixJoin(s: string, x: string, u: string)
    requires s <= u && x <= u[|s|..]
    ensures s + x <= u
  {
    assert (s + x)[..|s|] == s;
    assert forall i :: |s| <= i < |s + x| ==> (s + x)[i] == x[i - |s|] == u[|s|..][i - |s|] == u[i];
  }

  /** A match of the compiled glob yields fills for which the glob reading accepts the URL. */
  lemma CompiledImpliesGlob(text: string, u: string) returns (dfills: seq<string>, pfills: seq<string>)
    requires Split(text).Some? && SchemeMatches(Glob(text), u)
    ensures var parts := Split(text).value;
            |dfills| == DomainWildcards(parts.domain) && |pfills| == PathWildcards(parts.path)
            && FitsDomain(parts.domain, dfills)
            && parts.scheme + "://" + FillDomain(parts.domain, dfills) + FillPath(parts.path, pfills) <= u
  {
    var parts := GlobRule(text);
    var s := parts.scheme + "://";
    var dp := DomainTokens(parts.domain) + PathTokens(parts.path);
    SchemeMatchesBy(Glob(text), Literals(s) + dp, u);
    MatchesLiterals(s, dp, u);
    var v := u[|s|..];
    var n := MatchHasFullPrefix(dp, v);
    var a, b := FullMatchSplit(DomainTokens(parts.domain), PathTokens(parts.path), v[..n]);
    dfills := DomainMatchFills(parts.domain, a);
    pfills := PathMatchFills(parts.path, b);
    PrefixJoin(s, a + b, u);
    assert s + (a + b) == s + a + b;
  }

  /** A filling of domain and path is fully matched by the domain tokens followed by the path tokens. */
  lemma FillingFullyMatches(d: string, p: string, dfills: seq<string>, pfills: seq<string>)
    requires |dfills| == DomainWildcards(d) && |pfills| == PathWildcards(p) && FitsDomain(d, dfills)
    ensures FullMatch(DomainTokens(d) + PathTokens(p), FillDomain(d, dfills) + FillPath(p, pfills))
  {
    DomainFillMatches(d, dfills);
    PathFillMatches(p, pfills);
    FullMatchJoin(DomainTokens(d), PathTokens(p), FillDomain(d, dfills), FillPath(p, pfills));
  }

  /** Literals of s followed by a rule that fully matches x match every string that starts with s + x. */
  lemma MatchesAfterPrefix(s: string, t: seq<Token>, x: string, u: string)
    requires FullMatch(t, x) && s + x <= u
    ensures Matches(Literals(s) + t, u)
  {
    var v := u[|s|..];
    assert (s + x)[..|s|] == s;
    assert s <= u;
    assert forall i :: 0 <= i < |x| ==> x[i] == (s + x)[|s| + i] == v[i];
    assert v == x + v[|x|..];
    FullMatchExtends(t, x, v[|x|..]);
    MatchesLiterals(s, t, u);
  }

  /** Fills for which the glob reading accepts the URL make the compiled glob match it. */
  lemma GlobImpliesCompiled(text: string, u: string, dfills: seq<string>, pfills: seq<string>)
    requires Split(text).Some?
    requires var parts := Split(text).value;
             |dfills| == DomainWildcards(parts.domain) && |pfills| == PathWildcards(parts.path)
             && FitsDomain(parts.domain, dfills)
             && parts.scheme + "://" + FillDomain(parts.domain, dfills) + FillPath(parts.path, pfills) <= u
    ensures SchemeMatches(Glob(text), u)
  {
    var parts := GlobRule(text);
    var s := parts.scheme + "://";
    var a, b := FillDomain(parts.domain, dfills), FillPath(parts.path, pfills);
    var dp := DomainTokens(parts.domain) + PathTokens(parts.path);
    FillingFullyMatches(parts.domain, parts.path, dfills, pfills);
    AppendAssoc(s, a, b);
    MatchesAfterPrefix(s, dp, a + b, u);
    SchemeMatchesBy(Glob(text), Literals(s) + dp, u);
  }

  /**
   * The wildcard rewriting of `url_to_regex` is the glob reading: a
   * pattern's compiled rule matches a URL exactly when the URL starts with
   * the pattern's scheme, `://` and the domain and path with every `*`
   * replaced by any string and every domain `*.` by nothing or one dot-free
   * label and its dot.
   */
  lemma GlobSemantics(text: string, u: string)
    requires Split(text).Some?
    ensures SchemeMatches(Glob(text), u) <==> GlobAccepts(Split(text).value, u)
  {
    var parts := Split(text).value;
    if SchemeMatches(Glob(text), u) {
      var dfills, pfills := CompiledImpliesGlob(text, u);
    }
    if GlobAccepts(parts, u) {
      var dfills: seq<string>, pfills: seq<string> :|
        |dfills| == DomainWildcards(parts.domain) && |pfills| == PathWildcards(parts.path)
        && FitsDomain(parts.domain, dfills)
        && parts.scheme + "://" + FillDomain(parts.domain, dfills) + FillPath(parts.path, pfills) <= u;
      GlobImpliesCompiled(text, u, dfills, pfills);
    }
  }
}
