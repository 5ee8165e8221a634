// The URL pattern language of the provider catalog (`url_to_regex` and the
// `=~` test that uses its result).
//
// A pattern such as `http://*.example.com/*` is split into scheme, domain and
// path, every character is escaped, and the wildcards are rewritten: in the
// domain `*` becomes "any run" and `*.` becomes "optionally one non-dot label
// and its dot"; in the path `*` becomes "any run". The resulting rule is
// anchored at the start of the URL only.
//
// Instead of a regular-expression engine the compiled rule is a token list,
// and `Matches` asks whether the tokens can consume some prefix of the URL.
module Pattern {
  import opened Wrappers

  /** One element of a compiled rule. */
  datatype Token =
    | Lit(c: char)   // an escaped literal character: matches exactly itself
    | AnyRun         // `(.*?)`: any run of characters, possibly empty
    | OptLabel       // `([^\.]+\.)?`: nothing, or a non-empty dot-free label followed by a dot

  /** A catalog entry's URL scheme: either a glob string or an already compiled rule. */
  datatype Scheme = Glob(text: string) | Compiled(rule: seq<Token>)

  /** The three capture groups of `([^:]*)://?([^/?]*)(.*)`. */
  datatype Parts = Parts(scheme: string, domain: string, path: string)

  predicate NoDot(s: string) {
    forall i :: 0 <= i < |s| ==> s[i] != '.'
  }

  predicate NoColon(s: string) {
    forall i :: 0 <= i < |s| ==> s[i] != ':'
  }

  predicate NoStar(s: string) {
    forall i :: 0 <= i < |s| ==> s[i] != '*'
  }

  /** A character that ends the domain group `[^/?]*`. */
  predicate EndsDomain(c: char) {
    c == '/' || c == '?'
  }

  predicate IsDomain(s: string) {
    forall i :: 0 <= i < |s| ==> !EndsDomain(s[i])
  }

  /** `:/` occurs at position k of s. */
  predicate ColonSlashAt(s: string, k: int) {
    0 <= k && k + 1 < |s| && s[k] == ':' && s[k + 1] == '/'
  }

  // ---------------------------------------------------------------------
  // Splitting a pattern into scheme, domain and path
  // ---------------------------------------------------------------------

  /** The position of the first `:/` at or after i, if any. */
  function FirstColonSlash(s: string, i: nat): (r: Option<nat>)
    requires i <= |s|
    decreases |s| - i
    ensures r.Some? ==> i <= r.value && ColonSlashAt(s, r.value)
    ensures r.Some? ==> forall j :: i <= j < r.value ==> !ColonSlashAt(s, j)
    ensures r.None? ==> forall j :: i <= j < |s| ==> !ColonSlashAt(s, j)
  {
    if i + 1 >= |s| then None
    else if s[i] == ':' && s[i + 1] == '/' then Some(i)
    else FirstColonSlash(s, i + 1)
  }

  /** The start of the colon-free run that ends at k: one past the last `:` before k. */
  function RunStart(s: string, k: nat): (p: nat)
    requires k <= |s|
    ensures p <= k && NoColon(s[p..k])
    ensures p > 0 ==> s[p - 1] == ':'
  {
    if k == 0 || s[k - 1] == ':' then k
    else
      var p := RunStart(s, k - 1);
      assert s[p..k] == s[p..k - 1] + [s[k - 1]];
      p
  }

  /** The end of the run of characters other than `/` and `?` that starts at i. */
  function DomainEnd(s: string, i: nat): (f: nat)
    requires i <= |s|
    decreases |s| - i
    ensures i <= f <= |s|
    ensures forall j :: i <= j < f ==> !EndsDomain(s[j])
    ensures f < |s| ==> EndsDomain(s[f])
  {
    if i == |s| || EndsDomain(s[i]) then i else DomainEnd(s, i + 1)
  }

  /**
   * The leftmost match of `([^:]*)://?([^/?]*)(.*)` in a pattern string.
   * The match starts just after the last colon that precedes the first `:/`
   * (anything earlier is not part of any group); the optional second slash is
   * taken when present; the domain stops at the first `/` or `?`; the path is
   * the rest of the string. `None` when the string holds no `:/`.
   */
  function Split(s: string): (r: Option<Parts>)
    ensures r.None? <==> forall k :: 0 <= k < |s| ==> !ColonSlashAt(s, k)
    ensures r.Some? ==> NoColon(r.value.scheme) && IsDomain(r.value.domain)
    ensures r.Some? ==> r.value.path == [] || EndsDomain(r.value.path[0])
  {
    match FirstColonSlash(s, 0)
    case None => None
    case Some(k) => Some(SplitAt(s, k))
  }

  /**
   * The groups of the match whose `:/` is at position k: the scheme runs from
   * p to k, an optional `/` follows the `:/`, the domain runs from e to f and
   * the path from f to the end.
   */
  function SplitAt(s: string, k: nat): (parts: Parts)
    requires ColonSlashAt(s, k)
    ensures NoColon(parts.scheme) && IsDomain(parts.domain)
    ensures parts.path == [] || EndsDomain(parts.path[0])
  {
    var p := RunStart(s, k);
    var e := SeparatorEnd(s, k);
    var f := DomainEnd(s, e);
    assert forall j :: 0 <= j < f - e ==> s[e..f][j] == s[e + j];
    Parts(s[p..k], s[e..f], s[f..])
  }

  /** Past the `:/` at k, and past the second slash when there is one. */
  function SeparatorEnd(s: string, k: nat): (e: nat)
    requires ColonSlashAt(s, k)
    ensures k + 2 <= e <= k + 3 && e <= |s|
    ensures e == k + 3 <==> k + 2 < |s| && s[k + 2] == '/'
  {
    if k + 2 < |s| && s[k + 2] == '/' then k + 3 else k + 2
  }

  /**
   * The three groups are pieces of the pattern: it is something that is not
   * part of any group, the scheme, `:/` and the optional slash, the domain and
   * the path, in that order.
   */
  lemma SplitReassembles(s: string) returns (prefix: string, sep: string)
    requires Split(s).Some?
    ensures prefix == [] || prefix[|prefix| - 1] == ':'
    ensures ColonSlashAt(s, |prefix| + |Split(s).value.scheme|)
    ensures forall j :: 0 <= j < |prefix| + |Split(s).value.scheme| ==> !ColonSlashAt(s, j)
    ensures sep == "/" <==> |prefix| + |Split(s).value.scheme| + 2 < |s| && s[|prefix| + |Split(s).value.scheme| + 2] == '/'
    ensures sep == "" || sep == "/"
    ensures s == prefix + Split(s).value.scheme + ":/" + sep + Split(s).value.domain + Split(s).value.path
  {
    var k := FirstColonSlash(s, 0).value;
    prefix, sep := SplitAtReassembles(s, k);
  }

  lemma SplitAtReassembles(s: string, k: nat) returns (prefix: string, sep: string)
    requires ColonSlashAt(s, k)
    ensures |prefix| + |SplitAt(s, k).scheme| == k
    ensures prefix == [] || prefix[|prefix| - 1] == ':'
    ensures sep == "/" <==> k + 2 < |s| && s[k + 2] == '/'
    ensures sep == "" || sep == "/"
    ensures s == prefix + SplitAt(s, k).scheme + ":/" + sep + SplitAt(s, k).domain + SplitAt(s, k).path
  {
    var p := RunStart(s, k);
    var e := SeparatorEnd(s, k);
    sep := if e == k + 3 then "/" else "";
    assert s[k..k + 2] == ":/" && s[k + 2..e] == sep;
    prefix := s[..p];
    SliceChain(s, p, k, e, DomainEnd(s, e), sep, SplitAt(s, k));
  }

  /** Cutting a string at p, k, k + 2, e and f and joining the six pieces gives it back. */
  lemma SliceChain(s: string, p: nat, k: nat, e: nat, f: nat, sep: string, parts: Parts)
    requires p <= k && k + 2 <= e <= f <= |s|
    requires parts == Parts(s[p..k], s[e..f], s[f..])
    requires s[k..k + 2] == ":/" && s[k + 2..e] == sep
    ensures s == s[..p] + parts.scheme + ":/" + sep + parts.domain + parts.path
  {
    PrefixStep(s, p, k);
    PrefixStep(s, k, k + 2);
    PrefixStep(s, k + 2, e);
    PrefixStep(s, e, f);
    PrefixStep(s, f, |s|);
    assert s[..|s|] == s && s[f..|s|] == s[f..];
  }

  lemma PrefixStep(s: string, i: nat, j: nat)
    requires i <= j <= |s|
    ensures s[..j] == s[..i] + s[i..j]
  {
  }

  // ---------------------------------------------------------------------
  // Compiling
  // ---------------------------------------------------------------------

  /** Every character as an escaped literal. */
  function Literals(s: string): (t: seq<Token>)
    ensures |t| == |s|
    ensures forall i :: 0 <= i < |s| ==> t[i] == Lit(s[i])
  {
    if s == [] then [] else [Lit(s[0])] + Literals(s[1..])
  }

  /** The domain group after escaping and both `gsub` rewrites. */
  function DomainTokens(d: string): seq<Token>
  {
    if d == [] then []
    else if d[0] == '*' && |d| > 1 && d[1] == '.' then [OptLabel] + DomainTokens(d[2..])
    else if d[0] == '*' then [AnyRun] + DomainTokens(d[1..])
    else [Lit(d[0])] + DomainTokens(d[1..])
  }

  /** The path group after escaping and the `*` rewrite. */
  function PathTokens(p: string): seq<Token>
  {
    if p == [] then []
    else if p[0] == '*' then [AnyRun] + PathTokens(p[1..])
    else [Lit(p[0])] + PathTokens(p[1..])
  }

  /** The path compiles character by character: `*` to any run, everything else to itself. */
  lemma {:induction false} PathTokensPointwise(p: string)
    ensures |PathTokens(p)| == |p|
    ensures forall i :: 0 <= i < |p| ==> PathTokens(p)[i] == (if p[i] == '*' then AnyRun else Lit(p[i]))
  {
    if p != [] {
      PathTokensPointwise(p[1..]);
      var t := PathTokens(p);
      forall i | 0 < i < |p|
        ensures t[i] == (if p[i] == '*' then AnyRun else Lit(p[i]))
      {
        assert t[i] == PathTokens(p[1..])[i - 1] && p[i] == p[1..][i - 1];
      }
    }
  }

  /** `url_to_regex`: a glob is compiled (always with `://`); a compiled rule is returned unchanged. */
  function UrlToRegex(scheme: Scheme): (r: Option<seq<Token>>)
    ensures scheme.Compiled? ==> r == Some(scheme.rule)
    ensures scheme.Glob? ==> (r.None? <==> Split(scheme.text).None?)
  {
    match scheme
    case Compiled(rule) => Some(rule)
    case Glob(text) =>
      match Split(text)
      case None => None
      case Some(parts) =>
        Some(Literals(parts.scheme) + Literals("://") + DomainTokens(parts.domain) + PathTokens(parts.path))
  }

  // ---------------------------------------------------------------------
  // Matching
  // ---------------------------------------------------------------------

  /** The compiled rule matches at the start of u, with no end anchor. */
  predicate Matches(t: seq<Token>, u: string)
    decreases |t|
  {
    if t == [] then true
    else match t[0]
      case Lit(c) => |u| > 0 && u[0] == c && Matches(t[1..], u[1..])
      case AnyRun => exists k :: 0 <= k <= |u| && Matches(t[1..], u[k..])
      case OptLabel =>
        Matches(t[1..], u) ||
        exists k :: 0 < k < |u| && u[k] == '.' && NoDot(u[..k]) && Matches(t[1..], u[k + 1..])
  }

  /** Reference semantics with an end anchor as well: the tokens consume all of w. */
  predicate FullMatch(t: seq<Token>, w: string)
    decreases |t|
  {
    if t == [] then w == []
    else match t[0]
      case Lit(c) => |w| > 0 && w[0] == c && FullMatch(t[1..], w[1..])
      case AnyRun => exists k :: 0 <= k <= |w| && FullMatch(t[1..], w[k..])
      case OptLabel =>
        FullMatch(t[1..], w) ||
        exists k :: 0 < k < |w| && w[k] == '.' && NoDot(w[..k]) && FullMatch(t[1..], w[k + 1..])
  }

  /** Whether a catalog scheme compiles and its rule matches the URL (`url_to_regex(x) =~ url`). */
  predicate SchemeMatches(scheme: Scheme, url: string) {
    match UrlToRegex(scheme)
    case None => false
    case Some(rule) => Matches(rule, url)
  }

  // ---------------------------------------------------------------------
  // Properties of the splitter
  // ---------------------------------------------------------------------

  /** The domain run starting at i ends at f when nothing from i up to f ends it and s[f] does. */
  lemma {:induction false} DomainEndIs(s: string, i: nat, f: nat)
    requires i <= f <= |s|
    requires forall j :: i <= j < f ==> !EndsDomain(s[j])
    requires f < |s| ==> EndsDomain(s[f])
    ensures DomainEnd(s, i) == f
    decreases f - i
  {
    if i < f {
      DomainEndIs(s, i + 1, f);
    }
  }

  /** The first `:/` is at k when there is one at k and none before. */
  lemma FirstColonSlashIs(s: string, k: nat)
    requires ColonSlashAt(s, k)
    requires forall j :: 0 <= j < k ==> !ColonSlashAt(s, j)
    ensures FirstColonSlash(s, 0) == Some(k)
  {
  }

  /** The colon-free run ending at k starts at 0 when nothing before k is a colon. */
  lemma RunStartAtZero(s: string, k: nat)
    requires k <= |s| && NoColon(s[..k])
    ensures RunStart(s, k) == 0
  {
  }

  /**
   * Splitting inverts assembling: a scheme without colons, `://` (or `:/`
   * when the rest does not start with a slash), a domain without `/` or `?`
   * and a path that is empty or starts with one of them come back apart.
   */
  lemma SplitAssembled(scheme: string, sep: string, domain: string, path: string)
    requires NoColon(scheme) && IsDomain(domain)
    requires path == [] || EndsDomain(path[0])
    requires sep == "/" || (sep == "" && (domain != [] || path == [] || path[0] != '/'))
    ensures Split(scheme + ":/" + sep + domain + path) == Some(Parts(scheme, domain, path))
  {
    SchemeFoundAssembled(scheme, sep, domain, path);
    SplitAtAssembled(scheme, sep, domain, path);
  }

  lemma SchemeFoundAssembled(scheme: string, sep: string, domain: string, path: string)
    requires NoColon(scheme)
    ensures ColonSlashAt(scheme + ":/" + sep + domain + path, |scheme|)
    ensures FirstColonSlash(scheme + ":/" + sep + domain + path, 0) == Some(|scheme|)
    ensures RunStart(scheme + ":/" + sep + domain + path, |scheme|) == 0
  {
    var head := scheme + ":/";
    AppendAssoc(head, sep, domain);
    AppendAssoc(head, sep + domain, path);
    AppendAssoc(sep, domain, path);
    SchemeFound(scheme, sep + (domain + path));
  }

  lemma SplitAtAssembled(scheme: string, sep: string, domain: string, path: string)
    requires NoColon(scheme) && IsDomain(domain)
    requires path == [] || EndsDomain(path[0])
    requires sep == "/" || (sep == "" && (domain != [] || path == [] || path[0] != '/'))
    requires ColonSlashAt(scheme + ":/" + sep + domain + path, |scheme|)
    requires RunStart(scheme + ":/" + sep + domain + path, |scheme|) == 0
    ensures SplitAt(scheme + ":/" + sep + domain + path, |scheme|) == Parts(scheme, domain, path)
  {
    AppendAssoc(scheme + ":/" + sep, domain, path);
    SplitAtOfHead(scheme, sep, domain, path);
  }

  lemma SplitAtOfHead(scheme: string, sep: string, domain: string, path: string)
    requires NoColon(scheme) && IsDomain(domain)
    requires path == [] || EndsDomain(path[0])
    requires sep == "/" || (sep == "" && (domain != [] || path == [] || path[0] != '/'))
    requires ColonSlashAt(scheme + ":/" + sep + (domain + path), |scheme|)
    requires RunStart(scheme + ":/" + sep + (domain + path), |scheme|) == 0
    ensures SplitAt(scheme + ":/" + sep + (domain + path), |scheme|) == Parts(scheme, domain, path)
  {
    var head := scheme + ":/" + sep;
    var s := head + (domain + path);
    HeadPositions(scheme, sep, domain, path);
    PiecesOfAppend(head, domain, path);
    SchemePiece(scheme, sep, domain + path);
    SplitAtIs(s, |scheme|, 0, |head|, |head| + |domain|);
  }

  /** The scheme of an assembled pattern is its first |scheme| characters. */
  lemma SchemePiece(scheme: string, sep: string, rest: string)
    ensures (scheme + ":/" + sep + rest)[0..|scheme|] == scheme
  {
    TakeOfAppend(scheme, ":/" + sep, |scheme|);
    TakeOfAppend(scheme + ":/" + sep, rest, |scheme|);
  }

  /** In an assembled pattern the separator ends after `sep` and the domain run ends after the domain. */
  lemma HeadPositions(scheme: string, sep: string, domain: string, path: string)
    requires IsDomain(domain)
    requires path == [] || EndsDomain(path[0])
    requires sep == "/" || (sep == "" && (domain != [] || path == [] || path[0] != '/'))
    requires ColonSlashAt(scheme + ":/" + sep + (domain + path), |scheme|)
    ensures SeparatorEnd(scheme + ":/" + sep + (domain + path), |scheme|) == |scheme + ":/" + sep|
    ensures DomainEnd(scheme + ":/" + sep + (domain + path), |scheme + ":/" + sep|) == |scheme + ":/" + sep| + |domain|
  {
    var head := scheme + ":/" + sep;
    SeparatorOf(scheme, sep, domain + path);
    DomainRunOf(head, domain, path);
    DomainEndIs(head + (domain + path), |head|, |head| + |domain|);
  }

  /** The groups of the match at k, once its run start, separator end and domain end are known. */
  lemma SplitAtIs(s: string, k: nat, p: nat, e: nat, f: nat)
    requires ColonSlashAt(s, k)
    requires RunStart(s, k) == p && SeparatorEnd(s, k) == e && DomainEnd(s, e) == f
    ensures SplitAt(s, k) == Parts(s[p..k], s[e..f], s[f..])
  {
  }

  /** In an assembled pattern the domain run is the domain: no character of it ends the run, and the path starts with one that does. */
  lemma DomainRunOf(head: string, domain: string, path: string)
    requires IsDomain(domain)
    requires path == [] || EndsDomain(path[0])
    ensures forall j :: |head| <= j < |head| + |domain| ==> !EndsDomain((head + (domain + path))[j])
    ensures |head| + |domain| < |head + (domain + path)| ==> EndsDomain((head + (domain + path))[|head| + |domain|])
  {
    var s := head + (domain + path);
    forall j | |head| <= j < |head| + |domain| ensures !EndsDomain(s[j]) {
      assert s[j] == domain[j - |head|];
    }
    if path != [] {
      assert s[|head| + |domain|] == path[0];
    }
  }

  lemma TakeOfAppend(a: string, b: string, n: nat)
    requires n <= |a|
    ensures (a + b)[..n] == a[..n]
  {
  }

  /** The separator of an assembled pattern ends right after `sep`. */
  lemma SeparatorOf(scheme: string, sep: string, rest: string)
    requires sep == "/" || (sep == "" && (rest == [] || rest[0] != '/'))
    requires ColonSlashAt(scheme + ":/" + sep + rest, |scheme|)
    ensures SeparatorEnd(scheme + ":/" + sep + rest, |scheme|) == |scheme| + 2 + |sep|
  {
    var s := scheme + ":/" + sep + rest;
    if sep == "/" {
      assert s[|scheme| + 2] == '/';
    } else if rest != [] {
      assert s[|scheme| + 2] == rest[0];
    }
  }

  lemma PiecesOfAppend(head: string, a: string, b: string)
    ensures (head + (a + b))[|head|..|head| + |a|] == a
    ensures (head + (a + b))[|head| + |a|..] == b
    ensures (head + (a + b))[|head|..] == a + b
  {
  }

  /** The first `:/` of an assembled string is the one right after a colon-free scheme, whose run starts at 0. */
  lemma SchemeFound(scheme: string, after: string)
    requires NoColon(scheme)
    ensures FirstColonSlash(scheme + ":/" + after, 0) == Some(|scheme|)
    ensures RunStart(scheme + ":/" + after, |scheme|) == 0
    ensures (scheme + ":/" + after)[0..|scheme|] == scheme
    ensures (scheme + ":/" + after)[|scheme| + 2..] == after
  {
    var s := scheme + ":/" + after;
    var k := |scheme|;
    assert s[..k] == scheme;
    assert ColonSlashAt(s, k);
    forall j | 0 <= j < k ensures !ColonSlashAt(s, j) {
      assert s[j] == s[..k][j];
    }
    FirstColonSlashIs(s, k);
    RunStartAtZero(s, k);
  }

  // ---------------------------------------------------------------------
  // Properties of the compiler and the matcher
  // ---------------------------------------------------------------------

  /** Without wildcards the domain compiles to its own characters as literals. */
  lemma {:induction false} DomainTokensLiteral(d: string)
    requires NoStar(d)
    ensures DomainTokens(d) == Literals(d)
  {
    if d != [] {
      assert d[0] != '*';
      DomainTokensLiteral(d[1..]);
    }
  }

  /** Without wildcards the path compiles to its own characters as literals. */
  lemma {:induction false} PathTokensLiteral(p: string)
    requires NoStar(p)
    ensures PathTokens(p) == Literals(p)
  {
    if p != [] {
      assert p[0] != '*';
      PathTokensLiteral(p[1..]);
    }
  }

  /** Escaped literals match exactly themselves, then the rest of the rule goes on after them. */
  lemma {:induction false} MatchesLiterals(w: string, t: seq<Token>, u: string)
    ensures Matches(Literals(w) + t, u) <==> w <= u && Matches(t, u[|w|..])
  {
    if w == [] {
      assert Literals(w) + t == t;
    } else {
      var t' := Literals(w) + t;
      assert t'[0] == Lit(w[0]);
      assert t'[1..] == Literals(w[1..]) + t;
      if |u| > 0 {
        MatchesLiterals(w[1..], t, u[1..]);
        if |w| <= |u| {
          assert u[1..][|w| - 1..] == u[|w|..];
        }
      }
    }
  }

  lemma NoStarAppend(a: string, b: string)
    ensures NoStar(a + b) <==> NoStar(a) && NoStar(b)
  {
    forall i | 0 <= i < |a| ensures a[i] == (a + b)[i] {
    }
    forall i | 0 <= i < |b| ensures b[i] == (a + b)[|a| + i] {
    }
  }

  /** The domain and path groups are taken from the pattern, so they have no wildcard when it has none. */
  lemma SplitKeepsNoStar(text: string)
    requires NoStar(text) && Split(text).Some?
    ensures NoStar(Split(text).value.domain) && NoStar(Split(text).value.path)
  {
    var parts := Split(text).value;
    var prefix, sep := SplitReassembles(text);
    var head := prefix + parts.scheme + ":/" + sep;
    assert text == (head + parts.domain) + parts.path;
    NoStarAppend(head + parts.domain, parts.path);
    NoStarAppend(head, parts.domain);
  }

  /** Literals of a concatenation are the concatenation of the literals. */
  lemma {:induction false} LiteralsAppend(a: string, b: string)
    ensures Literals(a + b) == Literals(a) + Literals(b)
  {
    if a != [] {
      assert (a + b)[1..] == a[1..] + b;
      LiteralsAppend(a[1..], b);
    }
  }

  /**
   * A pattern without wildcards matches exactly the URLs that start with
   * its scheme, `://`, domain and path: `.` and `?` are ordinary characters.
   */
  lemma LiteralPattern(text: string, u: string)
    requires NoStar(text) && Split(text).Some?
    ensures var parts := Split(text).value;
            SchemeMatches(Glob(text), u) <==> parts.scheme + "://" + parts.domain + parts.path <= u
  {
    var parts := Split(text).value;
    var w := parts.scheme + "://" + parts.domain + parts.path;
    LiteralPatternCompiles(text);
    LiteralsMatchIff(w, u);
    SchemeMatchesBy(Glob(text), Literals(w), u);
  }

  lemma LiteralPatternCompiles(text: string)
    requires NoStar(text) && Split(text).Some?
    ensures var parts := Split(text).value;
            UrlToRegex(Glob(text)) == Some(Literals(parts.scheme + "://" + parts.domain + parts.path))
  {
    var parts := Split(text).value;
    SplitKeepsNoStar(text);
    LiteralTokens(parts.scheme, parts.domain, parts.path);
  }

  /** Without wildcards in domain and path, the compiled rule is the literals of the whole URL prefix. */
  lemma LiteralTokens(scheme: string, domain: string, path: string)
    requires NoStar(domain) && NoStar(path)
    ensures Literals(scheme) + Literals("://") + DomainTokens(domain) + PathTokens(path)
         == Literals(scheme + "://" + domain + path)
  {
    DomainTokensLiteral(domain);
    PathTokensLiteral(path);
    LiteralsAppend(scheme, "://");
    LiteralsAppend(scheme + "://", domain);
    LiteralsAppend(scheme + "://" + domain, path);
  }

  /** The literals of w match exactly the strings that start with w. */
  lemma LiteralsMatchIff(w: string, u: string)
    ensures Matches(Literals(w), u) <==> w <= u
  {
    assert Literals(w) == Literals(w) + [];
    MatchesLiterals(w, [], u);
  }

  // One introduction rule per token kind: how a start-anchored match is
  // obtained from a match of the remaining tokens.

  lemma MatchesLit(t: seq<Token>, u: string)
    requires t != [] && t[0].Lit? && u != [] && u[0] == t[0].c && Matches(t[1..], u[1..])
    ensures Matches(t, u)
  {
  }

  lemma MatchesAnyRun(t: seq<Token>, u: string, k: nat)
    requires t != [] && t[0] == AnyRun && k <= |u| && Matches(t[1..], u[k..])
    ensures Matches(t, u)
  {
  }

  lemma MatchesOptLabel(t: seq<Token>, u: string, k: nat)
    requires t != [] && t[0] == OptLabel
    requires k == 0 || (k < |u| && u[k] == '.' && NoDot(u[..k]))
    requires Matches(t[1..], if k == 0 then u else u[k + 1..])
    ensures Matches(t, u)
  {
  }

  /** A full match of w extends to a start-anchored match of anything that begins with w. */
  lemma {:induction false} FullMatchExtends(t: seq<Token>, w: string, v: string)
    requires FullMatch(t, w)
    ensures Matches(t, w + v)
    decreases |t|, 1
  {
    if t != [] {
      match t[0]
      case Lit(_) => LitExtends(t, w, v);
      case AnyRun => AnyRunExtends(t, w, v);
      case OptLabel => OptLabelExtends(t, w, v);
    }
  }

  lemma {:induction false} LitExtends(t: seq<Token>, w: string, v: string)
    requires t != [] && t[0].Lit? && FullMatch(t, w)
    ensures Matches(t, w + v)
    decreases |t|, 0
  {
    FullMatchExtends(t[1..], w[1..], v);
    assert (w + v)[1..] == w[1..] + v;
    MatchesLit(t, w + v);
  }

  lemma {:induction false} AnyRunExtends(t: seq<Token>, w: string, v: string)
    requires t != [] && t[0] == AnyRun && FullMatch(t, w)
    ensures Matches(t, w + v)
    decreases |t|, 0
  {
    var k :| 0 <= k <= |w| && FullMatch(t[1..], w[k..]);
    FullMatchExtends(t[1..], w[k..], v);
    assert (w + v)[k..] == w[k..] + v;
    MatchesAnyRun(t, w + v, k);
  }

  lemma {:induction false} OptLabelExtends(t: seq<Token>, w: string, v: string)
    requires t != [] && t[0] == OptLabel && FullMatch(t, w)
    ensures Matches(t, w + v)
    decreases |t|, 0
  {
    if FullMatch(t[1..], w) {
      FullMatchExtends(t[1..], w, v);
      MatchesOptLabel(t, w + v, 0);
    } else {
      var k :| 0 < k < |w| && w[k] == '.' && NoDot(w[..k]) && FullMatch(t[1..], w[k + 1..]);
      FullMatchExtends(t[1..], w[k + 1..], v);
      assert (w + v)[k + 1..] == w[k + 1..] + v;
      assert (w + v)[..k] == w[..k];
      MatchesOptLabel(t, w + v, k);
    }
  }

  /** Every start-anchored match fully matches some prefix of the URL. */
  lemma {:induction false} MatchHasFullPrefix(t: seq<Token>, u: string) returns (n: nat)
    requires Matches(t, u)
    ensures n <= |u| && FullMatch(t, u[..n])
    decreases |t|, 1
  {
    if t == [] {
      n := 0;
    } else {
      match t[0]
      case Lit(_) => n := LitFullPrefix(t, u);
      case AnyRun => n := AnyRunFullPrefix(t, u);
      case OptLabel => n := OptLabelFullPrefix(t, u);
    }
  }

  lemma {:induction false} LitFullPrefix(t: seq<Token>, u: string) returns (n: nat)
    requires t != [] && t[0].Lit? && Matches(t, u)
    ensures n <= |u| && FullMatch(t, u[..n])
    decreases |t|, 0
  {
    var m := MatchHasFullPrefix(t[1..], u[1..]);
    n := m + 1;
    assert u[..n][1..] == u[1..][..m];
  }

  lemma {:induction false} AnyRunFullPrefix(t: seq<Token>, u: string) returns (n: nat)
    requires t != [] && t[0] == AnyRun && Matches(t, u)
    ensures n <= |u| && FullMatch(t, u[..n])
    decreases |t|, 0
  {
    var k :| 0 <= k <= |u| && Matches(t[1..], u[k..]);
    var m := MatchHasFullPrefix(t[1..], u[k..]);
    n := k + m;
    assert u[..n][k..] == u[k..][..m];
  }

  lemma {:induction false} OptLabelFullPrefix(t: seq<Token>, u: string) returns (n: nat)
    requires t != [] && t[0] == OptLabel && Matches(t, u)
    ensures n <= |u| && FullMatch(t, u[..n])
    decreases |t|, 0
  {
    if Matches(t[1..], u) {
      n := MatchHasFullPrefix(t[1..], u);
    } else {
      var k :| 0 < k < |u| && u[k] == '.' && NoDot(u[..k]) && Matches(t[1..], u[k + 1..]);
      var m := MatchHasFullPrefix(t[1..], u[k + 1..]);
      n := k + 1 + m;
      assert u[..n][k + 1..] == u[k + 1..][..m];
      assert u[..n][..k] == u[..k];
    }
  }

  /**
   * The compiled rule is anchored at the start only: it matches a URL exactly
   * when it matches, start to end, some prefix of that URL.
   */
  lemma AnchoredAtStartOnly(t: seq<Token>, u: string)
    ensures Matches(t, u) <==> exists n :: 0 <= n <= |u| && FullMatch(t, u[..n])
  {
    if Matches(t, u) {
      var n := MatchHasFullPrefix(t, u);
    }
    if n :| 0 <= n <= |u| && FullMatch(t, u[..n]) {
      FullMatchExtends(t, u[..n], u[n..]);
      assert u[..n] + u[n..] == u;
    }
  }

  /** Appending to a matching URL keeps it matching. */
  lemma MatchExtends(t: seq<Token>, u: string, v: string)
    requires Matches(t, u)
    ensures Matches(t, u + v)
  {
    var n := MatchHasFullPrefix(t, u);
    FullMatchExtends(t, u[..n], u[n..] + v);
    assert u[..n] + (u[n..] + v) == u + v;
  }

  // ---------------------------------------------------------------------
  // Worked examples
  // ---------------------------------------------------------------------

  /** A `.` at position j ends every dot-free prefix: such a prefix is no longer than j. */
  lemma DotBoundsLabel(v: string, k: nat, j: nat)
    requires j < |v| && v[j] == '.' && k <= |v| && NoDot(v[..k])
    ensures k <= j
  {
    forall i | 0 <= i < k ensures v[i] != '.' {
      assert v[..k][i] == v[i];
    }
  }

  // A rule that is a lone wildcard matches every string.
  lemma AnyRunMatchesAll(u: string)
    ensures Matches([AnyRun], u)
  {
    assert [AnyRun][1..] == [];
    assert Matches([AnyRun][1..], u[0..]);
  }

  /** v starts with w, possibly after one non-empty dot-free label and its dot. */
  predicate AfterOptionalLabel(w: string, v: string) {
    w <= v || exists k :: 0 < k < |v| && v[k] == '.' && NoDot(v[..k]) && w <= v[k + 1..]
  }

  /** An optional label followed by literals and a trailing wildcard: zero or exactly one label is skipped. */
  lemma OptLabelThenLiterals(w: string, v: string)
    ensures Matches([OptLabel] + (Literals(w) + [AnyRun]), v) <==> AfterOptionalLabel(w, v)
  {
    var r := Literals(w) + [AnyRun];
    assert ([OptLabel] + r)[1..] == r;
    forall x: string ensures Matches(r, x) <==> w <= x {
      MatchesLiterals(w, [AnyRun], x);
      if w <= x {
        AnyRunMatchesAll(x[|w|..]);
      }
    }
  }

  lemma SubdomainDomainTokens(host: string)
    requires NoStar(host)
    ensures DomainTokens("*." + host) == [OptLabel] + Literals(host)
  {
    var domain := "*." + host;
    assert domain[0] == '*' && domain[1] == '.';
    assert domain[2..] == host;
    DomainTokensLiteral(host);
  }

  lemma TrailingWildcardPath()
    ensures PathTokens("/*") == [Lit('/'), AnyRun]
  {
    assert "/*"[1..] == "*";
    assert "*"[1..] == [];
  }

  lemma SubdomainGlobSplits(scheme: string, host: string)
    requires NoColon(scheme) && IsDomain(host)
    ensures Split(scheme + "://*." + host + "/*") == Some(Parts(scheme, "*." + host, "/*"))
  {
    var domain := "*." + host;
    assert scheme + "://*." + host + "/*" == scheme + ":/" + "/" + domain + "/*";
    forall i | 0 <= i < |domain| ensures !EndsDomain(domain[i]) {
      if i >= 2 {
        assert domain[i] == host[i - 2];
      }
    }
    SplitAssembled(scheme, "/", domain, "/*");
  }

  // A pattern `<scheme>://*.<host>/*` compiles to the scheme, `://`, an optional
  // label, the host, `/` and a wildcard.
  lemma SubdomainGlobCompiles(scheme: string, host: string)
    requires NoColon(scheme) && NoStar(host) && IsDomain(host)
    ensures UrlToRegex(Glob(scheme + "://*." + host + "/*"))
         == Some(Literals(scheme + "://") + ([OptLabel] + (Literals(host + "/") + [AnyRun])))
  {
    var text := scheme + "://*." + host + "/*";
    SubdomainGlobSplits(scheme, host);
    assert UrlToRegex(Glob(text))
        == Some(Literals(scheme) + Literals("://") + DomainTokens("*." + host) + PathTokens("/*"));
    SubdomainDomainTokens(host);
    TrailingWildcardPath();
    SubdomainTokensRegroup(scheme, host);
  }

  lemma SubdomainTokensRegroup(scheme: string, host: string)
    ensures Literals(scheme) + Literals("://") + ([OptLabel] + Literals(host)) + [Lit('/'), AnyRun]
         == Literals(scheme + "://") + ([OptLabel] + (Literals(host + "/") + [AnyRun]))
  {
    LiteralsAppend(scheme, "://");
    LiteralsAppend(host, "/");
    assert Literals("/") == [Lit('/')];
  }

  // In the domain, `*.` stands for nothing or exactly one dot-free label and
  // its dot: `<scheme>://*.<host>/*` matches a URL exactly when, after the
  // scheme and `://`, it reads `<host>/` directly or after one such label.
  lemma SubdomainGlobMatches(scheme: string, host: string, u: string)
    requires NoColon(scheme) && NoStar(host) && IsDomain(host)
    ensures SchemeMatches(Glob(scheme + "://*." + host + "/*"), u)
        <==> scheme + "://" <= u && AfterOptionalLabel(host + "/", u[|scheme| + 3..])
  {
    SubdomainGlobCompiles(scheme, host);
    MatchesLiterals(scheme + "://", [OptLabel] + (Literals(host + "/") + [AnyRun]), u);
    if scheme + "://" <= u {
      OptLabelThenLiterals(host + "/", u[|scheme| + 3..]);
    }
  }

  /** A wildcard-free pattern compiles to its scheme, `://`, domain and path as literals. */
  lemma LiteralGlobCompiles(scheme: string, host: string, path: string)
    requires NoColon(scheme) && IsDomain(host) && NoStar(host) && NoStar(path)
    requires path == [] || EndsDomain(path[0])
    ensures UrlToRegex(Glob(scheme + "://" + host + path)) == Some(Literals(scheme + "://" + host + path))
  {
    assert scheme + "://" + host + path == scheme + ":/" + "/" + host + path;
    SplitAssembled(scheme, "/", host, path);
    LiteralTokens(scheme, host, path);
  }

  /** A wildcard-free pattern `<scheme>://<host><path>` matches every URL that extends it. */
  lemma LiteralGlobMatchesExtension(scheme: string, host: string, path: string, more: string)
    requires NoColon(scheme) && IsDomain(host) && NoStar(host) && NoStar(path)
    requires path == [] || EndsDomain(path[0])
    ensures SchemeMatches(Glob(scheme + "://" + host + path), scheme + "://" + host + path + more)
  {
    var w := scheme + "://" + host + path;
    LiteralGlobCompiles(scheme, host, path);
    LiteralsMatchIff(w, w + more);
    SchemeMatchesBy(Glob(w), Literals(w), w + more);
  }

  lemma SchemeMatchesBy(scheme: Scheme, rule: seq<Token>, u: string)
    requires UrlToRegex(scheme) == Some(rule)
    ensures SchemeMatches(scheme, u) <==> Matches(rule, u)
  {
  }

  // The examples below take the pieces of their strings as parameters fixed by
  // `requires`, so that the verifier reasons from the general lemmas above
  // instead of evaluating the compiler on a literal pattern.

  lemma ExampleSubdomainMatches(scheme: string, host: string, url: string)
    requires scheme == "http" && host == "example.com" && url == "http://sub.example.com/p"
    ensures SchemeMatches(Glob(scheme + "://*." + host + "/*"), url)
  {
    ExamplePieces(scheme, host);
    ExampleUrl(scheme, url, "sub.example.com/p");
    SubdomainLabelExample(url[7..]);
    SubdomainGlobMatches(scheme, host, url);
  }

  /** The scheme and host of the examples meet the requirements of the general lemmas. */
  lemma ExamplePieces(scheme: string, host: string)
    requires scheme == "http" && host == "example.com"
    ensures NoColon(scheme) && NoStar(host) && IsDomain(host)
    ensures host + "/" == "example.com/" && |scheme| + 3 == 7
  {
  }

  /** An example URL is the scheme, `://` and the given rest. */
  lemma ExampleUrl(scheme: string, url: string, rest: string)
    requires scheme == "http" && url == "http://" + rest
    ensures scheme + "://" <= url && url[7..] == rest
  {
  }

  lemma SubdomainLabelExample(v: string)
    requires v == "sub.example.com/p"
    ensures AfterOptionalLabel("example.com/", v)
  {
    assert v[3] == '.' && NoDot(v[..3]) && "example.com/" <= v[4..];
  }

  lemma ExampleBareDomainMatches(scheme: string, host: string, url: string)
    requires scheme == "http" && host == "example.com" && url == "http://example.com/p"
    ensures SchemeMatches(Glob(scheme + "://*." + host + "/*"), url)
  {
    ExamplePieces(scheme, host);
    ExampleUrl(scheme, url, "example.com/p");
    SubdomainGlobMatches(scheme, host, url);
  }

  lemma ExampleLookalikeRejected(scheme: string, host: string, url: string)
    requires scheme == "http" && host == "example.com" && url == "http://notexample.com/p"
    ensures !SchemeMatches(Glob(scheme + "://*." + host + "/*"), url)
  {
    ExamplePieces(scheme, host);
    ExampleUrl(scheme, url, "notexample.com/p");
    LookalikeLabelExample(url[7..]);
    SubdomainGlobMatches(scheme, host, url);
  }

  lemma LookalikeLabelExample(v: string)
    requires v == "notexample.com/p"
    ensures !AfterOptionalLabel("example.com/", v)
  {
    assert v[0] != "example.com/"[0];
    forall k | 0 < k < |v| && v[k] == '.' && NoDot(v[..k]) ensures !("example.com/" <= v[k + 1..]) {
      DotBoundsLabel(v, k, 10);
      assert v[k + 1..][0] == 'c';
    }
  }

  lemma ExampleTwoLabelsRejected(scheme: string, host: string, url: string)
    requires scheme == "http" && host == "example.com" && url == "http://a.b.example.com/p"
    ensures !SchemeMatches(Glob(scheme + "://*." + host + "/*"), url)
  {
    ExamplePieces(scheme, host);
    ExampleUrl(scheme, url, "a.b.example.com/p");
    TwoLabelsExample(url[7..]);
    SubdomainGlobMatches(scheme, host, url);
  }

  lemma TwoLabelsExample(v: string)
    requires v == "a.b.example.com/p"
    ensures !AfterOptionalLabel("example.com/", v)
  {
    assert v[0] != "example.com/"[0];
    forall k | 0 < k < |v| && v[k] == '.' && NoDot(v[..k]) ensures !("example.com/" <= v[k + 1..]) {
      DotBoundsLabel(v, k, 1);
      assert v[k + 1..][0] == 'b';
    }
  }

  /** `http://example.com/book` also matches `http://example.com/book/123`: there is no end anchor. */
  lemma ExampleLongerUrlMatches(scheme: string, host: string, path: string, url: string)
    requires scheme == "http" && host == "example.com" && path == "/book"
    requires url == "http://example.com/book/123"
    ensures SchemeMatches(Glob(scheme + "://" + host + path), url)
  {
    assert url == scheme + "://" + host + path + "/123";
    LiteralGlobMatchesExtension(scheme, host, path, "/123");
  }
}
