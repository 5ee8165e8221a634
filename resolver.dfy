// Provider resolution (`find_provider`): the catalog is scanned in order, and
// within each provider its URL schemes are tried in order (`detect`); the
// first provider with a matching scheme is returned. Every scheme tried is
// compiled first, so a malformed glob met before any match aborts the search.
module Resolver {
  import opened Wrappers
  import opened Pattern

  /** One catalog entry: `name`, `url_schemes`, `how` and (for oEmbed) `endpoint`. */
  datatype Provider = Provider(name: string, urlSchemes: seq<Scheme>, how: string, endpoint: string)

  /**
   * The result of a first-hit search that compiles patterns as it goes: the
   * element found, nothing found, or the glob whose compilation failed.
   */
  datatype Lookup<T> = Hit(value: T) | Miss | Malformed(pattern: string)

  predicate Compiles(scheme: Scheme) {
    UrlToRegex(scheme).Some?
  }

  /** The schemes at positions lo up to hi all compile and none matches the URL. */
  predicate MissBetween(schemes: seq<Scheme>, url: string, lo: nat, hi: nat) {
    forall k :: lo <= k < hi && k < |schemes| ==> Compiles(schemes[k]) && !SchemeMatches(schemes[k], url)
  }

  /** Every scheme compiles and none matches the URL. */
  predicate AllMiss(schemes: seq<Scheme>, url: string) {
    MissBetween(schemes, url, 0, |schemes|)
  }

  /** Some scheme matches the URL. */
  predicate AnyMatch(schemes: seq<Scheme>, url: string) {
    exists k :: 0 <= k < |schemes| && SchemeMatches(schemes[k], url)
  }

  /** Every scheme compiles. */
  predicate AllCompile(schemes: seq<Scheme>) {
    forall k :: 0 <= k < |schemes| ==> Compiles(schemes[k])
  }

  /** Every scheme of every provider compiles. */
  predicate WellFormed(catalog: seq<Provider>) {
    forall j :: 0 <= j < |catalog| ==> AllCompile(catalog[j].urlSchemes)
  }

  // ---------------------------------------------------------------------
  // detect
  // ---------------------------------------------------------------------

  /**
   * `detect` over a provider's schemes from position i on: the first scheme
   * whose compiled rule matches. Every scheme tried before it compiled and
   * missed; a glob that does not compile ends the search.
   */
  function DetectFrom(schemes: seq<Scheme>, url: string, i: nat): (r: Lookup<Scheme>)
    requires i <= |schemes|
    decreases |schemes| - i
    ensures r.Hit? ==> exists k :: i <= k < |schemes| && schemes[k] == r.value
                                   && SchemeMatches(schemes[k], url) && MissBetween(schemes, url, i, k)
    ensures r.Miss? <==> MissBetween(schemes, url, i, |schemes|)
    ensures r.Malformed? ==> exists k :: i <= k < |schemes| && schemes[k] == Glob(r.pattern)
                                         && Split(r.pattern).None? && MissBetween(schemes, url, i, k)
  {
    if i == |schemes| then Miss
    else if !Compiles(schemes[i]) then Malformed(schemes[i].text)
    else if SchemeMatches(schemes[i], url) then Hit(schemes[i])
    else DetectFrom(schemes, url, i + 1)
  }

  function Detect(schemes: seq<Scheme>, url: string): (r: Lookup<Scheme>)
  {
    DetectFrom(schemes, url, 0)
  }

  // ---------------------------------------------------------------------
  // find_provider
  // ---------------------------------------------------------------------

  /** No provider at positions lo up to hi has a scheme that matches, and all their schemes compile. */
  predicate DeclineBetween(catalog: seq<Provider>, url: string, lo: nat, hi: nat) {
    forall j :: lo <= j < hi && j < |catalog| ==> AllMiss(catalog[j].urlSchemes, url)
  }

  /**
   * `find_provider` from position i of the catalog on: the first provider,
   * in catalog order, one of whose schemes matches the URL.
   */
  function FindFrom(catalog: seq<Provider>, url: string, i: nat): (r: Lookup<Provider>)
    requires i <= |catalog|
    decreases |catalog| - i
    ensures r.Hit? ==> exists j, k :: i <= j < |catalog| && catalog[j] == r.value && 0 <= k < |catalog[j].urlSchemes|
                                      && SchemeMatches(catalog[j].urlSchemes[k], url)
                                      && MissBetween(catalog[j].urlSchemes, url, 0, k)
                                      && DeclineBetween(catalog, url, i, j)
    ensures r.Miss? <==> DeclineBetween(catalog, url, i, |catalog|)
    ensures r.Malformed? ==> exists j, k :: i <= j < |catalog| && 0 <= k < |catalog[j].urlSchemes|
                                            && catalog[j].urlSchemes[k] == Glob(r.pattern) && Split(r.pattern).None?
                                            && DeclineBetween(catalog, url, i, j)
                                            && MissBetween(catalog[j].urlSchemes, url, 0, k)
  {
    if i == |catalog| then Miss
    else match Detect(catalog[i].urlSchemes, url)
      case Hit(_) => Hit(catalog[i])
      case Malformed(p) => Malformed(p)
      case Miss =>
        DeclineExtends(catalog, url, i);
        FindFrom(catalog, url, i + 1)
  }

  /** A provider whose schemes all compile and miss extends a declining run by one. */
  lemma DeclineExtends(catalog: seq<Provider>, url: string, i: nat)
    requires i < |catalog| && Detect(catalog[i].urlSchemes, url).Miss?
    ensures AllMiss(catalog[i].urlSchemes, url)
    ensures forall j :: i < j <= |catalog| && DeclineBetween(catalog, url, i + 1, j) ==> DeclineBetween(catalog, url, i, j)
  {
  }

  function FindProvider(catalog: seq<Provider>, url: string): (r: Lookup<Provider>)
  {
    FindFrom(catalog, url, 0)
  }

  // ---------------------------------------------------------------------
  // Properties
  // ---------------------------------------------------------------------

  /** For schemes that all compile, `detect` misses exactly when no scheme matches, and hits otherwise. */
  lemma DetectCompiled(schemes: seq<Scheme>, url: string)
    requires AllCompile(schemes)
    ensures Detect(schemes, url).Miss? <==> !AnyMatch(schemes, url)
    ensures Detect(schemes, url).Hit? <==> AnyMatch(schemes, url)
  {
    if AnyMatch(schemes, url) {
      var k :| 0 <= k < |schemes| && SchemeMatches(schemes[k], url);
      assert !MissBetween(schemes, url, 0, |schemes|);
    }
  }

  /** `detect` reaches scheme k when every scheme from i up to k compiled and missed and scheme k matches. */
  lemma {:induction false} DetectReachesFirst(schemes: seq<Scheme>, url: string, i: nat, k: nat)
    requires i <= k < |schemes|
    requires MissBetween(schemes, url, i, k) && SchemeMatches(schemes[k], url)
    ensures DetectFrom(schemes, url, i) == Hit(schemes[k])
    decreases k - i
  {
    if i < k {
      DetectReachesFirst(schemes, url, i + 1, k);
    }
  }

  /**
   * If every provider from i up to j declines, and scheme k of provider j
   * matches after every earlier scheme of j compiled and missed, the search
   * from i returns provider j. Schemes of j after k are never compiled.
   */
  lemma FindFromReachesFirst(catalog: seq<Provider>, url: string, i: nat, j: nat, k: nat)
    requires i <= j < |catalog| && k < |catalog[j].urlSchemes|
    requires DeclineBetween(catalog, url, i, j)
    requires MissBetween(catalog[j].urlSchemes, url, 0, k) && SchemeMatches(catalog[j].urlSchemes[k], url)
    ensures FindFrom(catalog, url, i) == Hit(catalog[j])
  {
    var r := FindFrom(catalog, url, i);
    assert !AllMiss(catalog[j].urlSchemes, url);
    OnlyStopReached(catalog, url, i, j, k);
    if r.Hit? {
      var m, n :| i <= m < |catalog| && catalog[m] == r.value && 0 <= n < |catalog[m].urlSchemes|
                   && SchemeMatches(catalog[m].urlSchemes[n], url)
                   && MissBetween(catalog[m].urlSchemes, url, 0, n)
                   && DeclineBetween(catalog, url, i, m);
      assert m == j;
    } else if r.Malformed? {
      assert false;
    }
  }

  /**
   * Scheme k of provider j, reached after every earlier provider declined and
   * every earlier scheme of j compiled and missed, is the only place where the
   * scan can stop: no other reached scheme matches or fails to compile.
   */
  lemma OnlyStopReached(catalog: seq<Provider>, url: string, i: nat, j: nat, k: nat)
    requires i <= j < |catalog| && k < |catalog[j].urlSchemes|
    requires DeclineBetween(catalog, url, i, j)
    requires MissBetween(catalog[j].urlSchemes, url, 0, k) && SchemeMatches(catalog[j].urlSchemes[k], url)
    ensures forall m, n :: i <= m < |catalog| && 0 <= n < |catalog[m].urlSchemes|
                           && DeclineBetween(catalog, url, i, m) && MissBetween(catalog[m].urlSchemes, url, 0, n)
                           && (SchemeMatches(catalog[m].urlSchemes[n], url) || !Compiles(catalog[m].urlSchemes[n]))
                           ==> m == j && n == k
  {
    assert !AllMiss(catalog[j].urlSchemes, url);
    forall m, n | i <= m < |catalog| && 0 <= n < |catalog[m].urlSchemes|
                  && DeclineBetween(catalog, url, i, m) && MissBetween(catalog[m].urlSchemes, url, 0, n)
                  && (SchemeMatches(catalog[m].urlSchemes[n], url) || !Compiles(catalog[m].urlSchemes[n]))
      ensures m == j && n == k
    {
    }
  }

  /**
   * Catalog order is the tie-break: when several providers match, the one
   * that comes first is returned.
   */
  lemma FindReturnsFirstMatching(catalog: seq<Provider>, url: string, j: nat)
    requires j < |catalog| && WellFormed(catalog)
    requires AnyMatch(catalog[j].urlSchemes, url)
    requires forall m :: 0 <= m < j ==> !AnyMatch(catalog[m].urlSchemes, url)
    ensures FindProvider(catalog, url) == Hit(catalog[j])
  {
    var k :| 0 <= k < |catalog[j].urlSchemes| && SchemeMatches(catalog[j].urlSchemes[k], url);
    forall m | 0 <= m < j
      ensures AllMiss(catalog[m].urlSchemes, url)
    {
      DetectCompiled(catalog[m].urlSchemes, url);
    }
    var f := FirstMatchingScheme(catalog[j].urlSchemes, url, k);
    FindFromReachesFirst(catalog, url, 0, j, f);
  }

  /** When every scheme compiles, a matching scheme at k means there is a first matching scheme, at or before k. */
  lemma {:induction false} FirstMatchingScheme(schemes: seq<Scheme>, url: string, k: nat) returns (f: nat)
    requires AllCompile(schemes) && k < |schemes| && SchemeMatches(schemes[k], url)
    ensures f <= k && MissBetween(schemes, url, 0, f) && SchemeMatches(schemes[f], url)
    decreases k
  {
    if exists m :: 0 <= m < k && SchemeMatches(schemes[m], url) {
      var m :| 0 <= m < k && SchemeMatches(schemes[m], url);
      f := FirstMatchingScheme(schemes, url, m);
    } else {
      f := k;
    }
  }

  /**
   * In a well-formed catalog the search never fails, returns a provider of
   * the catalog that has a matching scheme, and returns nothing exactly when
   * no scheme of any provider matches.
   */
  lemma FindInWellFormedCatalog(catalog: seq<Provider>, url: string)
    requires WellFormed(catalog)
    ensures !FindProvider(catalog, url).Malformed?
    ensures FindProvider(catalog, url).Hit? ==> FindProvider(catalog, url).value in catalog
    ensures FindProvider(catalog, url).Miss?
            <==> forall j :: 0 <= j < |catalog| ==> !AnyMatch(catalog[j].urlSchemes, url)
  {
    forall j | 0 <= j < |catalog|
      ensures AllMiss(catalog[j].urlSchemes, url) <==> !AnyMatch(catalog[j].urlSchemes, url)
    {
      DetectCompiled(catalog[j].urlSchemes, url);
    }
  }

  /** Resolution in a well-formed catalog never stops at a malformed glob. */
  lemma WellFormedNeverMalformed(catalog: seq<Provider>, url: string)
    requires WellFormed(catalog)
    ensures !FindProvider(catalog, url).Malformed?
  {
    FindInWellFormedCatalog(catalog, url);
  }
}
