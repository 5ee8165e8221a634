// The top-level loop: every URL of the list is resolved against the catalog
// and the resolved provider's `how` string selects the retrieval branch.
module Dispatch {
  import opened Wrappers
  import opened Resolver

  /** The `how` values that have a branch of their own. */
  const KnownMethods: set<string> := {"oembed", "opengraph", "scrape"}

  /** The branch taken for one URL. */
  datatype Branch =
    | NoProviderFound          // "No provider found."
    | OEmbedBranch             // `how == "oembed"`
    | OpenGraphBranch          // `how == "opengraph"`
    | ScrapeBranch             // `how == "scrape"`
    | Unsupported(how: string) // any other `how`: the not-yet-supported message

  /** Selects the branch for the provider found (or for no provider). */
  function Route(provider: Option<Provider>): (b: Branch)
    ensures b == NoProviderFound <==> provider.None?
    ensures b == OEmbedBranch <==> provider.Some? && provider.value.how == "oembed"
    ensures b == OpenGraphBranch <==> provider.Some? && provider.value.how == "opengraph"
    ensures b == ScrapeBranch <==> provider.Some? && provider.value.how == "scrape"
    ensures b.Unsupported? <==> provider.Some? && provider.value.how !in KnownMethods
    ensures b.Unsupported? ==> b.how == provider.value.how
  {
    match provider
    case None => NoProviderFound
    case Some(p) =>
      if p.how == "oembed" then OEmbedBranch
      else if p.how == "opengraph" then OpenGraphBranch
      else if p.how == "scrape" then ScrapeBranch
      else Unsupported(p.how)
  }

  /** What one URL contributes to the run: its branch, or the malformed glob that made resolution raise. */
  datatype Handled = Routed(branch: Branch) | Raised(pattern: string)

  function Report(found: Lookup<Provider>): Handled
  {
    match found
    case Malformed(p) => Raised(p)
    case Hit(p) => Routed(Route(Some(p)))
    case Miss => Routed(Route(None))
  }

  /**
   * One pass of the loop body: resolve the URL and pick the branch, or stop
   * with the glob on which resolution raised.
   */
  method HandleUrl(catalog: seq<Provider>, url: string) returns (handled: Handled)
    ensures handled == Report(FindProvider(catalog, url))
    ensures handled.Raised? <==> FindProvider(catalog, url).Malformed?
    ensures WellFormed(catalog) ==> handled.Routed?
  {
    var found := FindProvider(catalog, url);
    if found.Malformed? {
      if WellFormed(catalog) {
        WellFormedNeverMalformed(catalog, url);
      }
      return Raised(found.pattern);
    }
    handled := Routed(Route(if found.Hit? then Some(found.value) else None));
  }

  /**
   * The loop over the URL list. Each URL gets its branch, in order; a URL for
   * which no provider is found does not stop the loop, but a malformed glob
   * met during resolution raises and ends the run (`failure`). The branches
   * are selected, not run, so an error raised while retrieving (the scrape
   * branch) is not part of this loop.
   */
  method ProcessUrls(catalog: seq<Provider>, urls: seq<string>) returns (branches: seq<Branch>, failure: Option<string>)
    ensures |branches| <= |urls|
    ensures forall k :: 0 <= k < |branches| ==> Report(FindProvider(catalog, urls[k])) == Routed(branches[k])
    ensures failure.None? <==> |branches| == |urls|
    ensures failure.Some? ==> Report(FindProvider(catalog, urls[|branches|])) == Raised(failure.value)
    ensures WellFormed(catalog) ==> failure.None?
  {
    branches := [];
    failure := None;
    var i := 0;
    while i < |urls|
      invariant i <= |urls| && |branches| == i
      invariant forall k :: 0 <= k < i ==> Report(FindProvider(catalog, urls[k])) == Routed(branches[k])
    {
      var handled := HandleUrl(catalog, urls[i]);
      if handled.Raised? {
        failure := Some(handled.pattern);
        return;
      }
      branches := branches + [handled.branch];
      i := i + 1;
    }
  }

  /**
   * In a well-formed catalog every URL gets a branch, and it is
   * `NoProviderFound` exactly when no scheme of any provider matches it.
   */
  lemma NoProviderIffNothingMatches(catalog: seq<Provider>, url: string)
    requires WellFormed(catalog)
    ensures Report(FindProvider(catalog, url)).Routed?
    ensures Report(FindProvider(catalog, url)) == Routed(NoProviderFound)
            <==> forall j :: 0 <= j < |catalog| ==> !AnyMatch(catalog[j].urlSchemes, url)
  {
    FindInWellFormedCatalog(catalog, url);
  }
}
