# Provider resolution and oEmbed retrieval for embedkar, in Dafny

embedkar takes a list of URLs and, for each one, finds a metadata
*provider* in an ordered catalog. A provider is a name, a list of URL
schemes (glob patterns such as `http://*.example.com/*`), a retrieval
method `how` (`oembed`, `opengraph` or `scrape`) and, for oEmbed, an
endpoint. The provider's `how` then selects the retrieval branch. This
project models the core of `provider.rb` and proves properties of it.

- `wrappers.dfy`, module `Wrappers`: the `Option` type, and `AppendAssoc`, the associativity of sequence concatenation.
- `pattern.dfy`, module `Pattern`: `url_to_regex` and the `=~` test it feeds.
  - Split: `Split` (provider.rb:23) splits a glob by the unanchored regular
    expression `([^:]*)://?([^/?]*)(.*)` into scheme, domain and path.
  - Compile: each character is escaped. `DomainTokens` (provider.rb:24)
    turns a domain `*.` into "an optional dot-free label and its dot" and
    any other `*` into "any run". `PathTokens` (provider.rb:25) turns each
    `*` into "any run".
  - Result: a rule anchored at the start of the URL only (provider.rb:26).
    The rule is a token list, and `Matches` is its matcher, the `=~` of
    provider.rb:34. `FullMatch`, the same matcher anchored at both ends, is
    the reference definition the matcher is proved against.
    `SchemeMatches` is `url_to_regex(x) =~ url` (provider.rb:34).
  - Failure: a glob with no `:/` has no match. The code then raises, and
    the model gives `None`.
- `wildcards.dfy`, module `Wildcards`: what the wildcards mean, stated on
  the pattern text.
  - A glob is read as a template whose wildcards are replaced by "fills"
    (`FillPath`, `FillDomain`). A `*` takes any string, the empty one
    included. A domain `*.` takes nothing or one non-empty dot-free label
    with its dot (`FitsDomain`).
  - `GlobSemantics` proves that the compiled rule accepts exactly the URLs
    that this reading accepts (`GlobAccepts`).
- `resolver.dfy`, module `Resolver`: `detect` over one provider's schemes
  (`DetectFrom`, with `Detect` from the first scheme, provider.rb:34) and
  `find_provider` over the catalog (`FindFrom`, with `FindProvider` from
  the first provider, provider.rb:31-41). The result is a first hit in
  catalog order, a miss, or the malformed glob that made compilation raise.
- `dispatch.dfy`, module `Dispatch`: the `urls.each` loop.
  - Each URL is resolved and routed on `how`; `Report` (provider.rb:138-156)
    says what resolution and routing make of one URL.
  - A URL with no provider does not stop the loop.
  - A malformed glob reached during resolution raises and ends the run.
- `oembed.dfy`, module `OEmbed`: `extract_json_for_oembed_link`, as an
  imperative method.
  - The loop: the `until found` loop over `uri`, `found`, `max_redirects`
    and `res` (provider.rb:47-65). It is specified by `Follow`, which says
    how the loop ends, and `Targets`, which lists the requests it sends.
  - Classification: `Classify` is the `case res` classification of the last
    response (provider.rb:67-76).
  - Rescue: `Rescue` (provider.rb:78-88) turns JSON errors and `Net::`
    errors into `UnknownResponse`, carrying the code of the last response
    received or `'Error'`, and re-raises every other error unchanged.
  - `Consume` is the outcome of the whole call (provider.rb:43-89). The
    method is proved to produce `Consume` and `Targets`, and the
    redirect-bound properties are proved about those functions.
  - Parameters: the HTTP transport is a function from the request number
    to what that request produced, and the JSON parser is a function that
    may fail. Both are parameters, so the properties hold for every server
    and every parser.

## Model

| member | source | states |
|---|---|---|
| Pattern.FirstColonSlash | provider.rb:23 | the position of the first `:/` at or after i, with no `:/` before it; `None` exactly when there is none |
| Pattern.RunStart | provider.rb:23 | the scheme group `[^:]*` before the `:/` starts just after the last colon before it, and holds no colon |
| Pattern.DomainEnd | provider.rb:23 | the domain group `[^/?]*` stops at the first `/` or `?`, or at the end of the string |
| Pattern.SeparatorEnd | provider.rb:23 | `://?` consumes `:/`, and it consumes a second `/` exactly when one follows |
| Pattern.SplitAt | provider.rb:23 | the shape of the groups of the match at a given `:/`: the scheme has no colon, the domain no `/` or `?`, and the path is empty or starts with `/` or `?` |
| Pattern.SplitAtReassembles | provider.rb:23 | the groups of the match at k sit around k: the pattern is a prefix that is empty or ends in `:`, then the scheme ending at k, `:/`, a `/` exactly when `s[k + 2]` is one, the domain and the path |
| Pattern.Split | provider.rb:23 | the match fails exactly when the pattern has no `:/`; otherwise the scheme has no colon, the domain no `/` or `?`, and the path is empty or starts with one of them |
| Pattern.SplitReassembles | provider.rb:23 | the groups are pieces of the pattern: it is an unmatched prefix that is empty or ends in `:`, then the scheme, the first `:/` of the pattern, a `/` exactly when one follows it, the domain and the path |
| Pattern.SplitAssembled | provider.rb:23 | splitting inverts assembling: a colon-free scheme, `://` (or `:/`), a domain and a path come back apart unchanged |
| Pattern.Literals | provider.rb:24-26 | `Regexp.escape`: one literal token per character, in order |
| Pattern.UrlToRegex | provider.rb:21-29 | an already compiled rule is returned unchanged; a glob fails to compile exactly when its split fails |
| Pattern.PathTokensPointwise | provider.rb:25 | the path compiles character by character: a `*` becomes any run, every other character the literal itself |
| Pattern.DomainTokensLiteral | provider.rb:24 | a domain without `*` compiles to its own characters as literals |
| Pattern.PathTokensLiteral | provider.rb:25 | a path without `*` compiles to its own characters as literals |
| Pattern.SplitKeepsNoStar | provider.rb:23 | a pattern without `*` gives a domain and path without `*` |
| Pattern.LiteralsAppend | provider.rb:26 | escaping a concatenation is concatenating the escapes |
| Pattern.MatchesLiterals | provider.rb:26 | escaped literals followed by a rule match u exactly when u starts with those characters and the rule matches the rest |
| Pattern.LiteralsMatchIff | provider.rb:26 | the escape of w matches exactly the strings that start with w |
| Pattern.LiteralTokens | provider.rb:24-26 | without `*` in domain and path, the compiled rule is the escape of scheme, `://`, domain and path |
| Pattern.LiteralPatternCompiles | provider.rb:21-29 | a pattern without `*` compiles to the escape of its scheme, `://`, domain and path |
| Pattern.LiteralPattern | provider.rb:21-29 | a pattern without `*` matches exactly the URLs that start with its scheme, `://`, domain and path; `.` and `?` are ordinary characters |
| Pattern.FullMatchExtends | provider.rb:26 | a match of the whole of w is a start-anchored match of every string that begins with w |
| Pattern.MatchHasFullPrefix | provider.rb:26 | every start-anchored match matches some prefix of the URL from start to end |
| Pattern.AnchoredAtStartOnly | provider.rb:26 | `^` without `$`: the rule matches a URL exactly when it matches, start to end, some prefix of it |
| Pattern.MatchExtends | provider.rb:26 | appending characters to a matching URL keeps it matching |
| Pattern.AnyRunMatchesAll | provider.rb:24-25 | a lone `(.*?)` matches every string |
| Pattern.OptLabelThenLiterals | provider.rb:24 | `([^\.]+\.)?` then literals then `(.*?)` matches exactly the strings that start with the literals, either directly or after one non-empty dot-free label and its dot |
| Pattern.SubdomainDomainTokens | provider.rb:24 | a domain `*.<host>` compiles to the optional label followed by the host's literals |
| Pattern.TrailingWildcardPath | provider.rb:25 | the path `/*` compiles to `/` followed by any run |
| Pattern.SubdomainGlobSplits | provider.rb:23 | `<scheme>://*.<host>/*` splits into the scheme, `*.<host>` and `/*` |
| Pattern.SubdomainGlobCompiles | provider.rb:21-29 | `<scheme>://*.<host>/*` compiles to the scheme, `://`, an optional label, the host, `/` and any run |
| Pattern.SubdomainGlobMatches | provider.rb:21-29 | `<scheme>://*.<host>/*` matches exactly the URLs that read `<scheme>://` and then `<host>/`, directly or after one dot-free label |
| Pattern.LiteralGlobCompiles | provider.rb:21-29 | a wildcard-free `<scheme>://<host><path>` compiles to the escape of the whole string |
| Pattern.LiteralGlobMatchesExtension | provider.rb:21-29 | a wildcard-free glob written `<scheme>://<host><path>`, with a colon-free scheme, a host without `/` or `?` and a path that is empty or starts with one of them, matches every URL that extends it |
| Pattern.ExampleSubdomainMatches | provider.rb:21-29 | `http://*.example.com/*` matches `http://sub.example.com/p` |
| Pattern.ExampleBareDomainMatches | provider.rb:21-29 | `http://*.example.com/*` matches `http://example.com/p`: the label is optional |
| Pattern.ExampleLookalikeRejected | provider.rb:21-29 | `http://*.example.com/*` does not match `http://notexample.com/p` |
| Pattern.ExampleTwoLabelsRejected | provider.rb:21-29 | `http://*.example.com/*` does not match `http://a.b.example.com/p`: at most one label |
| Pattern.ExampleLongerUrlMatches | provider.rb:21-29 | `http://example.com/book` matches `http://example.com/book/123`: there is no end anchor |
| Wildcards.FullMatchJoin | provider.rb:24-26 | a rule that fully matches a, followed by a rule that fully matches b, fully matches a + b |
| Wildcards.FullMatchSplit | provider.rb:24-26 | a full match of two rules in sequence splits the string into a full match of each |
| Wildcards.PathFillMatches | provider.rb:25 | every filling of a path glob, with any strings for its `*`s, is fully matched by the compiled path |
| Wildcards.PathMatchFills | provider.rb:25 | every string fully matched by the compiled path is a filling of the path glob |
| Wildcards.DomainFillMatches | provider.rb:24 | every filling of a domain glob, with a label fill for each `*.` and any strings for other `*`s, is fully matched by the compiled domain |
| Wildcards.DomainMatchFills | provider.rb:24 | every string fully matched by the compiled domain is such a filling of the domain glob |
| Wildcards.FillPathAppend | provider.rb:25 | filling a concatenation of path globs is filling each part |
| Wildcards.PathStarTakesAnyRun | provider.rb:25 | a `*` anywhere in a path stands for any string, the empty one included |
| Wildcards.FillDomainAppend | provider.rb:24 | filling a concatenation of domain globs is filling each part, unless the join forms a new `*.` |
| Wildcards.DomainStarTakesAnyRun | provider.rb:24 | a domain `*` not followed by `.` stands for any string, the empty one included |
| Wildcards.CompiledImpliesGlob | provider.rb:21-29 | a URL the compiled glob matches starts with the scheme, `://` and a filling of domain and path |
| Wildcards.GlobImpliesCompiled | provider.rb:21-29 | a URL that starts with the scheme, `://` and a filling of domain and path is matched by the compiled glob |
| Wildcards.GlobSemantics | provider.rb:21-29 | the compiled glob matches a URL exactly when it starts with the scheme, `://` and the domain and path with each `*` replaced by any string and each domain `*.` by nothing or one dot-free label and its dot |
| Resolver.DetectFrom | provider.rb:34 | `detect`: a hit is a matching scheme with every earlier scheme compiled and missing; a miss happens exactly when all compile and miss; a failure names a glob with no `:/`, every scheme before it compiled and missed |
| Resolver.FindFrom | provider.rb:31-41 | a hit is a catalog provider with a matching scheme k, every earlier provider having declined and every scheme of its own before k having compiled and missed; a miss happens exactly when every provider declines; a failure names a glob with no `:/` that the scan reaches, every earlier provider having declined and every earlier scheme of its own provider having compiled and missed |
| Resolver.DetectReachesFirst | provider.rb:34 | `detect` returns scheme k when every earlier scheme compiled and missed and scheme k matches; later schemes are never compiled |
| Resolver.DetectCompiled | provider.rb:34-35 | when every scheme compiles, `detect` misses exactly when no scheme matches and hits exactly when one does |
| Resolver.FindFromReachesFirst | provider.rb:33-38 | if every provider from i up to j declines and scheme k of provider j matches after j's earlier schemes compiled and missed, the scan from i returns provider j, whatever j's later schemes are |
| Resolver.FindReturnsFirstMatching | provider.rb:31-41 | in a catalog whose globs all compile, catalog order is the tie-break: the first provider with a matching scheme is returned, whatever matches later |
| Resolver.FindInWellFormedCatalog | provider.rb:31-41 | in a catalog whose globs all compile, resolution never fails, returns a member of the catalog, and returns `nil` exactly when nothing matches |
| Resolver.WellFormedNeverMalformed | provider.rb:34 | resolution in a catalog whose globs all compile never raises |
| Dispatch.Route | provider.rb:140-156 | no provider gives "No provider found."; `oembed`, `opengraph` and `scrape` each give their own branch; any other `how` gives the not-supported branch carrying that `how`; each in both directions |
| Dispatch.HandleUrl | provider.rb:138-157 | one URL is resolved and routed; it raises exactly when resolution meets a malformed glob, never in a catalog whose globs all compile |
| Dispatch.ProcessUrls | provider.rb:137-158 | URLs are handled in order, each routed as its resolution says; a URL with no provider does not stop the loop; with retrieval not run, the loop ends early exactly when a URL's resolution raises, and never in a catalog whose globs all compile |
| Dispatch.NoProviderIffNothingMatches | provider.rb:138-141 | in a catalog whose globs all compile, a URL is routed to "No provider found." exactly when no scheme of any provider matches it |
| OEmbed.ExtractJsonForOEmbedLink | provider.rb:43-89 | the loop sends exactly the requests `Targets` lists, and the call ends with the outcome `Consume` gives: the classification of the final response, or the rescue of the error a request raised |
| OEmbed.TargetsBound | provider.rb:47-65 | the loop always ends, after at least one request and at most one more than its redirect budget |
| OEmbed.TargetsFollowLocations | provider.rb:55-59 | the first request goes to the endpoint; each later one goes to the previous response's `location`, which was a redirect; each carries `?url=` and the caller's URL |
| OEmbed.FollowAlongRedirects | provider.rb:59-64 | k redirects within the budget advance the loop k requests, spend k of the budget, and leave the latest redirect as the last response |
| OEmbed.TargetsAlongRedirects | provider.rb:55-64 | k redirects within the budget add exactly k requests |
| OEmbed.AlwaysRedirectingServer | provider.rb:48-65 | against a server that always redirects, exactly 5 requests are sent, and the 5th response is classified rather than a too-many-redirects error raised |
| OEmbed.RedirectsThenAnswer | provider.rb:59-76 | k ≤ 4 redirects followed by a response without `location` give k + 1 requests, and that response is classified |
| OEmbed.NotFoundAfterRedirects | provider.rb:70-71 | a final 404 after any number of redirects within the budget gives `NotFound` with the caller's URL, not the redirected location |
| OEmbed.FaultAfterRedirects | provider.rb:78-88 | an error raised by request k is converted to `UnknownResponse` with the code of response k - 1 (or `'Error'` when k is 0) when it is a JSON or `Net::` error; otherwise it is raised again unchanged |
| OEmbed.OutcomeOrigins | provider.rb:67-88 | `UnknownFormat`, `NotFound` and a parsed document come exactly from a final 501, 404 and parsable 2xx; `NotFound` names the caller's URL; an unparsable 2xx body and any other final status give `UnknownResponse` with that code; a 2xx without a body re-raises the `TypeError` of `JSON.parse(nil)`; otherwise only unconverted errors are raised again, unchanged |
| OEmbed.RescueConvertsOnlyKnownErrors | provider.rb:84-88 | `rescue` produces `UnknownResponse` exactly for JSON errors and errors whose class name starts with `Net::`, and re-raises everything else unchanged |

## Left out

- Catalog loading (provider.rb:10-13) and the hard-coded URL list
  (provider.rb:17-19) are out: the model takes the catalog and the URL list
  as parameters. The YAML files are not part of this model.
- Console output (`puts`) is out: `ProcessUrls` returns the branch chosen
  for each URL instead of printing it.
- HTTP, TLS and connections (provider.rb:50-52, 55) are out. The transport
  is a parameter that gives what each request produced.
- `URI.parse`, and the clearing of scheme, userinfo, host, port and
  registry (provider.rb:45, 54, 59), are out: an endpoint or `location` is
  kept as a string, and a request target is that string followed by `?url=`
  and the URL, with no encoding.
- `JSON.parse` is out; it is a parameter that may fail on a body. A parse
  failure is a `JSON::JSONError`, which the rescue clause converts. A 2xx
  response without a body makes `JSON.parse(nil)` raise a `TypeError`,
  which the rescue clause re-raises.
- An error a request raises is either `JsonError` or `Raised` with its
  class name. A `Raised` never names a subclass of `JSON::JSONError`.
- `extract_json_for_opengraph_link` (provider.rb:91-93),
  `extract_json_for_scrape_link` and `scrape_goodreads_link`
  (provider.rb:95-135) are out: they call external libraries and a page
  fetch. `Route` selects their branches, but nothing is fetched.
- ProcessUrls: the scrape branch (provider.rb:151-153) can raise and end the
  run in the source, through a failing `open(url)` (provider.rb:102) or
  through `description.inner_text` on a missing description
  (provider.rb:119-121). The model selects the branch without running it,
  so its loop ends early only on a resolution error.
- The oEmbed and opengraph calls at provider.rb:146-150 are commented out
  in the source, so `ProcessUrls` only selects those branches.
- `OEmbed.ExtractJsonForOEmbedLink` models the intended outcomes of the
  `raise` lines (provider.rb:69, 71, 75, 85). As written, line 69 calls
  `format` with no argument, and all four name an `OEmbed` module the file
  never defines. The model gives `UnknownFormat`, `NotFound(url)` and
  `UnknownResponse(code)` where the bare file would raise `ArgumentError`
  or `NameError`. That includes the conversion in the rescue clause itself
  (line 85).
- An unparsable 2xx body yields `UnknownResponse` with the response's
  code. There is no separate payload error.
- A malformed glob is found only when resolution reaches it, not when the
  catalog is loaded. It then raises, and nothing in the URL loop catches
  it, so it ends the run.
- Newline corner cases of Ruby regular expressions are out. `^` matches
  after any newline, `.` in `(.*?)` does not match a newline, and
  `[^\.]` does. The model treats the URL as one line.
- A catalog entry that is already a `Regexp` (provider.rb:22) is modelled
  as an already compiled token list (`Compiled`), not as an arbitrary
  regular expression.
- A provider without a `how` key behaves like one with an unknown `how`,
  so `how` is a plain string.
- The `Example*` lemmas of `Pattern` take the scheme, host and URL as
  parameters fixed by `requires`, so that the verifier reasons from the
  general lemmas. Each states one concrete instance.
