/**
 * What the detection cascade and the URL reconstruction promise, stated for
 * every detector state, option set and request.
 */
module DetectorProperties {
  import opened Nullable
  import opened Text
  import opened Query
  import opened SnapSearch

  /** Steps 1 to 6 of the cascade let the request through. */
  ghost predicate PassesFilters(d: Detector, opts: DetectOptions, req: Request, env: Env)
    reads d
  {
    var realPath := GetDecodedPath(req, env);
    && req.requestMethod == "GET"
    && (req.scheme == "http" || req.scheme == "https")
    && !AgentMatches(req.userAgent, d.robots.ignoreList)
    && !WhitelistRejects(d.EffectiveMatchedRoutes(opts), realPath)
    && !BlacklistRejects(d.EffectiveIgnoredRoutes(opts), realPath)
    && !StaticFileSkipped(Merge(opts.checkStaticFiles, false), DocumentRoot(req), realPath, env)
  }

  /**
   * An agent containing any ignore-list entry is never detected, even with the
   * crawler's marker or a match-list entry, since the ignore check comes first.
   */
  lemma IgnoredAgentNeverDetected(d: Detector, opts: DetectOptions, req: Request, env: Env, entry: string)
    requires req.userAgent.Some?
    requires entry in d.robots.ignoreList
    requires ContainsIgnoringCase(req.userAgent.value, entry)
    ensures !d.Detect(opts, req, env)
  {
    AgentMatchesIff(req.userAgent, d.robots.ignoreList);
  }

  /** An empty ignore list joins to the empty regexp, which rejects every present agent. */
  lemma EmptyIgnoreListRejectsEveryAgent(d: Detector, opts: DetectOptions, req: Request, env: Env)
    requires d.robots.ignoreList == []
    requires req.userAgent.Some?
    ensures !d.Detect(opts, req, env)
  {
  }

  /** A non-empty whitelist rejects the decoded path as soon as one route fails to match it. */
  lemma WhitelistNeedsEveryRoute(d: Detector, opts: DetectOptions, req: Request, env: Env, i: nat)
    requires d.EffectiveMatchedRoutes(opts).Some?
    requires i < |d.EffectiveMatchedRoutes(opts).value|
    requires !d.EffectiveMatchedRoutes(opts).value[i](GetDecodedPath(req, env))
    ensures !d.Detect(opts, req, env)
  {
  }

  /** A nil whitelist and an empty one impose the same (no) restriction. */
  lemma EmptyWhitelistIsNoWhitelist(d: Detector, opts: DetectOptions, req: Request, env: Env)
    ensures d.Detect(opts.(matchedRoutes := Given(None)), req, env)
         == d.Detect(opts.(matchedRoutes := Given(Some([]))), req, env)
  {
  }

  /** A blacklist rejects the decoded path when any one of its routes matches it. */
  lemma BlacklistNeedsOneRoute(d: Detector, opts: DetectOptions, req: Request, env: Env, i: nat)
    requires d.EffectiveIgnoredRoutes(opts).Some?
    requires i < |d.EffectiveIgnoredRoutes(opts).value|
    requires d.EffectiveIgnoredRoutes(opts).value[i](GetDecodedPath(req, env))
    ensures !d.Detect(opts, req, env)
  {
  }

  /**
   * Once the filters pass, the request is a robot's exactly when the marker is
   * present, or the agent is present and the match list is empty or has an
   * entry the agent contains case-insensitively.
   */
  lemma DetectedAfterFilters(d: Detector, opts: DetectOptions, req: Request, env: Env)
    requires PassesFilters(d, opts, req, env)
    ensures d.Detect(opts, req, env) <==>
            HasEscapedFragment(req) ||
            (req.userAgent.Some? &&
             (d.robots.matchList == [] ||
              exists e :: e in d.robots.matchList && ContainsIgnoringCase(req.userAgent.value, e)))
  {
    AgentMatchesIff(req.userAgent, d.robots.matchList);
  }

  /** A match-list agent that passes the filters is detected. */
  lemma MatchedAgentDetected(d: Detector, opts: DetectOptions, req: Request, env: Env, entry: string)
    requires PassesFilters(d, opts, req, env)
    requires req.userAgent.Some?
    requires entry in d.robots.matchList
    requires ContainsIgnoringCase(req.userAgent.value, entry)
    ensures d.Detect(opts, req, env)
  {
    AgentMatchesIff(req.userAgent, d.robots.matchList);
  }

  /** Without an agent, only the crawler's marker can get a request detected. */
  lemma NilAgentNeedsMarker(d: Detector, opts: DetectOptions, req: Request, env: Env)
    requires req.userAgent.None?
    ensures d.Detect(opts, req, env) <==> PassesFilters(d, opts, req, env) && HasEscapedFragment(req)
  {
  }

  /**
   * Unless the call passes `check_static_files`, the file system is never
   * consulted: the detector's own flag plays no part.
   */
  lemma StaticCheckOffByDefault(d: Detector, opts: DetectOptions, req: Request, env: Env,
                                resolve: (string, string) -> string, fileExists: string -> bool)
    requires opts.checkStaticFiles.Inherit?
    ensures d.Detect(opts, req, env) == d.Detect(opts, req, env.(resolve := resolve, fileExists := fileExists))
  {
  }

  /**
   * With the static check on, a request resolving to an existing file is
   * rejected whatever its extension: `extname` keeps its dot, so the `'php'`
   * exemption never applies. The root is the request's `DOCUMENT_ROOT`
   * parameter, so the client picks the directory probed.
   */
  lemma ExistingFileRejected(d: Detector, opts: DetectOptions, req: Request, env: Env)
    requires opts.checkStaticFiles == Given(true)
    requires DocumentRoot(req).Some? && DocumentRoot(req).value != ""
    requires GetDecodedPath(req, env) != ""
    requires env.fileExists(env.resolve(DocumentRoot(req).value, GetDecodedPath(req, env)))
    ensures !d.Detect(opts, req, env)
  {
    ExtnameIsNeverBarePhp(env.resolve(DocumentRoot(req).value, GetDecodedPath(req, env)));
  }

  /**
   * A crawler's request for `path?query#!fragment` decodes back to that path,
   * query string and hash-bang, the query string first.
   */
  lemma DecodedPathReversesCrawl(req: Request, env: Env, query: Params, fragment: string)
    requires HasEscapedFragment(req)
    requires !HasKey(query, FragmentKey)
    requires req.params == query + [(FragmentKey, fragment)]
    ensures GetDecodedPath(req, env) == req.path + QueryString(query, false, env.cgiEscape) + "#!" + fragment
  {
    EscapedFragmentRoundTrip(query, fragment, false, env.cgiEscape);
  }

  /**
   * The URL handed to the rendering service for a crawler's request is
   * `scheme://authority/path`, the escaped query string, then the hash-bang.
   */
  lemma EncodedUrlReversesCrawl(req: Request, env: Env, query: Params, fragment: string)
    requires HasEscapedFragment(req)
    requires !HasKey(query, FragmentKey)
    requires req.params == query + [(FragmentKey, fragment)]
    ensures GetEncodedUrl(req, env)
         == req.scheme + "://" + req.authority + req.path + QueryString(query, true, env.cgiEscape) + "#!" + fragment
  {
    EscapedFragmentRoundTrip(query, fragment, true, env.cgiEscape);
  }

  /** Without the marker the path is only unescaped and the URL is passed on unchanged. */
  lemma NoMarkerNoRewrite(req: Request, env: Env)
    requires !HasEscapedFragment(req)
    ensures GetDecodedPath(req, env) == env.cgiUnescape(req.path)
    ensures GetEncodedUrl(req, env) == req.url
  {
  }

  /** The query string rebuilt from the example's one remaining pair, which is not the marker. */
  lemma ExampleQueryString(cgiEscape: string -> string)
    ensures !HasKey([("key1", "value1")], FragmentKey)
    ensures QueryString([("key1", "value1")], false, cgiEscape) == "?key1=value1"
  {
    var query := [("key1", "value1")];
    assert query[0].0 != FragmentKey;
    assert EscapePairs(query, false, cgiEscape) == query;
    var rendered := RenderPairs(query);
    assert |rendered| == 1 && rendered[0] == "key1=value1";
  }

  /**
   * The example of the crawling convention: a crawler's request for
   * `/path1?key1=value1&_escaped_fragment_=%2Fpath2%3Fkey2=value2` decodes to
   * `/path1?key1=value1#!/path2?key2=value2`.
   */
  lemma ExampleCrawlDecoded(req: Request, env: Env, query: Params, fragment: string)
    requires query == [("key1", "value1")] && fragment == "/path2?key2=value2"
    requires req.path == "/path1"
    requires FragmentKey in req.queryKeys
    requires req.params == query + [(FragmentKey, fragment)]
    ensures GetDecodedPath(req, env) == req.path + "?key1=value1" + "#!" + fragment
  {
    ExampleQueryString(env.cgiEscape);
    DecodedPathReversesCrawl(req, env, query, fragment);
  }

  /** `Googlebot/2.1` contains no `SnapSearch`, in any case. */
  lemma GooglebotNotIgnored()
    ensures !AgentMatches(Some("Googlebot/2.1"), ["SnapSearch"])
  {
    var hay, needle := "Googlebot/2.1", "SnapSearch";
    FirstLetterAbsent(hay, needle, 's');
    AgentMatchesIff(Some(hay), [needle]);
  }

  /**
   * A GET over http from `Googlebot/2.1`, with `Googlebot` on the match list,
   * an ignore list it does not hit and no routes configured, is detected.
   */
  lemma ExampleGooglebotDetected(d: Detector, req: Request, env: Env)
    requires d.robots == RobotLists(["Googlebot"], ["SnapSearch"])
    requires req.requestMethod == "GET" && req.scheme == "http"
    requires req.userAgent == Some("Googlebot/2.1")
    ensures d.Detect(DetectOptions(Given(None), Given(None), Inherit), req, env)
  {
    GooglebotNotIgnored();
    assert OccursAt("Googlebot/2.1", "Googlebot", 0) by {
      assert "Googlebot/2.1"[..9] == "Googlebot";
    }
    assert ContainsIgnoringCase("Googlebot/2.1", "Googlebot");
    assert "Googlebot" in d.robots.matchList;
    AgentMatchesIff(req.userAgent, d.robots.matchList);
  }

  /** `Mozilla/5.0` contains no `SnapSearch`, in any case. */
  lemma MozillaNotIgnored()
    ensures !AgentMatches(Some("Mozilla/5.0"), ["SnapSearch"])
  {
    var hay, needle := "Mozilla/5.0", "SnapSearch";
    FirstLetterAbsent(hay, needle, 's');
    AgentMatchesIff(Some(hay), [needle]);
  }

  /** A browser agent is detected when it carries the crawler's marker and nothing filters it out. */
  lemma ExampleMarkerWithBrowserAgent(d: Detector, req: Request, env: Env)
    requires d.robots == RobotLists(["Googlebot"], ["SnapSearch"])
    requires req.requestMethod == "GET" && req.scheme == "http"
    requires req.userAgent == Some("Mozilla/5.0")
    requires FragmentKey in req.queryKeys
    ensures d.Detect(DetectOptions(Given(None), Given(None), Inherit), req, env)
  {
    MozillaNotIgnored();
  }
}
