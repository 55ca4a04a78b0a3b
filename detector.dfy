/**
 * `SnapSearch::Detector`: decides whether an HTTP request comes from a
 * search-engine robot and rebuilds the URL a robot asked for when it used the
 * `_escaped_fragment_` convention.
 */
module SnapSearch {
  import opened Nullable
  import opened Text
  import opened Query

  /**
   * The facts the detector reads from a Rack request and from the
   * `Addressable::URI` parsed out of `request.url`.
   */
  datatype Request = Request(
    requestMethod: string,      // `request.request_method`; `get?` is equality with "GET"
    url: string,                // `request.url`, which `uri.to_s` gives back unchanged
    scheme: string,             // `uri.scheme`
    authority: string,          // `uri.authority`
    path: string,               // `uri.path`
    queryKeys: set<string>,     // keys of `uri.query_values` (empty when it is nil)
    userAgent: Option<string>,  // `request.user_agent`
    params: Params              // `request.params`; a Ruby hash, so its keys are distinct
  )

  /**
   * `request['DOCUMENT_ROOT']`: Rack's `Request#[]` looks the key up in the
   * request's parameters, so the root is whatever the client sends under it.
   */
  function DocumentRoot(req: Request): Option<string>
  {
    Lookup(req.params, "DOCUMENT_ROOT")
  }

  /** Library and file-system calls the detector makes but does not define. */
  datatype Env = Env(
    cgiEscape: string -> string,
    cgiUnescape: string -> string,
    resolve: (string, string) -> string, // separator normalisation, then `Pathname.new(root).join(path)`
    fileExists: string -> bool           // `Pathname#exist?`
  )

  /** A route regexp, reduced to whether it matches a path. */
  type Route = string -> bool

  /** `matched_routes` / `ignored_routes`: an array of routes, or nil. */
  type RouteList = Option<seq<Route>>

  /** `@robots`: the parsed robots table with its `'match'` and `'ignore'` agent lists. */
  datatype RobotLists = RobotLists(matchList: seq<string>, ignoreList: seq<string>)

  /** An entry of the options hash given to `detect`: absent, or given (possibly as nil). */
  datatype Setting<T> = Inherit | Given(value: T)

  datatype DetectOptions = DetectOptions(
    matchedRoutes: Setting<RouteList>,
    ignoredRoutes: Setting<RouteList>,
    checkStaticFiles: Setting<bool>
  )

  /** `{ key => fallback }.merge(options)` for one key. */
  function Merge<T>(s: Setting<T>, fallback: T): T
  {
    match s
    case Given(v) => v
    case Inherit => fallback
  }

  /** `request.user_agent =~ /#{list.escaped.join('|')}/i` is truthy: a nil agent never matches. */
  predicate AgentMatches(agent: Option<string>, list: seq<string>)
  {
    agent.Some? && AlternationIndex(agent.value, list).Some?
  }

  /**
   * An agent matches a list exactly when it is present and either the list is
   * empty (the empty regexp) or some entry is a case-insensitive substring of it.
   */
  lemma AgentMatchesIff(agent: Option<string>, list: seq<string>)
    ensures AgentMatches(agent, list) <==>
            agent.Some? && (list == [] || exists e :: e in list && ContainsIgnoringCase(agent.value, e))
  {
    if agent.Some? {
      AlternationIndexFinds(agent.value, list);
    }
  }

  predicate AllRoutesMatch(routes: seq<Route>, path: string)
  {
    forall i :: 0 <= i < |routes| ==> routes[i](path)
  }

  predicate AnyRouteMatches(routes: seq<Route>, path: string)
  {
    exists i :: 0 <= i < |routes| && routes[i](path)
  }

  /** Step 4: a non-nil, non-empty whitelist rejects a path unless every route matches it. */
  predicate WhitelistRejects(routes: RouteList, path: string)
  {
    routes.Some? && routes.value != [] && !AllRoutesMatch(routes.value, path)
  }

  /** Step 5: a non-nil blacklist rejects a path that any of its routes matches. */
  predicate BlacklistRejects(routes: RouteList, path: string)
  {
    routes.Some? && AnyRouteMatches(routes.value, path)
  }

  /** Step 6: a direct request for an existing file is skipped (the `php` test never spares one). */
  predicate StaticFileSkipped(check: bool, documentRoot: Option<string>, realPath: string, env: Env)
  {
    check && documentRoot.Some? && documentRoot.value != "" && realPath != "" &&
    var absolutePath := env.resolve(documentRoot.value, realPath);
    env.fileExists(absolutePath) && Extname(absolutePath) != "php"
  }

  /** `s` ends with `suffix`. */
  predicate EndsWith(s: string, suffix: string)
  {
    |suffix| <= |s| && s[|s| - |suffix|..] == suffix
  }

  /** The URI's query carries the crawler's marker. */
  predicate HasEscapedFragment(req: Request)
  {
    FragmentKey in req.queryKeys
  }

  /**
   * `get_decoded_path`: with the marker, the URI path followed by the unescaped
   * rebuilt query string and hash-bang; otherwise the unescaped URI path.
   */
  function GetDecodedPath(req: Request, env: Env): (r: string)
    ensures !HasEscapedFragment(req) ==> r == env.cgiUnescape(req.path)
    ensures HasEscapedFragment(req) ==> |req.path| <= |r| && r[..|req.path|] == req.path
    ensures HasEscapedFragment(req) && Lookup(req.params, FragmentKey).Some? ==>
              EndsWith(r, "#!" + Lookup(req.params, FragmentKey).value)
  {
    if HasEscapedFragment(req) then
      var qh := GetRealQsAndHashFragment(req.params, false, env.cgiEscape);
      req.path + qh.qs + qh.hash
    else
      env.cgiUnescape(req.path)
  }

  /**
   * `get_encoded_url`: with the marker, scheme, authority and path followed by
   * the escaped rebuilt query string and hash-bang; otherwise the URL as given.
   */
  function GetEncodedUrl(req: Request, env: Env): (r: string)
    ensures !HasEscapedFragment(req) ==> r == req.url
    ensures HasEscapedFragment(req) ==>
              var base := req.scheme + "://" + req.authority + req.path;
              |base| <= |r| && r[..|base|] == base
    ensures HasEscapedFragment(req) && Lookup(req.params, FragmentKey).Some? ==>
              EndsWith(r, "#!" + Lookup(req.params, FragmentKey).value)
  {
    if HasEscapedFragment(req) then
      var qh := GetRealQsAndHashFragment(req.params, true, env.cgiEscape);
      req.scheme + "://" + req.authority + req.path + qh.qs + qh.hash
    else
      req.url
  }

  /** `set_robots` takes an agent array for one list, or a whole table when no type is given. */
  datatype RobotsArg = Agents(agents: seq<string>) | Table(table: RobotLists)

  /** `add_match_robots` / `add_ignore_robots` take one agent or an array of them. */
  datatype AgentsArg = One(agent: string) | Many(agents: seq<string>)

  function AgentsOf(arg: AgentsArg): seq<string>
  {
    match arg
    case One(a) => [a]
    case Many(agents) => agents
  }

  class Detector {
    var robots: RobotLists
    var matchedRoutes: RouteList
    var ignoredRoutes: RouteList
    var checkStaticFiles: Option<bool>

    /**
     * `Detector.new(options)`: the route lists and static-file flag are kept as
     * given (nil when absent); the robots table is the one the JSON file holds.
     */
    constructor (matchedRoutes: RouteList, ignoredRoutes: RouteList, checkStaticFiles: Option<bool>, robots: RobotLists)
      ensures this.robots == robots
      ensures this.matchedRoutes == matchedRoutes && this.ignoredRoutes == ignoredRoutes
      ensures this.checkStaticFiles == checkStaticFiles
    {
      this.robots := robots;
      this.matchedRoutes := matchedRoutes;
      this.ignoredRoutes := ignoredRoutes;
      this.checkStaticFiles := checkStaticFiles;
    }

    function EffectiveMatchedRoutes(opts: DetectOptions): RouteList
      reads this
    {
      Merge(opts.matchedRoutes, matchedRoutes)
    }

    function EffectiveIgnoredRoutes(opts: DetectOptions): RouteList
      reads this
    {
      Merge(opts.ignoredRoutes, ignoredRoutes)
    }

    /**
     * `detect(options)`: the cascade of early returns. The static-file flag
     * defaults to false here, whatever the detector was built with.
     */
    function Detect(opts: DetectOptions, req: Request, env: Env): (r: bool)
      reads this
      ensures req.requestMethod != "GET" ==> !r
      ensures req.scheme != "http" && req.scheme != "https" ==> !r
      ensures AgentMatches(req.userAgent, robots.ignoreList) ==> !r
      ensures r ==> HasEscapedFragment(req) || AgentMatches(req.userAgent, robots.matchList)
    {
      var realPath := GetDecodedPath(req, env);
      if req.requestMethod != "GET" then false
      else if req.scheme != "http" && req.scheme != "https" then false
      else if AgentMatches(req.userAgent, robots.ignoreList) then false
      else if WhitelistRejects(EffectiveMatchedRoutes(opts), realPath) then false
      else if BlacklistRejects(EffectiveIgnoredRoutes(opts), realPath) then false
      else if StaticFileSkipped(Merge(opts.checkStaticFiles, false), DocumentRoot(req), realPath, env) then false
      else if HasEscapedFragment(req) then true
      else AgentMatches(req.userAgent, robots.matchList)
    }

    /**
     * `set_robots(robots, type)`: with no type the whole table is replaced; with
     * `'match'` or `'ignore'` only that list; any other type is refused.
     */
    method SetRobots(arg: RobotsArg, kind: Option<string>) returns (ok: bool)
      requires kind.None? ==> arg.Table?
      requires kind == Some("match") || kind == Some("ignore") ==> arg.Agents?
      modifies this`robots
      ensures ok <==> kind.None? || kind.value == "match" || kind.value == "ignore"
      ensures !ok ==> robots == old(robots)
      ensures kind.None? ==> robots == arg.table
      ensures kind == Some("match") ==> robots == old(robots).(matchList := arg.agents)
      ensures kind == Some("ignore") ==> robots == old(robots).(ignoreList := arg.agents)
    {
      if kind.Some? {
        if kind.value != "ignore" && kind.value != "match" {
          return false;
        }
        if kind.value == "match" {
          robots := robots.(matchList := arg.agents);
        } else {
          robots := robots.(ignoreList := arg.agents);
        }
      } else {
        robots := arg.table;
      }
      ok := true;
    }

    /** `add_match_robots`: appends to the match list, in order, without de-duplication. */
    method AddMatchRobots(arg: AgentsArg) returns (list: seq<string>)
      modifies this`robots
      ensures robots.matchList == old(robots.matchList) + AgentsOf(arg)
      ensures robots.ignoreList == old(robots.ignoreList)
      ensures list == robots.matchList
    {
      match arg {
        case Many(agents) => robots := robots.(matchList := robots.matchList + agents);
        case One(agent) => robots := robots.(matchList := robots.matchList + [agent]);
      }
      list := robots.matchList;
    }

    /** `add_ignore_robots`: appends to the ignore list, in order, without de-duplication. */
    method AddIgnoreRobots(arg: AgentsArg) returns (list: seq<string>)
      modifies this`robots
      ensures robots.ignoreList == old(robots.ignoreList) + AgentsOf(arg)
      ensures robots.matchList == old(robots.matchList)
      ensures list == robots.ignoreList
    {
      match arg {
        case Many(agents) => robots := robots.(ignoreList := robots.ignoreList + agents);
        case One(agent) => robots := robots.(ignoreList := robots.ignoreList + [agent]);
      }
      list := robots.ignoreList;
    }
  }
}
