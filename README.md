# SnapSearch detector, modelled in Dafny

`SnapSearch::Detector` (lib/snap_search/detector.rb) decides whether an HTTP
request reaching a Rack application comes from a search-engine robot, and, for
a robot's request, rebuilds the URL the robot meant so that a pre-rendered
snapshot of it can be requested. This project models that class:

- `detect`, the ordered cascade of early returns: GET only, http/https only,
  ignore-list agents rejected, route whitelist (every route must match),
  route blacklist (any route rejects), the optional static-file skip, then
  true for the `_escaped_fragment_` marker or a match-list agent, else false;
- the reversal of the AJAX-crawling convention (`#!frag` rewritten by a crawler
  as `_escaped_fragment_=frag`): `get_real_qs_and_hash_fragment`,
  `get_decoded_path` and `get_encoded_url`;
- the `@robots` table (`'match'` and `'ignore'` agent lists) and the methods
  that replace or extend it: `set_robots`, `add_match_robots`,
  `add_ignore_robots`.

Files and modules:

- `nullable.dfy` — `Nullable.Option`, Ruby's `nil`.
- `text.dfy` — `Text`: the user-agent regexp `/a|b|c/i` built from a list of
  escaped literals, modelled as the leftmost position where some entry occurs
  with ASCII case folding (an empty list joins to the empty regexp, which
  matches at position 0); `Array#join`, a splitter that undoes it, and
  `Pathname#extname`.
- `query.dfy` — `Query`: `request.params` as an insertion-ordered list of
  (key, value) pairs, `Hash#delete`, `Hash#[]`, the query string and hash-bang
  rebuilt by `get_real_qs_and_hash_fragment`, and a form-style parser of the
  rebuilt query string against which the reconstruction is proved.
- `detector.dfy` — `SnapSearch`: the request view, the options merged over the
  detector's own settings, the class `Detector` with its state and `Detect`,
  and `GetDecodedPath` / `GetEncodedUrl`.
- `detector_properties.dfy` — `DetectorProperties`: the cascade's order and
  priorities, the route filters, the static-file quirk and the URL round trips,
  as lemmas over every detector state.

Calls into code outside the class are parameters (`SnapSearch.Env`):
`CGI.escape`, `CGI.unescape`, the separator normalisation plus
`Pathname#join` of the static-file step, and `Pathname#exist?`. What
`Addressable::URI.parse(request.url)` yields (scheme, authority, path, the keys
of `query_values`) and what Rack yields (`request.params`, the user agent) are
fields of `SnapSearch.Request`. Rack's `request['DOCUMENT_ROOT']` is a lookup
in `request.params`, so `SnapSearch.DocumentRoot` looks the key up there: the
document root of the static-file step is whatever the client sends under that
name. Route regexps are predicates on the path.

Behaviour kept as the code has it:

- `detect` defaults `check_static_files` to false and never reads the
  detector's own `@check_static_files` (detector.rb:62).
- The route lists come from the raw constructor options and may be nil; a nil
  or empty whitelist imposes nothing, a nil blacklist rejects nothing
  (detector.rb:30, 84, 87).
- An empty robot list joins to an empty regexp, which matches every agent: an
  empty ignore list rejects every request that has a user agent, an empty
  match list accepts every agent that got that far. A nil agent matches
  nothing.
- `Pathname#extname` keeps the dot, so the `!= 'php'` test (detector.rb:104)
  always holds: with the static check on, an existing `.php` file is skipped
  like any other.
- The hash-bang is rebuilt whenever the marker's value is non-nil, including
  the empty string (detector.rb:252).
- Escaping is `CGI.escape` (detector.rb:244), a parameter of the model; the
  TODO at detector.rb:242 says a space should become `%20`, which is not what
  the code does, and the model follows the code.
- `get_real_qs_and_hash_fragment` works on a `dup` of the parameters; in the
  model parameters are values, so the caller's parameters are untouched by
  construction.
- `set_robots` with an unknown type returns false and changes nothing
  (detector.rb:124).

## Model

| member | source | states |
|---|---|---|
| `Text.ScanFrom` | lib/snap_search/detector.rb:80 | the regexp scan returns the leftmost position at or after `from` where some list entry occurs case-insensitively, and None only when no such position exists |
| `Text.AlternationIndex` | lib/snap_search/detector.rb:80 | an empty list (the empty regexp) matches at 0; otherwise a match exists iff some entry occurs somewhere, and the index is the leftmost such position |
| `Text.AlternationIndexFinds` | lib/snap_search/detector.rb:80 | the escaped-literal alternation finds a match exactly when the list is empty or one entry is a case-insensitive substring of the agent |
| `Text.FirstLetterAbsent` | lib/snap_search/detector.rb:80 | an agent holding neither case of an entry's first letter does not contain that entry, ignoring case |
| `Text.AlternationIndexIsLeftmost` | lib/snap_search/detector.rb:111 | `=~` reports a position no later than any occurrence of any entry |
| `SnapSearch.AgentMatchesIff` | lib/snap_search/detector.rb:80 | `AgentMatches` (the `=~` test): an agent matches a robot list iff it is non-nil and the list is empty or has an entry it contains, ignoring case |
| `Text.Split` | lib/snap_search/detector.rb:247 | splitting at a separator yields separator-free pieces that `join` back to the input |
| `Text.SplitJoin` | lib/snap_search/detector.rb:247 | `join('&')` of separator-free pieces is undone by splitting at `&` |
| `Text.DropLeadingDots` | lib/snap_search/detector.rb:104 | the leading dots `extname` skips are removed: the result is a suffix of the name and does not start with a dot |
| `Text.Extname` | lib/snap_search/detector.rb:104 | `extname` is empty or starts with a dot |
| `Text.DropDotsBeforeName` | lib/snap_search/detector.rb:104 | a run of dots before a name not starting with a dot is exactly what is skipped |
| `Text.LeadingDotsAreNoExtension` | lib/snap_search/detector.rb:104 | a name made of leading dots and a dot-free stem (`.bashrc`, `..rb`) has no extension |
| `Text.ExtnameIsNeverBarePhp` | lib/snap_search/detector.rb:104 | `extname` is never `php`, so the `!= 'php'` test always holds |
| `Text.ExtnameOfPhpFile` | lib/snap_search/detector.rb:104 | a PHP file reports `.php`, not `php` |
| `Query.Delete` | lib/snap_search/detector.rb:234-236 | deleting the marker from a copy keeps exactly the pairs with other keys |
| `Query.DeleteAppend` | lib/snap_search/detector.rb:234-236 | deletion keeps the remaining parameters in their order |
| `Query.DeleteAbsent` | lib/snap_search/detector.rb:234-236 | deleting an absent key leaves the parameters unchanged |
| `Query.Lookup` | lib/snap_search/detector.rb:250 | `params['_escaped_fragment_']` is a stored value, and nil exactly when the key is absent |
| `Query.LookupAppended` | lib/snap_search/detector.rb:250 | the marker the crawler appends is the value looked up |
| `Query.LookupUnique` | lib/snap_search/detector.rb:250 | with distinct keys, the stored value under a key is the one looked up |
| `Query.GetRealQsAndHashFragment` | lib/snap_search/detector.rb:232-258 | `qs` is empty exactly when no other parameter remains and otherwise starts with `?`; `hash` is empty exactly when the marker is nil, otherwise `#!` plus its raw value |
| `Query.SplitRenderedPair` | lib/snap_search/detector.rb:245 | a rendered `key=value` splits back at its first `=` into key and value |
| `Query.QueryStringRoundTrip` | lib/snap_search/detector.rb:238-248 | when no (escaped) key holds `&` or `=` and no value holds `&` (`DelimiterFree`), the rebuilt query string parses back to exactly the pairs, in parameter order, passed through `CGI.escape` when `escape` is set and untouched otherwise |
| `Query.RealQueryStringParses` | lib/snap_search/detector.rb:234-248 | for any parameters, under `DelimiterFree`, the `qs` result parses back to the parameters other than the marker, in order, escaped only when asked |
| `Query.EscapedFragmentRoundTrip` | lib/snap_search/detector.rb:232-258 | for a crawler's parameters (the original query plus the appended marker) the result is the original query string and `#!` plus the fragment |
| `Query.QueryStringOmitsMarker` | lib/snap_search/detector.rb:234-247 | under `DelimiterFree`, and with an escaping that maps only the marker to the marker, the rebuilt query string does not carry the `_escaped_fragment_` key |
| `SnapSearch.GetDecodedPath` | lib/snap_search/detector.rb:191-212 | without the marker, the unescaped URI path; with it, the URI path comes first, and the result ends with `#!` and the fragment whenever the fragment parameter is non-nil |
| `SnapSearch.GetEncodedUrl` | lib/snap_search/detector.rb:166-183 | without the marker, the URL as given; with it, `scheme://authority` + path comes first, and the result ends with `#!` and the fragment whenever the fragment parameter is non-nil |
| `SnapSearch.Detector.constructor` | lib/snap_search/detector.rb:20-33 | the route lists and static flag are stored raw (nil when absent); the robots table is the given one |
| `SnapSearch.Detector.Detect` | lib/snap_search/detector.rb:57-115 | non-GET gives false; a scheme other than http/https gives false; an ignore-list agent gives false; true only with the marker or a match-list agent |
| `SnapSearch.Detector.SetRobots` | lib/snap_search/detector.rb:122-132 | an unknown type returns false and leaves the table; `match`/`ignore` replace only that list; no type replaces the whole table |
| `SnapSearch.Detector.AddMatchRobots` | lib/snap_search/detector.rb:137-145 | the match list gains the agent or the array, in order, without de-duplication; the ignore list is unchanged |
| `SnapSearch.Detector.AddIgnoreRobots` | lib/snap_search/detector.rb:150-158 | the ignore list gains the agent or the array, in order, without de-duplication; the match list is unchanged |
| `DetectorProperties.IgnoredAgentNeverDetected` | lib/snap_search/detector.rb:80 | an agent containing any ignore-list entry is never detected, marker or match list notwithstanding |
| `DetectorProperties.EmptyIgnoreListRejectsEveryAgent` | lib/snap_search/detector.rb:80 | an empty ignore list rejects every request that has an agent |
| `DetectorProperties.WhitelistNeedsEveryRoute` | lib/snap_search/detector.rb:84 | `WhitelistRejects`: one whitelist route failing on the decoded path rejects the request |
| `DetectorProperties.EmptyWhitelistIsNoWhitelist` | lib/snap_search/detector.rb:84 | a nil and an empty whitelist give the same answer |
| `DetectorProperties.BlacklistNeedsOneRoute` | lib/snap_search/detector.rb:87 | `BlacklistRejects`: one blacklist route matching the decoded path rejects the request |
| `DetectorProperties.DetectedAfterFilters` | lib/snap_search/detector.rb:108-114 | past steps 1-6 the answer is true iff the marker is present or the agent matches the match list |
| `DetectorProperties.MatchedAgentDetected` | lib/snap_search/detector.rb:111 | past the filters, an agent containing a match-list entry is detected |
| `DetectorProperties.NilAgentNeedsMarker` | lib/snap_search/detector.rb:108-114 | without an agent, the request is detected iff it passes the filters and carries the marker |
| `DetectorProperties.StaticCheckOffByDefault` | lib/snap_search/detector.rb:58-63 | `Merge` of the options over the defaults: unless the call passes `check_static_files`, the file system does not affect the answer |
| `DetectorProperties.ExistingFileRejected` | lib/snap_search/detector.rb:90-105 | `StaticFileSkipped`: with the static check on, an existing file under the `DOCUMENT_ROOT` request parameter is rejected whatever its extension |
| `DetectorProperties.DecodedPathReversesCrawl` | lib/snap_search/detector.rb:198-201 | a crawler's request decodes to path, unescaped query string, then `#!` and the fragment |
| `DetectorProperties.EncodedUrlReversesCrawl` | lib/snap_search/detector.rb:173-177 | a crawler's request encodes to `scheme://authority` + path, escaped query string, then `#!` and the fragment |
| `DetectorProperties.NoMarkerNoRewrite` | lib/snap_search/detector.rb:178-179 | without the marker the decoded path is the unescaped URI path and the encoded URL is the URL as given |
| `DetectorProperties.ExampleQueryString` | lib/snap_search/detector.rb:239-247 | the pair `key1=value1` rebuilds to `?key1=value1` |
| `DetectorProperties.ExampleCrawlDecoded` | lib/snap_search/detector.rb:217-223 | `/path1?key1=value1&_escaped_fragment_=/path2?key2=value2` decodes to `/path1?key1=value1#!/path2?key2=value2` |
| `DetectorProperties.GooglebotNotIgnored` | lib/snap_search/detector.rb:80 | `Googlebot/2.1` does not hit an ignore list holding `SnapSearch` |
| `DetectorProperties.ExampleGooglebotDetected` | lib/snap_search/detector.rb:57-115 | a GET over http from `Googlebot/2.1` with `Googlebot` on the match list and no routes is detected |
| `DetectorProperties.MozillaNotIgnored` | lib/snap_search/detector.rb:80 | `Mozilla/5.0` does not hit an ignore list holding `SnapSearch` |
| `DetectorProperties.ExampleMarkerWithBrowserAgent` | lib/snap_search/detector.rb:108 | a browser agent carrying the marker is detected |

## Left out

- Loading the robots table (`robots_json=`, detector.rb:39-44) and the reload
  inside `detect` when a different `robots_json` option is passed
  (detector.rb:66): file reading and JSON parsing are I/O; the table is given
  state, and `DetectOptions` has no `robots_json` entry.
- The separator normalisation of the static-file step (detector.rb:94-100) is
  folded into `Env.resolve`. In Ruby, `gsub!` returns nil when a string holds
  no separator, and the next call then raises; the model does not raise.
- A request without a `DOCUMENT_ROOT` parameter, with the static check on,
  raises in Ruby (`nil.empty?`, detector.rb:90); the model skips the step
  instead.
- The `gsub!` at detector.rb:94 rewrites the `DOCUMENT_ROOT` parameter string
  in place, so the request's own parameter changes; the model's request is a
  value and is not changed.
- Exceptions in general: a robots table without `match`/`ignore` breaks the
  Ruby object, and the model's `RobotLists` always has both lists; calls of
  `set_robots` with an array and no type, or a table with a type, break it
  too, and the `requires` clauses of `SnapSearch.Detector.SetRobots` exclude
  them.
- Query.GetRealQsAndHashFragment: parameter values are modelled as strings
  only. Rack gives nil for a key without `=` (`?flag`) and arrays or hashes for
  `a[]=1` and `a[b]=c`; then `CGI.escape` raises (so `get_encoded_url` raises),
  and with escaping off the value is printed with `to_s` under the key without
  its brackets. None of this is modelled.
- SnapSearch.Detector.AddMatchRobots: `<<` appends to the array object in
  place, so an array earlier handed to `set_robots` changes too; the model
  holds lists as values and does not capture that aliasing.
- SnapSearch.Detector.AddIgnoreRobots: the same aliasing through `<<` is not
  captured.
- Text.AlternationIndexFinds: Ruby's `/i` folds Unicode case; the model folds
  ASCII letters only.
- Text.Extname: follows `File.extname` for the last `/`-separated component,
  leading dots skipped (`..rb` has no extension) and a trailing dot kept as the
  extension `.`, as Ruby 2.7 and later do; trailing separators and Windows
  separators are not modelled.
- `CGI.escape`, `CGI.unescape`, Addressable's URI parsing and Rack's parameter
  parsing are parameters or request fields; the model does not relate
  `queryKeys` to `params` or `url`, since the two parsers can disagree.
- Concurrency: the Ruby object is not synchronised and the model is sequential.
- lib/rack/snap_search.rb (the Rack middleware, the interceptor and the
  network client) is not part of this model.
