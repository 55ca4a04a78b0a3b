/**
 * Reversal of the AJAX-crawling convention: a crawler rewrites
 * `path?k=v#!frag` into `path?k=v&_escaped_fragment_=frag`; the detector
 * rebuilds the query string without the marker and the `#!` hash from it
 * (`get_real_qs_and_hash_fragment`).
 */
module Query {
  import opened Nullable
  import opened Text

  /** The query parameter a crawler puts the hash-bang fragment in. */
  const FragmentKey := "_escaped_fragment_"

  /**
   * Rack's `request.params`: an insertion-ordered hash, written as the list of
   * its (key, value) pairs in order. Its keys are distinct (`UniqueKeys`); on a
   * list that repeats a key, `Lookup` finds the first pair, whereas Rack keeps
   * the last value in the first key's place.
   */
  type Params = seq<(string, string)>

  predicate HasKey(ps: Params, key: string)
  {
    exists k :: 0 <= k < |ps| && ps[k].0 == key
  }

  /** Keys of a Ruby hash are distinct. */
  predicate UniqueKeys(ps: Params)
  {
    forall i, j :: 0 <= i < j < |ps| ==> ps[i].0 != ps[j].0
  }

  /** `hash.delete(key)` on a copy: every pair with that key goes, the rest keep their order. */
  function Delete(ps: Params, key: string): (r: Params)
    ensures forall p :: p in r <==> p in ps && p.0 != key
    ensures |r| <= |ps|
  {
    if ps == [] then []
    else (if ps[0].0 == key then [] else [ps[0]]) + Delete(ps[1..], key)
  }

  /** Deleting distributes over concatenation, so the order of the survivors is kept. */
  lemma {:induction false} DeleteAppend(a: Params, b: Params, key: string)
    ensures Delete(a + b, key) == Delete(a, key) + Delete(b, key)
  {
    if a != [] {
      assert (a + b)[1..] == a[1..] + b;
      DeleteAppend(a[1..], b, key);
    } else {
      assert a + b == b;
    }
  }

  /** Deleting a key that is absent changes nothing. */
  lemma {:induction false} DeleteAbsent(ps: Params, key: string)
    requires !HasKey(ps, key)
    ensures Delete(ps, key) == ps
  {
    if ps != [] {
      assert !HasKey(ps[1..], key) by {
        forall k | 0 <= k < |ps[1..]| ensures ps[1..][k].0 != key {
          assert ps[1..][k] == ps[k + 1];
        }
      }
      DeleteAbsent(ps[1..], key);
      assert [ps[0]] + ps[1..] == ps;
    }
  }

  /** `hash[key]`: the value stored under `key`, or nil. */
  function Lookup(ps: Params, key: string): (r: Option<string>)
    ensures r.Some? ==> (key, r.value) in ps
    ensures r.None? <==> !HasKey(ps, key)
  {
    if ps == [] then None
    else if ps[0].0 == key then Some(ps[0].1)
    else
      var r := Lookup(ps[1..], key);
      assert HasKey(ps, key) ==> HasKey(ps[1..], key) by {
        if HasKey(ps, key) {
          var k :| 0 <= k < |ps| && ps[k].0 == key;
          assert k > 0 && ps[1..][k - 1] == ps[k];
        }
      }
      r
  }

  /** A pair appended after pairs with other keys is the one `Lookup` finds. */
  lemma {:induction false} LookupAppended(ps: Params, key: string, value: string)
    requires !HasKey(ps, key)
    ensures Lookup(ps + [(key, value)], key) == Some(value)
  {
    if ps != [] {
      assert ps[0].0 != key;
      assert (ps + [(key, value)])[1..] == ps[1..] + [(key, value)];
      assert !HasKey(ps[1..], key) by {
        forall k | 0 <= k < |ps[1..]| ensures ps[1..][k].0 != key {
          assert ps[1..][k] == ps[k + 1];
        }
      }
      LookupAppended(ps[1..], key, value);
    }
  }

  /** In a hash with distinct keys the stored value is the one `Lookup` returns. */
  lemma LookupUnique(ps: Params, key: string, value: string)
    requires UniqueKeys(ps) && (key, value) in ps
    ensures Lookup(ps, key) == Some(value)
  {
    var i :| 0 <= i < |ps| && ps[i] == (key, value);
    var r := Lookup(ps, key);
    var j :| 0 <= j < |ps| && ps[j] == (key, r.value);
    assert i == j;
  }

  /** The `collect!` that applies `CGI.escape` to every key and value, done only when `escape` is set. */
  function EscapePairs(ps: Params, escape: bool, cgiEscape: string -> string): (r: Params)
    ensures |r| == |ps|
    ensures forall i :: 0 <= i < |ps| ==>
      r[i] == if escape then (cgiEscape(ps[i].0), cgiEscape(ps[i].1)) else ps[i]
  {
    if escape then seq(|ps|, i requires 0 <= i < |ps| => (cgiEscape(ps[i].0), cgiEscape(ps[i].1)))
    else ps
  }

  /** `"#{key}=#{value}"` for every pair. */
  function RenderPairs(ps: Params): (r: seq<string>)
    ensures |r| == |ps|
  {
    seq(|ps|, i requires 0 <= i < |ps| => ps[i].0 + "=" + ps[i].1)
  }

  /** `'?' + pairs.join('&')`, or `''` when there are no pairs. */
  function QueryString(ps: Params, escape: bool, cgiEscape: string -> string): string
  {
    if ps == [] then "" else "?" + Join(RenderPairs(EscapePairs(ps, escape, cgiEscape)), '&')
  }

  /** `"#!#{fragment}"`, or `''` when the fragment is nil (an empty fragment still gets `#!`). */
  function HashFragment(fragment: Option<string>): string
  {
    match fragment
    case Some(f) => "#!" + f
    case None => ""
  }

  datatype QsAndHash = QsAndHash(qs: string, hash: string)

  /**
   * `get_real_qs_and_hash_fragment(params, escape)`: the query string of every
   * parameter but the marker, and the hash-bang built from the marker's value.
   */
  function GetRealQsAndHashFragment(params: Params, escape: bool, cgiEscape: string -> string): (r: QsAndHash)
    ensures r.qs == "" <==> Delete(params, FragmentKey) == []
    ensures r.qs != "" ==> r.qs[0] == '?'
    ensures r.hash == "" <==> Lookup(params, FragmentKey).None?
    ensures Lookup(params, FragmentKey).Some? ==> r.hash == "#!" + Lookup(params, FragmentKey).value
  {
    QsAndHash(QueryString(Delete(params, FragmentKey), escape, cgiEscape),
              HashFragment(Lookup(params, FragmentKey)))
  }

  // ----- Parsing a query string back: the inverse the reconstruction is checked against -----

  /** `"k=v"` split at its first `=`; a piece without `=` is a key with an empty value. */
  function SplitPair(s: string): (r: (string, string))
  {
    if s == [] then ("", "")
    else if s[0] == '=' then ("", s[1..])
    else var r := SplitPair(s[1..]); ([s[0]] + r.0, r.1)
  }

  lemma {:induction false} SplitRenderedPair(key: string, value: string)
    requires '=' !in key
    ensures SplitPair(key + "=" + value) == (key, value)
  {
    if key == [] {
      assert key + "=" + value == ['='] + value;
      assert (['='] + value)[1..] == value;
    } else {
      assert (key + "=" + value)[1..] == key[1..] + "=" + value;
      SplitRenderedPair(key[1..], value);
      assert [key[0]] + key[1..] == key;
    }
  }

  /** Form-style parsing of `?k=v&k=v` into its ordered pairs. */
  function ParseQueryString(qs: string): Params
  {
    if qs == [] || qs[0] != '?' then []
    else
      var pieces := Split(qs[1..], '&');
      seq(|pieces|, i requires 0 <= i < |pieces| => SplitPair(pieces[i]))
  }

  /** Keys free of `&` and `=`, values free of `&`: the pairs survive a render and re-parse. */
  predicate DelimiterFree(ps: Params)
  {
    forall i :: 0 <= i < |ps| ==> '&' !in ps[i].0 && '=' !in ps[i].0 && '&' !in ps[i].1
  }

  /**
   * The query string the reconstruction builds parses back to exactly the
   * (escaped, if asked) parameters it was built from, in their order.
   */
  lemma QueryStringRoundTrip(ps: Params, escape: bool, cgiEscape: string -> string)
    requires DelimiterFree(EscapePairs(ps, escape, cgiEscape))
    ensures ParseQueryString(QueryString(ps, escape, cgiEscape)) == EscapePairs(ps, escape, cgiEscape)
  {
    if ps != [] {
      var e := EscapePairs(ps, escape, cgiEscape);
      var parts := RenderPairs(e);
      forall k | 0 <= k < |parts| ensures '&' !in parts[k] {
        assert parts[k] == e[k].0 + "=" + e[k].1;
      }
      SplitJoin(parts, '&');
      var qs := QueryString(ps, escape, cgiEscape);
      assert qs[1..] == Join(parts, '&');
      var parsed := ParseQueryString(qs);
      forall k | 0 <= k < |e| ensures parsed[k] == e[k] {
        SplitRenderedPair(e[k].0, e[k].1);
      }
    }
  }

  /**
   * For any parameters, the rebuilt query string parses back to the (escaped,
   * if asked) pairs other than the marker, in their order.
   */
  lemma RealQueryStringParses(params: Params, escape: bool, cgiEscape: string -> string)
    requires DelimiterFree(EscapePairs(Delete(params, FragmentKey), escape, cgiEscape))
    ensures ParseQueryString(GetRealQsAndHashFragment(params, escape, cgiEscape).qs)
         == EscapePairs(Delete(params, FragmentKey), escape, cgiEscape)
  {
    QueryStringRoundTrip(Delete(params, FragmentKey), escape, cgiEscape);
  }

  /**
   * The crawler's rewrite appends the fragment as the last parameter; the
   * reconstruction recovers the original query and `#!` fragment from it.
   */
  lemma EscapedFragmentRoundTrip(query: Params, fragment: string, escape: bool, cgiEscape: string -> string)
    requires !HasKey(query, FragmentKey)
    ensures GetRealQsAndHashFragment(query + [(FragmentKey, fragment)], escape, cgiEscape)
         == QsAndHash(QueryString(query, escape, cgiEscape), "#!" + fragment)
  {
    DeleteAppend(query, [(FragmentKey, fragment)], FragmentKey);
    DeleteAbsent(query, FragmentKey);
    assert Delete([(FragmentKey, fragment)], FragmentKey) == [];
    assert Delete(query + [(FragmentKey, fragment)], FragmentKey) == query;
    LookupAppended(query, FragmentKey, fragment);
  }

  /** Whatever the parameters, the rebuilt query string never carries the marker. */
  lemma QueryStringOmitsMarker(params: Params, escape: bool, cgiEscape: string -> string)
    requires DelimiterFree(EscapePairs(Delete(params, FragmentKey), escape, cgiEscape))
    requires escape ==> cgiEscape(FragmentKey) == FragmentKey
    requires escape ==> forall k :: cgiEscape(k) == FragmentKey ==> k == FragmentKey
    ensures !HasKey(ParseQueryString(GetRealQsAndHashFragment(params, escape, cgiEscape).qs), FragmentKey)
  {
    var rest := Delete(params, FragmentKey);
    QueryStringRoundTrip(rest, escape, cgiEscape);
    var parsed := ParseQueryString(GetRealQsAndHashFragment(params, escape, cgiEscape).qs);
    forall k | 0 <= k < |parsed| ensures parsed[k].0 != FragmentKey {
      assert rest[k] in rest;
    }
  }
}
