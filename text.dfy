/**
 * String helpers standing in for the parts of Ruby's core library the detector
 * leans on: the case-insensitive regexp built from a list of user agents
 * (`/a|b|c/i` over escaped literals), `Array#join`, `String#split`, and
 * `File.extname`.
 */
module Text {
  import opened Nullable

  /** ASCII case folding, as `/i` applies it to the letters A-Z. */
  function Lower(c: char): char
  {
    if 'A' <= c <= 'Z' then (c as int + 32) as char else c
  }

  /** `needle` occurs in `hay` at position `i`, ignoring case. */
  predicate OccursAt(hay: string, needle: string, i: nat)
  {
    i + |needle| <= |hay| &&
    forall j :: 0 <= j < |needle| ==> Lower(hay[i + j]) == Lower(needle[j])
  }

  /** `needle` is a case-insensitive substring of `hay`. */
  predicate ContainsIgnoringCase(hay: string, needle: string)
  {
    exists i: nat :: i <= |hay| && OccursAt(hay, needle, i)
  }

  /** Some alternative of the list occurs in `hay` at position `i`. */
  predicate SomeOccursAt(hay: string, alts: seq<string>, i: nat)
  {
    exists k :: 0 <= k < |alts| && OccursAt(hay, alts[k], i)
  }

  /**
   * The regexp engine's scan for an alternation of literals: the leftmost
   * position at or after `from` where some alternative matches.
   */
  function ScanFrom(hay: string, alts: seq<string>, from: nat): (r: Option<nat>)
    decreases |hay| + 1 - from
    ensures r.Some? ==> from <= r.value <= |hay| && SomeOccursAt(hay, alts, r.value)
    ensures r.Some? ==> forall i: nat :: from <= i < r.value ==> !SomeOccursAt(hay, alts, i)
    ensures r.None? ==> forall i: nat :: from <= i ==> !SomeOccursAt(hay, alts, i)
  {
    if from > |hay| then None
    else if SomeOccursAt(hay, alts, from) then Some(from)
    else ScanFrom(hay, alts, from + 1)
  }

  /**
   * `hay =~ /#{alts.map { Regexp.escape }.join('|')}/i`: the index of the first
   * match, or None. An empty list joins to the empty regexp, which matches at 0.
   */
  function AlternationIndex(hay: string, alts: seq<string>): (r: Option<nat>)
    ensures alts == [] ==> r == Some(0)
    ensures alts != [] ==> (r.Some? <==> exists i: nat :: i <= |hay| && SomeOccursAt(hay, alts, i))
    ensures alts != [] && r.Some? ==>
              SomeOccursAt(hay, alts, r.value) && forall i: nat :: i < r.value ==> !SomeOccursAt(hay, alts, i)
  {
    if alts == [] then Some(0) else ScanFrom(hay, alts, 0)
  }

  /**
   * The alternation regexp finds a match exactly when the list is empty or one
   * of its entries is a case-insensitive substring of `hay`.
   */
  lemma AlternationIndexFinds(hay: string, alts: seq<string>)
    ensures AlternationIndex(hay, alts).Some? <==>
            alts == [] || exists e :: e in alts && ContainsIgnoringCase(hay, e)
  {
    if alts != [] {
      var r := ScanFrom(hay, alts, 0);
      if r.Some? {
        var k :| 0 <= k < |alts| && OccursAt(hay, alts[k], r.value);
        assert alts[k] in alts && ContainsIgnoringCase(hay, alts[k]);
      }
      if e :| e in alts && ContainsIgnoringCase(hay, e) {
        var i: nat :| i <= |hay| && OccursAt(hay, e, i);
        var k :| 0 <= k < |alts| && alts[k] == e;
        assert SomeOccursAt(hay, alts, i);
      }
    }
  }

  /** A string holding neither case of a needle's first letter does not contain the needle. */
  lemma FirstLetterAbsent(hay: string, needle: string, lower: char)
    requires 'a' <= lower <= 'z' && needle != [] && Lower(needle[0]) == lower
    requires lower !in hay && (lower as int - 32) as char !in hay
    ensures !ContainsIgnoringCase(hay, needle)
  {
    forall i: nat | i <= |hay| ensures !OccursAt(hay, needle, i) {
      if i + |needle| <= |hay| {
        assert hay[i] in hay;
      }
    }
  }

  /** The first match is the leftmost position at which some entry occurs. */
  lemma AlternationIndexIsLeftmost(hay: string, alts: seq<string>, i: nat, k: nat)
    requires k < |alts| && OccursAt(hay, alts[k], i)
    ensures AlternationIndex(hay, alts).Some?
    ensures AlternationIndex(hay, alts).value <= i
  {
    assert SomeOccursAt(hay, alts, i);
  }

  /** `parts.join(sep)`. */
  function Join(parts: seq<string>, sep: char): string
  {
    if |parts| == 0 then ""
    else if |parts| == 1 then parts[0]
    else parts[0] + [sep] + Join(parts[1..], sep)
  }

  /** Cut `s` at every `sep`; the pieces never contain `sep` and join back to `s`. */
  function Split(s: string, sep: char): (r: seq<string>)
    ensures |r| >= 1
    ensures forall k :: 0 <= k < |r| ==> sep !in r[k]
    ensures Join(r, sep) == s
  {
    if s == [] then [""]
    else
      var rest := Split(s[1..], sep);
      if s[0] == sep then [""] + rest
      else [[s[0]] + rest[0]] + rest[1..]
  }

  /** Splitting a piece free of `sep` followed by `sep` peels that piece off. */
  lemma {:induction false} SplitAfterPiece(a: string, sep: char, b: string)
    requires sep !in a
    ensures Split(a + [sep] + b, sep) == [a] + Split(b, sep)
  {
    if a == [] {
      assert a + [sep] + b == [sep] + b;
      assert ([sep] + b)[1..] == b;
    } else {
      assert (a + [sep] + b)[1..] == a[1..] + [sep] + b;
      SplitAfterPiece(a[1..], sep, b);
      assert [a[0]] + a[1..] == a;
    }
  }

  /** A piece free of `sep` splits to itself. */
  lemma {:induction false} SplitPiece(a: string, sep: char)
    requires sep !in a
    ensures Split(a, sep) == [a]
  {
    if a != [] {
      SplitPiece(a[1..], sep);
      assert [a[0]] + a[1..] == a;
    }
  }

  /** `Split` undoes `Join` when no piece contains the separator. */
  lemma {:induction false} SplitJoin(parts: seq<string>, sep: char)
    requires |parts| >= 1
    requires forall k :: 0 <= k < |parts| ==> sep !in parts[k]
    ensures Split(Join(parts, sep), sep) == parts
  {
    if |parts| == 1 {
      SplitPiece(parts[0], sep);
    } else {
      SplitJoin(parts[1..], sep);
      SplitAfterPiece(parts[0], sep, Join(parts[1..], sep));
      assert [parts[0]] + parts[1..] == parts;
    }
  }

  /** The position of the last `c` in `s`. */
  function LastIndexOf(s: string, c: char): (r: Option<nat>)
    ensures r.Some? ==> r.value < |s| && s[r.value] == c && c !in s[r.value + 1..]
    ensures r.None? ==> c !in s
  {
    if s == [] then None
    else if s[|s| - 1] == c then Some(|s| - 1)
    else
      var r := LastIndexOf(s[..|s| - 1], c);
      assert s == s[..|s| - 1] + [s[|s| - 1]];
      r
  }

  /** The last component of a `/`-separated path. */
  function Basename(path: string): (r: string)
    ensures '/' !in r
  {
    match LastIndexOf(path, '/')
    case Some(i) => path[i + 1..]
    case None => path
  }

  /** `s` without its leading dots. */
  function DropLeadingDots(s: string): (r: string)
    ensures |r| <= |s| && s[|s| - |r|..] == r
    ensures r == [] || r[0] != '.'
  {
    if s != [] && s[0] == '.' then DropLeadingDots(s[1..]) else s
  }

  /**
   * `Pathname#extname`: the extension of the last path component, with its
   * leading dot; the component's leading dots are skipped first, so a name
   * such as `.bashrc` or `..rb` has none.
   */
  function Extname(path: string): (r: string)
    ensures r == "" || r[0] == '.'
  {
    var name := DropLeadingDots(Basename(path));
    match LastIndexOf(name, '.')
    case Some(i) => name[i..]
    case None => ""
  }

  /** Dropping a run of dots in front of a name that does not start with one leaves the name. */
  lemma {:induction false} DropDotsBeforeName(dots: string, name: string)
    requires forall k :: 0 <= k < |dots| ==> dots[k] == '.'
    requires name == [] || name[0] != '.'
    ensures DropLeadingDots(dots + name) == name
  {
    if dots == [] {
      assert dots + name == name;
    } else {
      assert (dots + name)[1..] == dots[1..] + name;
      DropDotsBeforeName(dots[1..], name);
    }
  }

  /** Leading dots do not make an extension: `..rb` and `.bashrc` have none. */
  lemma LeadingDotsAreNoExtension(dots: string, stem: string)
    requires forall k :: 0 <= k < |dots| ==> dots[k] == '.'
    requires '.' !in stem && '/' !in stem && '/' !in dots
    ensures Extname(dots + stem) == ""
  {
    DropDotsBeforeName(dots, stem);
  }

  /** `extname` never yields a bare `php`: it keeps the dot. */
  lemma ExtnameIsNeverBarePhp(path: string)
    ensures Extname(path) != "php"
  {
  }

  /** A file name with a dot after its first character reports the dotted suffix. */
  lemma ExtnameOfPhpFile(stem: string)
    requires stem != [] && '/' !in stem && '.' !in stem
    ensures Extname(stem + ".php") == ".php"
  {
    var p := stem + ".php";
    assert LastIndexOf(p, '/').None? by {
      assert '/' !in p;
    }
    assert p[|stem|] == '.' && '.' !in p[|stem| + 1..];
    var i := LastIndexOf(p, '.');
    assert i == Some(|stem|);
  }
}
