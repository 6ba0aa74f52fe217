/**
  The scheme-agnostic URL key used by both catalog versions.

  With `ignore_protocol`, a URL is matched through the SQL pattern
  `'%' + url[url.find("://"):]`, i.e. every stored key that ENDS WITH the
  substring of `url` starting at the first "://". This module models
  Python's `str.find`, Python's `s[k:]` slice (negative `k` counts from the
  end) and the resulting suffix, and proves what that key does and does not
  identify.
 */
module Urls {

  type Url = string

  /** The separator between scheme and remainder. */
  const Separator: string := "://"

  /** `pat` occurs in `s` starting at index `j`. */
  predicate OccursAt(s: string, pat: string, j: int)
  {
    0 <= j && j + |pat| <= |s| && s[j..j + |pat|] == pat
  }

  /** Python's `s.find(pat, start)`: the first index at or after `start`
      where `pat` occurs, or -1 when there is none. */
  function FindFrom(s: string, pat: string, start: nat): (r: int)
    ensures r == -1 || (start <= r && OccursAt(s, pat, r))
    ensures r >= 0 ==> forall j :: start <= j < r ==> !OccursAt(s, pat, j)
    ensures r == -1 ==> forall j :: start <= j ==> !OccursAt(s, pat, j)
    decreases |s| - start
  {
    if start + |pat| > |s| then -1
    else if s[start..start + |pat|] == pat then start
    else FindFrom(s, pat, start + 1)
  }

  /** Python's `s.find(pat)`. */
  function Find(s: string, pat: string): int
  {
    FindFrom(s, pat, 0)
  }

  /** Python's `s[k:]`: a negative `k` counts from the end and is clamped at 0,
      a `k` past the end gives the empty string. */
  function SliceFrom(s: string, k: int): (r: string)
    ensures |r| <= |s| && s[|s| - |r|..] == r
    ensures k >= 0 ==> |r| == if k <= |s| then |s| - k else 0
    ensures k < 0 ==> |r| == if -k <= |s| then -k else |s|
  {
    if k < 0 then (if |s| + k < 0 then s else s[|s| + k..])
    else if k <= |s| then s[k..]
    else []
  }

  /** `s` ends with `suffix`: the SQL test `s LIKE '%' || suffix` read as a
      literal, case-sensitive suffix match. */
  predicate EndsWith(s: string, suffix: string)
  {
    |suffix| <= |s| && s[|s| - |suffix|..] == suffix
  }

  /** `url[url.find("://"):]`: the match key of `ignore_protocol` lookups. */
  function SchemeSuffix(url: Url): (r: string)
    ensures EndsWith(url, r)
    ensures Find(url, Separator) >= 0 ==>
              |r| >= |Separator| && r[..|Separator|] == Separator &&
              |url| - |r| == Find(url, Separator)
    ensures Find(url, Separator) < 0 ==>
              r == if |url| == 0 then [] else [url[|url| - 1]]
  {
    var i := Find(url, Separator);
    if i >= 0 then
      assert OccursAt(url, Separator, i);
      assert url[i..][..3] == url[i..i + 3];
      url[i..]
    else
      SliceFrom(url, i)
  }

  /** A scheme without ':' holds no "://", so the first "://" of
      `scheme + "://" + rest` is the one after the scheme. */
  lemma {:induction false} FirstSeparatorAfterScheme(scheme: string, rest: string)
    requires ':' !in scheme
    ensures OccursAt(scheme + Separator + rest, Separator, |scheme|)
    ensures forall j :: 0 <= j < |scheme| ==> !OccursAt(scheme + Separator + rest, Separator, j)
  {
    var url := scheme + Separator + rest;
    assert url[|scheme|..|scheme| + 3] == Separator;
    forall j | 0 <= j < |scheme|
      ensures !OccursAt(url, Separator, j)
    {
      assert url[j] == scheme[j];
      assert url[j..j + 3][0] == url[j];
    }
  }

  /** Changing only the scheme keeps the match key: `http://x` and `https://x`
      both reduce to `://x`, provided the scheme itself holds no ':'. */
  lemma {:induction false} SchemeSuffixOfSchemeUrl(scheme: string, rest: string)
    requires ':' !in scheme
    ensures SchemeSuffix(scheme + Separator + rest) == Separator + rest
  {
    var url := scheme + Separator + rest;
    FirstSeparatorAfterScheme(scheme, rest);
    var i := Find(url, Separator);
    assert i == |scheme|;
    assert url[i..] == Separator + rest;
  }

  /** Two URLs that differ only in scheme are the same logical entity: each
      matches the other's key, although they are different keys. */
  lemma SchemeChangeMatches(scheme1: string, scheme2: string, rest: string)
    requires ':' !in scheme1 && ':' !in scheme2
    ensures SchemeSuffix(scheme1 + Separator + rest) == SchemeSuffix(scheme2 + Separator + rest)
    ensures EndsWith(scheme1 + Separator + rest, SchemeSuffix(scheme2 + Separator + rest))
    ensures scheme1 != scheme2 ==> scheme1 + Separator + rest != scheme2 + Separator + rest
  {
    SchemeSuffixOfSchemeUrl(scheme1, rest);
    SchemeSuffixOfSchemeUrl(scheme2, rest);
    var url1, url2 := scheme1 + Separator + rest, scheme2 + Separator + rest;
    assert url1[..|scheme1|] == scheme1 && url2[..|scheme2|] == scheme2;
  }

  /** When the remainder holds no "://", the separator after the scheme is
      the last one in `scheme + "://" + rest`. */
  lemma {:induction false} NoSeparatorAfterScheme(scheme: string, rest: string)
    requires Find(rest, Separator) == -1
    ensures forall j :: |scheme| < j ==> !OccursAt(scheme + Separator + rest, Separator, j)
  {
    var key := scheme + Separator + rest;
    var n := |scheme|;
    forall j | n < j
      ensures !OccursAt(key, Separator, j)
    {
      if j == n + 1 || j == n + 2 {
        assert key[j] == '/';
        assert j + 3 <= |key| ==> key[j..j + 3][0] == key[j];
      } else if j + 3 <= |key| {
        var q := j - n - 3;
        assert key[j..j + 3] == rest[q..q + 3];
        assert !OccursAt(rest, Separator, q);
      }
    }
  }

  /** In `scheme + "://" + rest`, with no ':' in the scheme and no "://" in
      the remainder, the only "://" is the one right after the scheme. */
  lemma SeparatorOnlyAfterScheme(scheme: string, rest: string, p: int)
    requires ':' !in scheme && Find(rest, Separator) == -1
    requires OccursAt(scheme + Separator + rest, Separator, p)
    ensures p == |scheme|
  {
    FirstSeparatorAfterScheme(scheme, rest);
    NoSeparatorAfterScheme(scheme, rest);
  }

  /** For well-formed URLs (no ':' in either scheme, no "://" in the stored
      remainder) the key identifies the remainder exactly: a stored key
      matches iff the remainders are equal, so a different host or path is a
      different entity. */
  lemma {:induction false} SuffixMatchIffSameRemainder(scheme1: string, rest1: string, scheme2: string, rest2: string)
    requires ':' !in scheme1 && ':' !in scheme2
    requires Find(rest1, Separator) == -1
    ensures EndsWith(scheme1 + Separator + rest1, SchemeSuffix(scheme2 + Separator + rest2)) <==> rest1 == rest2
  {
    SchemeSuffixOfSchemeUrl(scheme2, rest2);
    var key := scheme1 + Separator + rest1;
    var suffix := Separator + rest2;
    if rest1 == rest2 {
      assert key[|scheme1|..] == suffix;
    }
    if EndsWith(key, suffix) {
      var p := |key| - |suffix|;
      assert key[p..p + 3] == suffix[..3];
      SeparatorOnlyAfterScheme(scheme1, rest1, p);
      assert key[p + 3..] == suffix[3..];
    }
  }

  /** Without "://" the key degenerates to the last character, so any key
      ending in that character matches; the empty URL matches every key. */
  lemma NoSeparatorMatchesLastChar(url: Url, key: Url)
    requires Find(url, Separator) == -1
    ensures |url| > 0 ==> (EndsWith(key, SchemeSuffix(url)) <==> |key| > 0 && key[|key| - 1] == url[|url| - 1])
    ensures |url| == 0 ==> EndsWith(key, SchemeSuffix(url))
  {
    if |url| > 0 && |key| > 0 && key[|key| - 1] == url[|url| - 1] {
      assert key[|key| - 1..] == [url[|url| - 1]];
    }
  }
}
