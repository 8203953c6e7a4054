/** Translation of the URL pattern a user typed into a declarativeNetRequest `urlFilter`
    (background.js, `convertToUrlFilter`). */
module UrlFilter {
  import opened Text

  /** A pattern the translation treats as already written in the engine's filter syntax:
      it holds the wildcard `*` or starts with the domain anchor `||`. */
  predicate IsUrlFilter(f: string) {
    '*' in f || StartsWith(f, "||")
  }

  /** True when `p` occurs in `s` starting at position `k`. */
  predicate OccursAt(p: string, s: string, k: int) {
    0 <= k && k + |p| <= |s| && s[k..k + |p|] == p
  }

  /** `convertToUrlFilter(pattern)`; an absent pattern is the empty string. The first case
      that applies wins: empty, already a filter, bare domain, full URL, anything else. */
  function ConvertToUrlFilter(pattern: string): (r: string)
    ensures r != ""
    ensures IsUrlFilter(r)
    ensures IsUrlFilter(pattern) ==> r == pattern
  {
    if pattern == "" then "*"
    else if IsUrlFilter(pattern) then pattern
    else if '/' !in pattern then "*://*." + pattern + "/*"
    else if StartsWith(pattern, "http://") || StartsWith(pattern, "https://") then pattern + "*"
    else "*://*" + pattern + "*"
  }

  /** The result is itself a filter, so translating it again leaves it alone. */
  lemma UrlFilterIdempotent(pattern: string)
    ensures ConvertToUrlFilter(ConvertToUrlFilter(pattern)) == ConvertToUrlFilter(pattern)
  {
  }

  /** The translation only ever adds wildcards and scheme/path decoration around what the
      user typed: the pattern always occurs, intact, in the filter. */
  lemma UrlFilterKeepsPattern(pattern: string)
    ensures exists k :: OccursAt(pattern, ConvertToUrlFilter(pattern), k)
  {
    var r := ConvertToUrlFilter(pattern);
    if pattern == "" || IsUrlFilter(pattern) {
      assert OccursAt(pattern, r, 0);
    } else if '/' !in pattern {
      assert r[6..6 + |pattern|] == pattern;
      assert OccursAt(pattern, r, 6);
    } else if StartsWith(pattern, "http://") || StartsWith(pattern, "https://") {
      assert r[0..|pattern|] == pattern;
      assert OccursAt(pattern, r, 0);
    } else {
      assert r[5..5 + |pattern|] == pattern;
      assert OccursAt(pattern, r, 5);
    }
  }

  /** A bare domain matches any scheme, any subdomain and any path. */
  lemma UrlFilterDomainExample()
    ensures ConvertToUrlFilter("a.io") == "*://*.a.io/*"
  {
    var p := "a.io";
    assert !IsUrlFilter(p) by {
      assert !StartsWith(p, "||") by { assert p[..2][0] != "||"[0]; }
      assert '*' !in p;
    }
    assert '/' !in p;
    assert ConvertToUrlFilter(p) == "*://*." + p + "/*";
  }

  /** A full URL becomes a prefix match. */
  lemma UrlFilterUrlExample()
    ensures ConvertToUrlFilter("https://a.io/p") == "https://a.io/p*"
  {
    var p := "https://a.io/p";
    assert !IsUrlFilter(p) by {
      assert !StartsWith(p, "||") by { assert p[..2][0] != "||"[0]; }
      assert '*' !in p;
    }
    assert p[6] == '/';
    assert StartsWith(p, "https://") by { assert p[..8] == "https://"; }
    assert ConvertToUrlFilter(p) == p + "*";
  }

  /** A path without a scheme matches wherever it occurs. */
  lemma UrlFilterPathExample()
    ensures ConvertToUrlFilter("a.io/p") == "*://*a.io/p*"
  {
    var p := "a.io/p";
    assert !IsUrlFilter(p) by {
      assert !StartsWith(p, "||") by { assert p[..2][0] != "||"[0]; }
      assert '*' !in p;
    }
    assert p[4] == '/';
    assert !StartsWith(p, "http://") && !StartsWith(p, "https://");
    assert ConvertToUrlFilter(p) == "*://*" + p + "*";
  }

  /** The order in which the cases are tried: a URL that already holds `*` is passed
      through, not extended. */
  lemma UrlFilterPassThroughExample()
    ensures ConvertToUrlFilter("https://a.io/*") == "https://a.io/*"
  {
    assert "https://a.io/*"[13] == '*';
  }
}
