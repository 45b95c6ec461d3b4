/** `normalizeDomain` of the server: turns what a landing page or an
    administrator sends as a domain into the key under which a phone number
    is filed. */
module Domain {
  import opened Wrappers
  import opened JsString

  /** `replace(/^https?:\/\//, "")`: removes one leading scheme. */
  function StripScheme(s: string): (r: string)
    ensures StartsWith(s, "http://") ==> s == "http://" + r
    ensures StartsWith(s, "https://") ==> s == "https://" + r
    ensures !StartsWith(s, "http://") && !StartsWith(s, "https://") ==> r == s
  {
    assert !(StartsWith(s, "http://") && StartsWith(s, "https://")) by {
      if StartsWith(s, "http://") {
        assert s[4] == "http://"[4] == ':';
      }
    }
    if StartsWith(s, "http://") then s[7..]
    else if StartsWith(s, "https://") then s[8..]
    else s
  }

  /** The steps of `normalizeDomain` before the cut at the first `/`:
      lower-case, trim, drop one scheme, drop one `www.`. */
  function HostAndPath(raw: Option<string>): string {
    StripPrefix(StripScheme(Trim(ToLowerCase(Coerce(raw)))), "www.")
  }

  /** `normalizeDomain(raw)`: the part before the first `/` of `HostAndPath`. */
  function NormalizeDomain(raw: Option<string>): string {
    Split(HostAndPath(raw), '/')[0]
  }

  /** A canonical domain: lower-case, no whitespace at either end, no scheme,
      no `www.` and no path. */
  predicate IsCanonicalDomain(d: string) {
    && NoUpper(d)
    && (d == [] || (!IsWhitespace(d[0]) && !IsWhitespace(d[|d| - 1])))
    && !StartsWith(d, "http://")
    && !StartsWith(d, "https://")
    && !StartsWith(d, "www.")
    && '/' !in d
  }

  /** An absent or empty field normalises to the empty domain. */
  lemma NormalizeDomainEmpty(raw: Option<string>)
    requires raw.None? || raw == Some("")
    ensures NormalizeDomain(raw) == ""
  {
  }

  /** The normalised domain holds no `/` and no upper-case letter, and it is a
      prefix of what remains after lower-casing, trimming and dropping the
      scheme and `www.`. */
  lemma NormalizeDomainShape(raw: Option<string>)
    ensures '/' !in NormalizeDomain(raw)
    ensures NoUpper(NormalizeDomain(raw))
    ensures NormalizeDomain(raw) <= HostAndPath(raw)
  {
    NoUpperHostAndPath(raw);
    var host := HostAndPath(raw);
    SplitFirstSpec(host, '/');
    NoUpperSlice(host, 0, |NormalizeDomain(raw)|);
    assert NormalizeDomain(raw) == host[0..|NormalizeDomain(raw)|];
  }

  lemma NoUpperHostAndPath(raw: Option<string>)
    ensures NoUpper(HostAndPath(raw))
  {
    var trimmed := Trim(ToLowerCase(Coerce(raw)));
    ToLowerCaseSpec(Coerce(raw));
    NoUpperTrim(ToLowerCase(Coerce(raw)));
    NoUpperStripScheme(trimmed);
    NoUpperStripPrefix(StripScheme(trimmed), "www.");
  }

  /** Removing the scheme keeps a string free of upper-case letters. */
  lemma NoUpperStripScheme(s: string)
    requires NoUpper(s)
    ensures NoUpper(StripScheme(s))
  {
    var r := StripScheme(s);
    NoUpperSlice(s, |s| - |r|, |s|);
    assert r == s[|s| - |r|..|s|];
  }

  /** The fixed points of `normalizeDomain` are exactly the canonical domains.
      A canonical domain normalises to itself; anything else is shortened or
      lower-cased on the way. */
  lemma NormalizeDomainFixedPoint(d: string)
    ensures NormalizeDomain(Some(d)) == d <==> IsCanonicalDomain(d)
  {
    if IsCanonicalDomain(d) {
      CanonicalIsFixed(d);
    }
    if NormalizeDomain(Some(d)) == d {
      FixedIsCanonical(d);
    }
  }

  lemma CanonicalIsFixed(d: string)
    requires IsCanonicalDomain(d)
    ensures NormalizeDomain(Some(d)) == d
  {
    CanonicalHostAndPath(d);
    SplitNoSeparator(d, '/');
  }

  /** None of the steps before the cut changes a canonical domain. */
  lemma CanonicalHostAndPath(d: string)
    requires IsCanonicalDomain(d)
    ensures HostAndPath(Some(d)) == d
  {
    assert ToLowerCase(d) == d by {
      ToLowerCaseNoUpper(d);
    }
    assert Trim(d) == d by {
      TrimClean(d);
    }
    assert StripScheme(d) == d;
  }

  lemma FixedIsCanonical(d: string)
    requires NormalizeDomain(Some(d)) == d
    ensures IsCanonicalDomain(d)
  {
    var lowered := ToLowerCase(d);
    var trimmed := Trim(lowered);
    var noScheme := StripScheme(trimmed);
    var host := StripPrefix(noScheme, "www.");
    assert host == HostAndPath(Some(d));
    NormalizeDomainShape(Some(d));
    assert |d| <= |host| <= |noScheme| <= |trimmed| <= |lowered| == |d|;
    TrimSameLength(lowered);
    assert trimmed == lowered;
    TrimEnds(lowered);
    assert !StartsWith(trimmed, "http://") && !StartsWith(trimmed, "https://");
    assert noScheme == trimmed;
    assert !StartsWith(noScheme, "www.");
    assert host == noScheme;
    assert d == lowered;
  }

  /** Lower-casing ignores the case of the input, so `normalizeDomain` does. */
  lemma NormalizeDomainIgnoresCase(raw: string)
    ensures NormalizeDomain(Some(raw)) == NormalizeDomain(Some(ToLowerCase(raw)))
  {
    ToLowerCaseIdempotent(raw);
  }

  /** White space at the end of the input never matters. */
  lemma NormalizeDomainIgnoresTrailingWhitespace(raw: string, c: char)
    requires IsWhitespace(c)
    ensures NormalizeDomain(Some(raw + [c])) == NormalizeDomain(Some(raw))
  {
    ToLowerCaseConcat(raw, [c]);
    assert ToLowerCase([c]) == [c];
    TrimAppendWhitespace(ToLowerCase(raw), c);
  }

  /** White space at the start of the input never matters either: the input
      is trimmed before the scheme and `www.` are looked for. */
  lemma NormalizeDomainIgnoresLeadingWhitespace(raw: string, c: char)
    requires IsWhitespace(c)
    ensures NormalizeDomain(Some([c] + raw)) == NormalizeDomain(Some(raw))
  {
    ToLowerCaseConcat([c], raw);
    assert ToLowerCase([c]) == [c];
    var l := [c] + ToLowerCase(raw);
    assert l[0] == c && l[1..] == ToLowerCase(raw);
    assert TrimStart(l) == TrimStart(ToLowerCase(raw));
  }

  /** What is left of a path (empty, or starting with `/`) after lower-casing
      and trimming. */
  function TrimmedPath(path: string): string {
    if path == [] then [] else ['/'] + TrimEnd(ToLowerCase(path[1..]))
  }

  /** Lower-casing and trimming a lower-case start `a` (no whitespace in
      front) followed by a path keeps `a` and trims only the path. */
  lemma LowerTrimUrl(a: string, path: string)
    requires a != [] && NoUpper(a) && !IsWhitespace(a[0])
    requires path == [] ==> !IsWhitespace(a[|a| - 1])
    requires path == [] || path[0] == '/'
    ensures Trim(ToLowerCase(a + path)) == a + TrimmedPath(path)
  {
    assert ToLowerCase(a + path) == a + ToLowerCase(path) by {
      ToLowerCaseNoUpper(a);
      ToLowerCaseConcat(a, path);
    }
    if path == [] {
      assert a + ToLowerCase(path) == a;
      TrimClean(a);
    } else {
      var p := path[1..];
      var a' := a + ['/'];
      var lp := ToLowerCase(p);
      assert a + ToLowerCase(path) == a' + lp by {
        assert path == ['/'] + p;
        ToLowerCaseConcat(['/'], p);
        assert ToLowerCase(['/']) == ['/'];
        AppendAssoc(a, ['/'], lp);
      }
      assert Trim(a' + lp) == a' + TrimEnd(lp) by {
        assert a'[0] == a[0];
        TrimStartFrom(a', lp);
        TrimEndAfter(a', lp);
      }
      AppendAssoc(a, ['/'], TrimEnd(lp));
    }
  }

  /** A string whose first `/` comes right after `host` starts with a prefix
      `p` whose first `/` is at index `k` only when `host` is exactly
      `p[..k]`. */
  lemma SchemeNotInHost(host: string, q: string, p: string, k: int)
    requires '/' !in host && (q == [] || q[0] == '/')
    requires 0 <= k < |p| && p[k] == '/' && '/' !in p[..k]
    ensures StartsWith(host + q, p) ==> host == p[..k]
  {
    var s := host + q;
    if StartsWith(s, p) {
      assert forall i :: 0 <= i < |host| ==> s[i] == host[i];
      assert q != [] ==> s[|host|] == '/';
      assert forall i :: 0 <= i < k ==> p[..k][i] == p[i];
      assert host == s[..k];
    }
  }

  /** The scheme in front of a host is removed, and with no scheme in front
      a host is kept unless it is `http:` or `https:` itself, the only hosts
      that, followed by a path `//...`, read as a scheme. */
  lemma StripSchemeUrl(scheme: string, host: string, q: string)
    requires scheme == "" || scheme == "http://" || scheme == "https://"
    requires '/' !in host && (q == [] || q[0] == '/')
    requires scheme == "" ==> host != "http:" && host != "https:"
    ensures StripScheme(scheme + (host + q)) == host + q
  {
    var rest := host + q;
    if scheme == "" {
      assert scheme + rest == rest;
      assert "http://"[..5] == "http:" && "https://"[..6] == "https:";
      SchemeNotInHost(host, q, "http://", 5);
      SchemeNotInHost(host, q, "https://", 6);
    } else {
      assert (scheme + rest)[..|scheme|] == scheme;
      assert (scheme + rest)[|scheme|..] == rest;
      if scheme == "https://" {
        assert (scheme + rest)[4] == 's';
      }
    }
  }

  lemma StripWwwUrl(host: string, q: string)
    requires q == [] || q[0] == '/'
    ensures StripPrefix(host + q, "www.") == StripPrefix(host, "www.") + q
  {
    if StartsWith(host, "www.") {
      assert (host + q)[..4] == host[..4];
      assert (host + q)[4..] == host[4..] + q;
    } else if q != [] {
      assert host + q == host + ['/'] + q[1..];
      StartsWithBefore(host, '/', q[1..], "www.");
    } else {
      assert host + q == host;
    }
  }

  lemma CutUrl(h: string, q: string)
    requires '/' !in h && (q == [] || q[0] == '/')
    ensures Split(h + q, '/')[0] == h
  {
    assert (h + q)[..|h|] == h;
    SplitFirst(h + q, '/', |h|);
  }

  /** Once lower-cased and trimmed, a URL loses its scheme, one `www.` and
      everything from the first `/` on. */
  lemma CutTrimmedUrl(scheme: string, host: string, q: string)
    requires scheme == "" || scheme == "http://" || scheme == "https://"
    requires '/' !in host && (q == [] || q[0] == '/')
    requires scheme == "" ==> host != "http:" && host != "https:"
    ensures Split(StripPrefix(StripScheme(scheme + (host + q)), "www."), '/')[0] == StripPrefix(host, "www.")
  {
    StripSchemeUrl(scheme, host, q);
    StripWwwUrl(host, q);
    var h := StripPrefix(host, "www.");
    assert h == host[|host| - |h|..];
    assert '/' !in h;
    CutUrl(h, q);
  }

  /** A URL made of an optional scheme, a host and an optional path
      normalises to the host without its leading `www.`, whatever the path. */
  lemma NormalizeDomainOfUrl(scheme: string, host: string, path: string)
    requires scheme == "" || scheme == "http://" || scheme == "https://"
    requires host != [] && NoUpper(host) && '/' !in host
    requires scheme == "" ==> !IsWhitespace(host[0]) && host != "http:" && host != "https:"
    requires path == [] ==> !IsWhitespace(host[|host| - 1])
    requires path == [] || path[0] == '/'
    ensures NormalizeDomain(Some(scheme + host + path)) == StripPrefix(host, "www.")
  {
    var a := scheme + host;
    var q := TrimmedPath(path);
    assert Trim(ToLowerCase(a + path)) == scheme + (host + q) by {
      UrlStart(scheme, host);
      LowerTrimUrl(a, path);
      AppendAssoc(scheme, host, q);
    }
    assert Split(StripPrefix(StripScheme(scheme + (host + q)), "www."), '/')[0] == StripPrefix(host, "www.") by {
      CutTrimmedUrl(scheme, host, q);
    }
  }

  /** A scheme followed by a host is lower-case, starts with no whitespace
      and ends where the host ends. */
  lemma UrlStart(scheme: string, host: string)
    requires scheme == "" || scheme == "http://" || scheme == "https://"
    requires host != [] && NoUpper(host)
    requires scheme == "" ==> !IsWhitespace(host[0])
    ensures NoUpper(scheme + host)
    ensures !IsWhitespace((scheme + host)[0])
    ensures (scheme + host)[|scheme + host| - 1] == host[|host| - 1]
  {
    NoUpperConcat(scheme, host);
    assert (scheme + host)[0] == if scheme == "" then host[0] else 'h';
  }

  /** A host with no scheme in front normalises to itself without its
      leading `www.`, whatever path follows. */
  lemma NormalizeDomainOfHost(host: string, path: string)
    requires host != [] && NoUpper(host) && '/' !in host
    requires !IsWhitespace(host[0]) && host != "http:" && host != "https:"
    requires path == [] ==> !IsWhitespace(host[|host| - 1])
    requires path == [] || path[0] == '/'
    ensures NormalizeDomain(Some(host + path)) == StripPrefix(host, "www.")
  {
    NormalizeDomainOfUrl("", host, path);
    assert "" + host == host;
  }

  /** Why the hosts `http:` and `https:` are excluded above: followed by a
      path `//...`, such a host reads as a scheme, and what follows it is
      taken as the host. */
  lemma NormalizeDomainSchemeLikeHost(h: string)
    requires h != [] && NoUpper(h) && '/' !in h && !IsWhitespace(h[|h| - 1])
    ensures NormalizeDomain(Some("http:" + ("//" + h))) == StripPrefix(h, "www.")
  {
    assert "http:" + ("//" + h) == "http://" + h + [];
    NormalizeDomainOfUrl("http://", h, []);
  }

  /** Exactly one `www.` is removed per pass: in front of a canonical domain
      one `www.` goes away, and of two the second survives, so a second pass
      changes the result of the first. */
  lemma NormalizeDomainStripsOneWww(d: string)
    requires IsCanonicalDomain(d)
    ensures NormalizeDomain(Some("www." + d)) == d
    ensures NormalizeDomain(Some("www." + ("www." + d))) == "www." + d
  {
    var h := "www." + d;
    assert NormalizeDomain(Some(h)) == d && NoUpper(h) && '/' !in h && !IsWhitespace(h[|h| - 1]) by {
      WwwHost(d);
    }
    WwwHost(h);
  }

  /** `www.` in front of a lower-case host without `/` and without trailing
      whitespace is removed, and the result is again such a host. */
  lemma WwwHost(h: string)
    requires NoUpper(h) && '/' !in h && (h == [] || !IsWhitespace(h[|h| - 1]))
    ensures NormalizeDomain(Some("www." + h)) == h
    ensures NoUpper("www." + h) && '/' !in "www." + h
    ensures !IsWhitespace(("www." + h)[|"www." + h| - 1])
  {
    var host := "www." + h;
    NoUpperConcat("www.", h);
    assert host[0] == 'w' && host[..4] == "www.";
    assert host != "http:" && host != "https:";
    assert host[|host| - 1] == if h == [] then '.' else h[|h| - 1];
    NormalizeDomainOfHost(host, "");
    assert host + "" == host;
    assert host[4..] == h;
  }

  /** White space between a domain and its path survives the first pass,
      because the path is cut off only after trimming, and is trimmed away by
      the second pass. */
  lemma NormalizeDomainSpaceBeforePath(d: string, path: string)
    requires IsCanonicalDomain(d) && d != []
    requires path != [] && path[0] == '/'
    ensures NormalizeDomain(Some(d + " " + path)) == d + " "
    ensures NormalizeDomain(Some(d + " ")) == d
  {
    var host := d + " ";
    NoUpperConcat(d, " ");
    assert host[0] == d[0] && host[|host| - 1] == ' ';
    assert host == d + [' '] + [];
    StartsWithBefore(d, ' ', [], "www.");
    NormalizeDomainOfHost(host, path);
    NormalizeDomainIgnoresTrailingWhitespace(d, ' ');
    CanonicalIsFixed(d);
  }

  /** `normalizeDomain` is not idempotent: `"www.www.a.com"` becomes
      `"www.a.com"`, which becomes `"a.com"`; `"a.com /x"` becomes `"a.com "`,
      which becomes `"a.com"`. */
  lemma NormalizeDomainNotIdempotent()
    ensures NormalizeDomain(Some("www.www.a.com")) == "www.a.com"
    ensures NormalizeDomain(Some("www.a.com")) == "a.com"
    ensures NormalizeDomain(Some("a.com /x")) == "a.com "
    ensures NormalizeDomain(Some("a.com ")) == "a.com"
  {
    ExampleDomain();
    NormalizeDomainStripsOneWww("a.com");
    NormalizeDomainSpaceBeforePath("a.com", "/x");
    ExampleSpellings();
  }

  lemma ExampleDomain()
    ensures IsCanonicalDomain("a.com")
  {
  }

  lemma ExampleSpellings()
    ensures "www." + "a.com" == "www.a.com"
    ensures "www." + ("www." + "a.com") == "www.www.a.com"
    ensures "a.com" + " " + "/x" == "a.com /x"
    ensures "a.com" + " " == "a.com "
  {
  }

  /** `"HTTPS://WWW.Example.com/path"` normalises to `"example.com"`. */
  lemma NormalizeDomainExample()
    ensures NormalizeDomain(Some("HTTPS://WWW.Example.com/path")) == "example.com"
  {
    var raw := "HTTPS://WWW.Example.com/path";
    var url := "https://" + "www.example.com" + "/path";
    assert NormalizeDomain(Some(raw)) == NormalizeDomain(Some(url)) by {
      ExampleLowerCase();
      NormalizeDomainIgnoresCase(raw);
    }
    ExampleHost();
    NormalizeDomainOfUrl("https://", "www.example.com", "/path");
  }

  lemma ExampleLowerCase()
    ensures ToLowerCase("HTTPS://WWW.Example.com/path") == "https://" + "www.example.com" + "/path"
  {
    ExampleSplit();
    ToLowerCaseConcat("HTTPS://" + "WWW.E", "xample.com/path");
    ToLowerCaseConcat("HTTPS://", "WWW.E");
    ExampleLowerScheme();
    ExampleLowerWww();
    ExampleLowerRest();
    ExampleJoin();
  }

  lemma ExampleSplit()
    ensures "HTTPS://WWW.Example.com/path" == "HTTPS://" + "WWW.E" + "xample.com/path"
  {
  }

  lemma ExampleJoin()
    ensures "https://" + "www.e" + "xample.com/path" == "https://" + "www.example.com" + "/path"
  {
  }

  lemma ExampleLowerScheme()
    ensures ToLowerCase("HTTPS://") == "https://"
  {
    ToLowerCaseSpec("HTTPS://");
  }

  lemma ExampleLowerWww()
    ensures ToLowerCase("WWW.E") == "www.e"
  {
    ToLowerCaseSpec("WWW.E");
  }

  lemma ExampleLowerRest()
    ensures ToLowerCase("xample.com/path") == "xample.com/path"
  {
    assert NoUpper("xample.com/path");
    ToLowerCaseNoUpper("xample.com/path");
  }

  lemma ExampleHost()
    ensures NoUpper("www.example.com") && '/' !in "www.example.com" && "/path"[0] == '/'
    ensures StripPrefix("www.example.com", "www.") == "example.com"
  {
  }
}
