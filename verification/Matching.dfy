/**
  Path and domain matching on both sides of the proxy, against the definitions of
  sections 5.1.3 and 5.1.4 of RFC 6265.
 */
module Matching {
  import opened Text

  // ----- path matching -----

  /** The server's matcher. */
  predicate ServerPathMatch(requestPath: string, cookiePath: string) {
    if requestPath == cookiePath then true
    else if cookiePath <= requestPath then
      cookiePath == "/" || (|requestPath| > |cookiePath| && requestPath[|cookiePath|] == '/')
    else false
  }

  /** The browser runtime's matcher; an index past the end reads as `undefined` there. */
  predicate BrowserPathMatch(requestPath: string, cookiePath: string) {
    if requestPath == cookiePath then true
    else if cookiePath <= requestPath then
      HasSuffix(cookiePath, "/") || (|cookiePath| < |requestPath| && requestPath[|cookiePath|] == '/')
    else false
  }

  /** Section 5.1.4 of RFC 6265, its three conditions in order. */
  ghost predicate RfcPathMatch(requestPath: string, cookiePath: string) {
    || requestPath == cookiePath
    || (exists rest :: requestPath == cookiePath + rest && cookiePath != "" && cookiePath[|cookiePath| - 1] == '/')
    || (exists rest :: requestPath == cookiePath + rest && rest != "" && rest[0] == '/')
  }

  // The requests on which the server is stricter than the RFC.
  predicate SlashPathGap(requestPath: string, cookiePath: string) {
    && cookiePath != "/"
    && HasSuffix(cookiePath, "/")
    && cookiePath < requestPath
    && requestPath[|cookiePath|] != '/'
  }

  lemma PrefixSplits(s: string, p: string)
    requires p <= s
    ensures s == p + s[|p|..]
  {
  }

  lemma BrowserPathMatchIsRfc(requestPath: string, cookiePath: string)
    ensures BrowserPathMatch(requestPath, cookiePath) <==> RfcPathMatch(requestPath, cookiePath)
  {
    if cookiePath <= requestPath {
      PrefixSplits(requestPath, cookiePath);
      var rest := requestPath[|cookiePath|..];
      if BrowserPathMatch(requestPath, cookiePath) && requestPath != cookiePath {
        assert requestPath == cookiePath + rest && rest != "";
      }
    }
  }

  /** The server accepts a subset of what the RFC accepts, and misses exactly `SlashPathGap`. */
  lemma ServerPathMatchIsRfcOutsideGap(requestPath: string, cookiePath: string)
    ensures ServerPathMatch(requestPath, cookiePath) ==> RfcPathMatch(requestPath, cookiePath)
    ensures (ServerPathMatch(requestPath, cookiePath) <==> RfcPathMatch(requestPath, cookiePath))
       <==> !SlashPathGap(requestPath, cookiePath)
  {
    BrowserPathMatchIsRfc(requestPath, cookiePath);
    if ServerPathMatch(requestPath, cookiePath) && cookiePath == "/" {
      assert HasSuffix(cookiePath, "/");
    }
    if SlashPathGap(requestPath, cookiePath) {
      assert BrowserPathMatch(requestPath, cookiePath);
    }
  }

  lemma ServerMissesSlashPath()
    ensures RfcPathMatch("/a/b", "/a/") && !ServerPathMatch("/a/b", "/a/")
  {
    ServerPathMatchIsRfcOutsideGap("/a/b", "/a/");
    assert "/a/b"[3] != '/';
    assert SlashPathGap("/a/b", "/a/");
  }

  lemma PathMatchPreorder(a: string, b: string, c: string)
    ensures ServerPathMatch(a, a) && BrowserPathMatch(a, a)
    ensures ServerPathMatch(a, b) && ServerPathMatch(b, c) ==> ServerPathMatch(a, c)
    ensures BrowserPathMatch(a, b) && BrowserPathMatch(b, c) ==> BrowserPathMatch(a, c)
  {
    if c <= b <= a {
      assert a[..|b|] == b && b[..|c|] == c;
      assert |c| < |b| ==> a[|c|] == b[|c|];
    }
  }

  // ----- domain matching -----

  function CanonicalDomain(domain: string): string {
    ToLower(TrimPrefix(Trim(domain), "."))
  }

  lemma TrimPrefixKeepsCase(s: string, t: string)
    requires EqualUpToCase(s, t)
    ensures EqualUpToCase(TrimPrefix(s, "."), TrimPrefix(t, "."))
  {
    if s != "" {
      assert SameLetter(s[0], t[0]);
      assert ("." <= s <==> s[0] == '.') && ("." <= t <==> t[0] == '.');
    }
  }

  lemma CanonicalIgnoresCase(a: string, b: string)
    requires EqualUpToCase(a, b)
    ensures CanonicalDomain(a) == CanonicalDomain(b)
  {
    hide EqualUpToCase, TrimPrefix, ToLower, TrimLeft, TrimRight;
    TrimLeftKeepsCase(a, b);
    TrimRightKeepsCase(TrimLeft(a), TrimLeft(b));
    TrimPrefixKeepsCase(Trim(a), Trim(b));
    LowerIsCaseBlind(TrimPrefix(Trim(a), "."), TrimPrefix(Trim(b), "."));
  }

  lemma CanonicalIgnoresDot(a: string)
    requires a != "" && Trimmed(a) && a[0] != '.'
    ensures CanonicalDomain("." + a) == CanonicalDomain(a) == ToLower(a)
  {
    TrimmedFixed(a);
    TrimmedFixed("." + a);
    hide Trim, ToLower;
    assert !("." <= a) && ("." + a)[1..] == a;
  }

  /**
    A canonical domain does not depend on the case of the letters, or on one leading dot.
   */
  lemma CanonicalDomainSpellings(a: string, b: string)
    ensures EqualUpToCase(a, b) ==> CanonicalDomain(a) == CanonicalDomain(b)
    ensures a != "" && Trimmed(a) && a[0] != '.' ==> CanonicalDomain("." + a) == CanonicalDomain(a) == ToLower(a)
  {
    if EqualUpToCase(a, b) { CanonicalIgnoresCase(a, b); }
    if a != "" && Trimmed(a) && a[0] != '.' { CanonicalIgnoresDot(a); }
  }

  predicate DomainMatch(host: string, cookieDomain: string) {
    if host == cookieDomain then true
    else if cookieDomain == "" then host == ""
    else
      var d := TrimPrefix(cookieDomain, ".");
      host == d || HasSuffix(host, "." + d)
  }

  /** Section 5.1.3 of RFC 6265; whether the host is an address is for the caller to say. */
  ghost predicate RfcDomainMatch(host: string, domain: string, hostIsAddress: bool) {
    || host == domain
    || (HasSuffix(host, domain) && |host| > |domain| && host[|host| - |domain| - 1] == '.' && !hostIsAddress)
  }

  // The hosts and stored domains on which the server and the RFC differ: below an empty domain the
  // RFC matches hosts with a trailing dot; otherwise the server also matches an address with a
  // dotted suffix of itself, and treats a leading dot as if it were not there.
  predicate DomainGap(host: string, domain: string, hostIsAddress: bool) {
    var rfcSuffix := HasSuffix(host, "." + domain) && !hostIsAddress;
    if domain == "" then rfcSuffix
    else
      var d := TrimPrefix(domain, ".");
      host != domain && !rfcSuffix && (host == d || HasSuffix(host, "." + d))
  }

  lemma DottedSuffix(host: string, domain: string)
    ensures HasSuffix(host, "." + domain)
       <==> HasSuffix(host, domain) && |host| > |domain| && host[|host| - |domain| - 1] == '.'
  {
    var dotted := "." + domain;
    if |host| >= |dotted| {
      var tail := host[|host| - |dotted|..];
      assert tail == [tail[0]] + tail[1..] && tail[1..] == host[|host| - |domain|..];
      assert tail[0] == host[|host| - |domain| - 1];
      if HasSuffix(host, dotted) { assert tail[0] == '.' && tail[1..] == domain; }
    }
  }

  /**
    For every host and stored domain, the server's matcher is the RFC's exactly outside DomainGap.
    For a non-empty domain without a leading dot that leaves addresses with a dotted suffix.
   */
  lemma DomainMatchIsRfcOutsideGap(host: string, domain: string, hostIsAddress: bool)
    ensures (DomainMatch(host, domain) <==> RfcDomainMatch(host, domain, hostIsAddress)) <==> !DomainGap(host, domain, hostIsAddress)
    ensures domain != "" && domain[0] != '.' ==>
        (DomainGap(host, domain, hostIsAddress) <==> hostIsAddress && HasSuffix(host, "." + domain))
  {
    DottedSuffix(host, domain);
    if domain != "" && domain[0] != '.' {
      assert !("." <= domain);
    }
    if domain != "" && domain[0] == '.' {
      assert "." <= domain && domain == "." + TrimPrefix(domain, ".");
    }
  }

  /** An address the server matches with the end of itself, although section 5.1.3 says it must not. */
  lemma AddressMatchesItsEnd()
    ensures DomainMatch("1.2.3.4", "3.4") && !RfcDomainMatch("1.2.3.4", "3.4", true)
  {
    var host, dotted := "1.2.3.4", "." + "3.4";
    assert host[|host| - |dotted|..] == dotted;
    DomainMatchIsRfcOutsideGap(host, "3.4", true);
  }
}
