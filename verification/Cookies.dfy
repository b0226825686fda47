/** The cookie records of the server: what arrives, and what a jar stores. */
module Cookies {
  import opened Clock
  import opened Text
  import opened Matching

  /** The fields of Go's http.Cookie that the jar reads or returns. */
  datatype HttpCookie = HttpCookie(
    name: string, value: string, path: string, domain: string,
    expires: int, maxAge: int, secure: bool, httpOnly: bool, sameSite: int)

  /** A stored cookie. `expires` is ZERO_TIME and `maxAge` is 0 when unset. */
  datatype CookieEntry = CookieEntry(
    name: string, value: string, domain: string, path: string,
    expires: int, maxAge: int, secure: bool, httpOnly: bool, sameSite: int,
    created: int, hostOnly: bool)
  {
    predicate IsSession() {
      expires == ZERO_TIME && maxAge == 0
    }

    predicate IsExpired(now: int) {
      if IsSession() then false
      else if maxAge > 0 then Saturate64(now - created) > Wrap64(maxAge * SECOND)
      else expires != ZERO_TIME && now > expires
    }

    function ToHttp(): HttpCookie {
      HttpCookie(name, value, path, domain, expires, maxAge, secure, httpOnly, sameSite)
    }
  }

  const NUL: char := '\0'

  /** The inner key of a jar. */
  function EntryKey(name: string, path: string): string {
    name + [NUL] + path
  }

  lemma EntryKeyInjective(n1: string, p1: string, n2: string, p2: string)
    requires NUL !in n1 && NUL !in n2
    requires EntryKey(n1, p1) == EntryKey(n2, p2)
    ensures n1 == n2 && p1 == p2
  {
    CutInjective(n1, p1, n2, p2, NUL);
  }

  function PathOrRoot(path: string): string {
    if path == "" then "/" else path
  }

  /** The entry AddCookie builds from a cookie set by `requestHost` at time `now`. */
  function NewEntry(c: HttpCookie, requestHost: string, now: int): CookieEntry {
    CookieEntry(
      c.name, c.value,
      CanonicalDomain(if c.domain != "" then c.domain else requestHost),
      PathOrRoot(c.path),
      if c.maxAge == 0 then c.expires else ZERO_TIME,
      if c.maxAge > 0 then c.maxAge else 0,
      c.secure, c.httpOnly, c.sameSite, now, c.domain == "")
  }

  /** Expiry is final: nothing that has expired is live again later. */
  lemma ExpiredStaysExpired(e: CookieEntry, t1: int, t2: int)
    requires t1 <= t2 && e.IsExpired(t1)
    ensures e.IsExpired(t2)
  {
  }

  /**
    In plain fields: a cookie without any lifetime never expires, one with an expiry does right after
    it, and one with a Max-Age that fits right after that many seconds from when it was set.
   */
  lemma ExpiryInFields(e: CookieEntry, t: int)
    ensures e.expires == ZERO_TIME && e.maxAge <= 0 ==> !e.IsExpired(t)
    ensures e.expires != ZERO_TIME && e.maxAge <= 0 ==> (e.IsExpired(t) <==> t > e.expires)
    ensures 0 < e.maxAge <= LONGEST_MAX_AGE ==> (e.IsExpired(t) <==> t > e.created + e.maxAge * 1_000_000_000)
    ensures e.IsSession() <==> e.expires == ZERO_TIME && e.maxAge == 0
  {
    if 0 < e.maxAge <= LONGEST_MAX_AGE {
      assert Wrap64(e.maxAge * SECOND) == e.maxAge * SECOND;
    }
  }

  // The longest Max-Age whose number of nanoseconds fits 64 bits, almost three centuries.
  const LONGEST_MAX_AGE := 9_223_372_036

  // The cookie set at `now` lives for exactly its Max-Age.
  ghost predicate HonoursMaxAge(c: HttpCookie, host: string, now: int) {
    forall t: int :: NewEntry(c, host, now).IsExpired(t) <==> t - now > c.maxAge * SECOND
  }

  // The largest duration is odd, so no even product wraps to it.
  lemma EvenWrapsBelowMax(half: int)
    ensures Wrap64(2 * half) < INT64_MAX
  {
    var x := 2 * half - INT64_MIN;
    var q, r := x / 0x1_0000_0000_0000_0000, x % 0x1_0000_0000_0000_0000;
    assert x == q * 0x1_0000_0000_0000_0000 + r && 0 <= r <= 0xFFFF_FFFF_FFFF_FFFF;
    var s := q * 0x8000_0000_0000_0000;
    assert q * 0x1_0000_0000_0000_0000 == 2 * s;
    assert r == 2 * (half + 0x4000_0000_0000_0000 - s);
  }

  /**
    A positive Max-Age is honoured exactly up to LONGEST_MAX_AGE. Beyond it the product with one
    second wraps, and the cookie is gone before its time; it is dropped on arrival exactly when
    the product wraps to a negative duration.
   */
  lemma MaxAgeHonouredIff(c: HttpCookie, host: string, now: int)
    requires 0 < c.maxAge <= INT64_MAX
    ensures HonoursMaxAge(c, host, now) <==> c.maxAge <= LONGEST_MAX_AGE
    ensures c.maxAge > LONGEST_MAX_AGE ==> NewEntry(c, host, now).IsExpired(now + c.maxAge * SECOND)
    ensures NewEntry(c, host, now).IsExpired(now) <==> Wrap64(c.maxAge * SECOND) < 0
  {
    var life := c.maxAge * SECOND;
    if c.maxAge > LONGEST_MAX_AGE {
      assert life == 2 * (c.maxAge * (SECOND / 2));
      EvenWrapsBelowMax(c.maxAge * (SECOND / 2));
      assert Saturate64(now + life - now) == INT64_MAX;
      assert NewEntry(c, host, now).IsExpired(now + life);
    } else {
      assert Wrap64(life) == life;
    }
    assert Saturate64(now - now) == 0;
  }

  /** Two ways to lose a cookie: dropped on arrival, and gone within a second. */
  lemma MaxAgeCutShort(c: HttpCookie, host: string, now: int)
    ensures c.maxAge == 9_223_372_037 ==> NewEntry(c, host, now).IsExpired(now)
    ensures c.maxAge == 18_446_744_074 ==>
        !NewEntry(c, host, now).IsExpired(now) && NewEntry(c, host, now).IsExpired(now + SECOND)
  {
  }
}
