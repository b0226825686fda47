/**
  The header formats shared by the browser runtime and the server: the cookie entry of the
  Cifera-Cookie-Sync and Cifera-Cookie-Push headers, and the key list of Cifera-Cookie-Ack.
  JSON and base64 are taken as an injective encoding, so a header is the list it encodes.
 */
module Wire {
  import opened Clock
  import opened Text
  import opened Cookies

  // `e` is an expiry in Unix seconds, 0 for a session cookie, -1 for a deletion.
  datatype WireEntry = WireEntry(n: string, v: string, p: string, e: int, s: bool, h: bool)

  const TOMBSTONE := -1

  // ----- entries -----

  /** One entry of the sync header, as the server reads it. */
  function DecodeEntry(w: WireEntry): HttpCookie {
    HttpCookie(w.n, w.v, PathOrRoot(w.p), "",
      if w.e > 0 then w.e * SECOND else ZERO_TIME,
      if w.e == TOMBSTONE then -1 else 0,
      w.s, w.h, 0)
  }

  /** One entry of the push header, as the server writes it. */
  function EncodePush(c: HttpCookie): WireEntry {
    WireEntry(c.name, c.value, PathOrRoot(c.path),
      if c.maxAge < 0 then TOMBSTONE else if c.expires != ZERO_TIME then UnixSeconds(c.expires) else 0,
      c.secure, c.httpOnly)
  }

  /** One entry of the cookies injected into a page; these are never deletions. */
  function EncodeInjected(c: HttpCookie): WireEntry {
    WireEntry(c.name, c.value, PathOrRoot(c.path),
      if c.expires != ZERO_TIME then UnixSeconds(c.expires) else 0,
      c.secure, c.httpOnly)
  }

  function DecodeAll(ws: seq<WireEntry>): (cs: seq<HttpCookie>)
    ensures |cs| == |ws|
  {
    seq(|ws|, i requires 0 <= i < |ws| => DecodeEntry(ws[i]))
  }

  function EncodePushAll(cs: seq<HttpCookie>): seq<WireEntry> {
    seq(|cs|, i requires 0 <= i < |cs| => EncodePush(cs[i]))
  }

  method DecodeCookieSyncHeader(entries: seq<WireEntry>) returns (cookies: seq<HttpCookie>)
    ensures cookies == DecodeAll(entries)
  {
    cookies := [];
    for i := 0 to |entries|
      invariant cookies == DecodeAll(entries[..i])
    {
      var e := entries[i];
      var path, maxAge, expires := e.p, 0, ZERO_TIME;
      if path == "" {
        path := "/";
      }
      if e.e == TOMBSTONE {
        maxAge := -1;
      } else if e.e > 0 {
        expires := e.e * SECOND;
      }
      cookies := cookies + [HttpCookie(e.n, e.v, path, "", expires, maxAge, e.s, e.h, 0)];
    }
    assert entries[..|entries|] == entries;
  }

  method BuildCookiePushHeader(cookies: seq<HttpCookie>) returns (entries: seq<WireEntry>)
    ensures entries == EncodePushAll(cookies)
  {
    entries := [];
    for i := 0 to |cookies|
      invariant entries == EncodePushAll(cookies[..i])
    {
      var c := cookies[i];
      var entry := WireEntry(c.name, c.value, c.path, 0, c.secure, c.httpOnly);
      if entry.p == "" {
        entry := entry.(p := "/");
      }
      if c.maxAge < 0 {
        entry := entry.(e := TOMBSTONE);
      } else if c.expires != ZERO_TIME {
        entry := entry.(e := UnixSeconds(c.expires));
      }
      entries := entries + [entry];
    }
    assert cookies[..|cookies|] == cookies;
  }

  function EncodeInjectedAll(cs: seq<HttpCookie>): seq<WireEntry> {
    seq(|cs|, i requires 0 <= i < |cs| => EncodeInjected(cs[i]))
  }

  method BuildCookiesJson(cookies: seq<HttpCookie>) returns (entries: seq<WireEntry>)
    ensures entries == EncodeInjectedAll(cookies)
  {
    entries := [];
    for i := 0 to |cookies|
      invariant entries == EncodeInjectedAll(cookies[..i])
    {
      var c := cookies[i];
      var entry := WireEntry(c.name, c.value, c.path, 0, c.secure, c.httpOnly);
      if c.path == "" {
        entry := entry.(p := "/");
      }
      if c.expires != ZERO_TIME {
        entry := entry.(e := UnixSeconds(c.expires));
      }
      entries := entries + [entry];
    }
    assert cookies[..|cookies|] == cookies;
  }

  // What a faithful wire would hand to the other side: no domain or same-site attribute, the
  // path defaulted, any deletion as Max-Age -1, and whole seconds.
  function Normal(c: HttpCookie): HttpCookie {
    HttpCookie(c.name, c.value, PathOrRoot(c.path), "",
      if c.maxAge >= 0 && c.expires != ZERO_TIME then UnixSeconds(c.expires) * SECOND else ZERO_TIME,
      if c.maxAge < 0 then -1 else c.maxAge,
      c.secure, c.httpOnly, 0)
  }

  // The lifetimes the wire can carry: none, a deletion, or an expiry after the epoch.
  predicate Carried(c: HttpCookie) {
    || c.maxAge < 0
    || (c.maxAge == 0 && (UnixSeconds(c.expires) > 0 || UnixSeconds(c.expires) * SECOND == ZERO_TIME))
  }

  /**
    A cookie survives the push encoding exactly when its lifetime is one the wire can carry: a
    positive Max-Age is dropped, an expiry at or before the epoch turns into none, and an expiry
    in the last second before the epoch into a deletion.
   */
  lemma PushRoundTrip(c: HttpCookie)
    ensures DecodeEntry(EncodePush(c)) == Normal(c) <==> Carried(c)
    ensures c.maxAge == 0 && -SECOND <= c.expires < 0 ==> DecodeEntry(EncodePush(c)).maxAge == -1
  {
    assert UnixSeconds(ZERO_TIME) == -62135596800;
    if c.maxAge == 0 && -SECOND <= c.expires < 0 {
      assert c.expires != ZERO_TIME && UnixSeconds(c.expires) == -1;
    }
  }

  lemma PushRoundTripAll(cs: seq<HttpCookie>)
    requires forall c :: c in cs ==> Carried(c)
    ensures DecodeAll(EncodePushAll(cs)) == seq(|cs|, i requires 0 <= i < |cs| => Normal(cs[i]))
  {
    forall i | 0 <= i < |cs| ensures DecodeEntry(EncodePush(cs[i])) == Normal(cs[i]) {
      PushRoundTrip(cs[i]);
    }
  }

  /** Encoding again what was decoded gives the same entry exactly when no expiry before the epoch was on the wire. */
  lemma ReencodeStable(w: WireEntry)
    ensures EncodePush(DecodeEntry(w)) == w <==> w.p != "" && w.e >= TOMBSTONE
  {
    if w.e > 0 { assert UnixSeconds(w.e * SECOND) == w.e; }
  }

  // ----- acknowledgements -----

  // The key of a cookie on both sides of the wire.
  function CookieKey(name: string, path: string): string {
    name + "|" + PathOrRoot(path)
  }

  lemma CookieKeyInjective(n1: string, p1: string, n2: string, p2: string)
    requires '|' !in n1 && '|' !in n2
    requires CookieKey(n1, p1) == CookieKey(n2, p2)
    ensures n1 == n2 && PathOrRoot(p1) == PathOrRoot(p2)
  {
    CutInjective(n1, PathOrRoot(p1), n2, PathOrRoot(p2), '|');
  }

  function JoinAck(keys: seq<string>): string {
    Join(keys, ',')
  }

  function TrimAll(parts: seq<string>): seq<string> {
    if parts == [] then []
    else
      var head, rest := Trim(parts[0]), TrimAll(parts[1..]);
      if head == "" then rest else [head] + rest
  }

  // Split at commas, trim, and drop what is empty.
  function SplitAck(ack: string): seq<string> {
    TrimAll(Split(ack, ','))
  }

  // The keys an acknowledgement can carry.
  predicate Ackable(key: string) {
    key != "" && Trimmed(key) && ',' !in key
  }

  lemma {:induction false} TrimAllFixed(keys: seq<string>)
    requires forall k :: k in keys ==> Ackable(k)
    ensures TrimAll(keys) == keys
  {
    if keys != [] {
      assert keys[0] in keys;
      TrimmedFixed(keys[0]);
      TrimAllFixed(keys[1..]);
    }
  }

  lemma {:induction false} SplitPartsLackSep(s: string, sep: char)
    ensures forall p :: p in Split(s, sep) ==> sep !in p
  {
    if s != "" {
      SplitPartsLackSep(s[1..], sep);
      var rest := Split(s[1..], sep);
      assert rest[0] in rest;
    }
  }

  lemma {:induction false} TrimLeftPart(s: string)
    ensures var r := TrimLeft(s); (r != "" ==> !IsSpace(r[0])) && forall c :: c in r ==> c in s
    decreases |s|
  {
    if s != "" && IsSpace(s[0]) { TrimLeftPart(s[1..]); }
  }

  lemma {:induction false} TrimRightPart(s: string)
    ensures var r := TrimRight(s); r <= s && (r != "" ==> !IsSpace(r[|r| - 1]))
    decreases |s|
  {
    if s != "" && IsSpace(s[|s| - 1]) { TrimRightPart(s[..|s| - 1]); }
  }

  lemma TrimPart(s: string)
    ensures Trimmed(Trim(s)) && forall c :: c in Trim(s) ==> c in s
  {
    TrimLeftPart(s);
    TrimRightPart(TrimLeft(s));
  }

  lemma {:induction false} TrimAllAckable(parts: seq<string>)
    requires forall p :: p in parts ==> ',' !in p
    ensures forall k :: k in TrimAll(parts) ==> Ackable(k)
  {
    if parts != [] {
      assert parts[0] in parts;
      TrimPart(parts[0]);
      TrimAllAckable(parts[1..]);
    }
  }

  /**
    The browser reads back from an acknowledgement the keys the server put in, exactly when each
    of them is non-empty, free of commas and of outer blanks.
   */
  lemma AckRoundTrip(keys: seq<string>)
    ensures SplitAck(JoinAck(keys)) == keys <==> forall k :: k in keys ==> Ackable(k)
  {
    if forall k :: k in keys ==> Ackable(k) {
      if keys != [] {
        SplitJoin(keys, ',');
        TrimAllFixed(keys);
      }
    }
    SplitPartsLackSep(JoinAck(keys), ',');
    TrimAllAckable(Split(JoinAck(keys), ','));
  }

  /**
    Why the commas matter: acknowledging a cookie whose path contains one acknowledges two other
    keys, neither of which need ever have been sent.
   */
  lemma CommaAcksOthers(name: string, path: string, other: string)
    requires path != "" && Ackable(CookieKey(name, path)) && Ackable(other)
    ensures SplitAck(JoinAck([CookieKey(name, path + "," + other)])) == [CookieKey(name, path), other]
  {
    var sent, two := CookieKey(name, path + "," + other), [CookieKey(name, path), other];
    assert two[1..] == [other];
    assert Join([other], ',') == other;
    assert Join(two, ',') == two[0] + [','] + Join(two[1..], ',');
    assert sent == two[0] + "," + other;
    assert JoinAck([sent]) == sent;
    assert forall k :: k in two ==> Ackable(k);
    AckRoundTrip(two);
  }
}
