/** The cookie block of the request handler: session, jar, Cookie header, and the sync header. */
module CookieHandler {
  import opened Text
  import opened Matching
  import opened Cookies
  import opened JarModel
  import opened Jar
  import opened Wire
  import opened SyncProtocol
  import opened SyncRound
  import opened Sessions
  import opened WriteBehind
  import opened Manager
  import opened Wrappers

  lemma ServeNext(f: FlatJar, site: Site, cookies: seq<HttpCookie>, times: seq<int>, victims: seq<Slot>, i: nat, victim: Slot)
    requires i < |cookies| == |times| && |victims| == i
    requires !Serve(f, site, cookies[..i], times[..i], victims).panicked
    ensures var before := Serve(f, site, cookies[..i], times[..i], victims);
            var r := AddTo(before.jar, cookies[i], site.host, times[i], site.maxSize, victim);
            Serve(f, site, cookies[..i + 1], times[..i + 1], victims + [victim]) ==
            (if r.outcome == Panicked then Served(r.jar, before.keys, true)
             else Served(r.jar, before.keys + [cookies[i].name + "|" + cookies[i].path], false))
  {
    hide AddTo;
    assert cookies[..i + 1][..i] == cookies[..i];
    assert times[..i + 1][..i] == times[..i];
    assert (victims + [victim])[..i] == victims;
  }

  lemma PickNext(f: FlatJar, site: Site, cookies: seq<HttpCookie>, times: seq<int>, victims: seq<Slot>, i: nat, victim: Slot)
    requires i < |cookies| == |times| && |victims| == i && Picked(f, site, cookies[..i], times[..i], victims)
    requires var before := Serve(f, site, cookies[..i], times[..i], victims);
        Evicts(before.jar, cookies[i], site.host, times[i], site.maxSize) ==> IsVictim(before.jar, victim)
    ensures Picked(f, site, cookies[..i + 1], times[..i + 1], victims + [victim])
  {
    hide AddTo, Evicts, IsVictim, Serve;
    assert cookies[..i + 1][..i] == cookies[..i];
    assert times[..i + 1][..i] == times[..i];
    assert (victims + [victim])[..i] == victims;
  }

  /** Applies the decoded entries in turn, each at its own time, and collects their keys for the acknowledgement. */
  method ApplySync(jar: Jar, cookies: seq<HttpCookie>, host: string, times: seq<int>)
      returns (keys: seq<string>, panicked: bool, ghost done: nat, ghost victims: seq<Slot>)
    requires jar.Valid() && |times| == |cookies|
    modifies jar
    ensures jar.Valid() && done <= |cookies| && |victims| == done
    ensures Served(jar.Flat(), keys, panicked)
         == Serve(old(jar.Flat()), Site(host, jar.maxSize), cookies[..done], times[..done], victims)
    ensures Picked(old(jar.Flat()), Site(host, jar.maxSize), cookies[..done], times[..done], victims)
    ensures !panicked ==> done == |cookies|
  {
    hide Jar.Flat, Serve, AddTo, Jar.Valid, Evicts, IsVictim, Picked;
    keys, panicked, done, victims := [], false, 0, [];
    ghost var f := jar.Flat();
    ghost var site := Site(host, jar.maxSize);
    ServeNone(f, site, cookies, times);
    for i := 0 to |cookies|
      invariant jar.Valid() && |victims| == i == done && !panicked
      invariant Served(jar.Flat(), keys, false) == Serve(f, site, cookies[..i], times[..i], victims)
      invariant Picked(f, site, cookies[..i], times[..i], victims)
    {
      var c := cookies[i];
      var outcome, victim := jar.AddCookie(c, host, times[i]);
      ServeNext(f, site, cookies, times, victims, i, victim);
      PickNext(f, site, cookies, times, victims, i, victim);
      victims, done := victims + [victim], i + 1;
      if outcome == Panicked {
        panicked := true;
        return;
      }
      keys := keys + [c.name + "|" + c.path];
    }
  }

  lemma ServeNone(f: FlatJar, site: Site, cookies: seq<HttpCookie>, times: seq<int>)
    ensures Serve(f, site, cookies[..0], times[..0], []) == Served(f, [], false)
    ensures Picked(f, site, cookies[..0], times[..0], [])
  {
  }

  // The Cookie header: every applicable cookie once, in the prescribed order, as it is stored.
  ghost predicate IsCookieHeader(header: seq<HttpCookie>, jar: FlatJar, host: string, path: string, now: int) {
    exists order :: Enumerates(order, Applicable(jar, host, path, now)) && Ordered(order) && ShowsAll(header, order)
  }

  lemma HeaderHas(header: seq<HttpCookie>, jar: FlatJar, host: string, path: string, now: int, e: CookieEntry) returns (i: nat)
    requires IsCookieHeader(header, jar, host, path, now) && e in Applicable(jar, host, path, now)
    ensures i < |header| && Shows(header[i], e)
  {
    hide Applicable, Ordered, Shows;
    var order :| Enumerates(order, Applicable(jar, host, path, now)) && Ordered(order) && ShowsAll(header, order);
    assert e in multiset(order);
    i :| i < |order| && order[i] == e;
  }

  /**
    What is set is sent: once a host has set a cookie for itself and it was stored, every Cookie
    header for that host under a path the cookie covers has it as it was set, at any time before it
    expires.
   */
  lemma SetCookieIsSent(f: FlatJar, c: HttpCookie, host: string, now: int, maxSize: int, victim: Slot, path: string, later: int,
      header: seq<HttpCookie>) returns (i: nat)
    requires AddTo(f, c, host, now, maxSize, victim).outcome == Stored
    requires c.domain == "" && CanonicalDomain(host) == ToLower(host)
    requires ServerPathMatch(path, if c.path == "" then "/" else c.path)
    requires !NewEntry(c, host, now).IsExpired(later)
    requires IsCookieHeader(header, AddTo(f, c, host, now, maxSize, victim).jar, host, path, later)
    ensures i < |header|
    ensures header[i].name == c.name && header[i].value == c.value && header[i].path == (if c.path == "" then "/" else c.path)
    ensures header[i].domain == ToLower(host)
    ensures header[i].secure == c.secure && header[i].httpOnly == c.httpOnly && header[i].sameSite == c.sameSite
    ensures header[i].maxAge == c.maxAge && (c.maxAge == 0 ==> header[i].expires == c.expires)
  {
    StoredCookieIsFound(f, c, host, now, maxSize, victim, path, later);
    hide AddTo, Applicable, IsCookieHeader;
    i := HeaderHas(header, AddTo(f, c, host, now, maxSize, victim).jar, host, path, later, NewEntry(c, host, now));
  }

  // What serving a sync header makes of a jar, for some choices the eviction could make.
  ghost predicate SyncResult(before: FlatJar, after: FlatJar, site: Site, entries: seq<WireEntry>, times: seq<int>, keys: seq<string>, panicked: bool)
    requires |times| == |entries|
  {
    exists done: nat, victims: seq<Slot> ::
      && done <= |entries| && |victims| == done && (!panicked ==> done == |entries|)
      && Served(after, keys, panicked) == Serve(before, site, DecodeAll(entries)[..done], times[..done], victims)
      && Picked(before, site, DecodeAll(entries)[..done], times[..done], victims)
  }

  /** Serving a sync header keeps a jar within its capacity, whatever the header holds. */
  lemma SyncKeepsBound(before: FlatJar, after: FlatJar, site: Site, entries: seq<WireEntry>, times: seq<int>, keys: seq<string>, panicked: bool)
    requires |times| == |entries| && SyncResult(before, after, site, entries, times, keys, panicked)
    requires |before| <= site.maxSize && Slotted(before)
    ensures |after| <= site.maxSize && Slotted(after)
  {
    hide Serve, Picked, DecodeAll, Slotted;
    var done: nat, victims: seq<Slot> :|
      && done <= |entries| && |victims| == done && (!panicked ==> done == |entries|)
      && Served(after, keys, panicked) == Serve(before, site, DecodeAll(entries)[..done], times[..done], victims)
      && Picked(before, site, DecodeAll(entries)[..done], times[..done], victims);
    ServeKeepsBound(before, site, DecodeAll(entries)[..done], times[..done], victims);
  }

  lemma SyncResultWitness(before: FlatJar, after: FlatJar, site: Site, entries: seq<WireEntry>, times: seq<int>, keys: seq<string>,
      panicked: bool, done: nat, victims: seq<Slot>)
    requires |times| == |entries| && done <= |entries| && |victims| == done && (!panicked ==> done == |entries|)
    requires Served(after, keys, panicked) == Serve(before, site, DecodeAll(entries)[..done], times[..done], victims)
    requires Picked(before, site, DecodeAll(entries)[..done], times[..done], victims)
    ensures SyncResult(before, after, site, entries, times, keys, panicked)
  {
    hide Serve, DecodeAll, Picked;
  }

  // ApplySync on one of the manager's jars: the others keep their contents.
  method SyncJar(m: Manager, jarKey: string, jar: Jar, cookies: seq<HttpCookie>, host: string, times: seq<int>)
      returns (keys: seq<string>, panicked: bool, ghost done: nat, ghost victims: seq<Slot>)
    requires m.ValidJars() && jarKey in m.jars && m.jars[jarKey] == jar && |times| == |cookies|
    modifies jar
    ensures m.ValidJars() && m.Flats() == old(m.Flats())[jarKey := jar.Flat()]
    ensures done <= |cookies| && |victims| == done && (!panicked ==> done == |cookies|)
    ensures Served(jar.Flat(), keys, panicked)
         == Serve(old(jar.Flat()), Site(host, jar.maxSize), cookies[..done], times[..done], victims)
    ensures Picked(old(jar.Flat()), Site(host, jar.maxSize), cookies[..done], times[..done], victims)
  {
    hide Jar.Flat, Jar.Valid, Serve, Picked;
    ghost var before := m.Flats();
    keys, panicked, done, victims := ApplySync(jar, cookies, host, times);
    forall k | k in m.jars && k != jarKey ensures m.jars[k].Flat() == before[k] && m.jars[k].Valid() {
      assert m.jars[k] != m.jars[jarKey];
    }
  }

  // Whether a snapshot that is offered gets into the queue.
  ghost predicate HasRoom(m: Manager)
    reads m`persistCh
  {
    m.persistent && |m.persistCh| < QUEUE_CAPACITY
  }

  // The sync part of the block: decode, apply, and offer a snapshot unless an addition panicked.
  method ServeSync(m: Manager, jarKey: string, jar: Jar, sync: Option<seq<WireEntry>>, host: string, times: seq<int>, kept: int)
      returns (keys: seq<string>, panicked: bool)
    requires m.ValidJars() && m.ValidQueue() && jarKey in m.jars && m.jars[jarKey] == jar
    requires |times| == |sync.GetOr([])|
    modifies m`persistCh, m`accepted, jar
    ensures m.ValidJars() && m.ValidQueue() && m.Flats() == old(m.Flats())[jarKey := jar.Flat()]
    ensures SyncResult(old(jar.Flat()), jar.Flat(), Site(host, jar.maxSize), sync.GetOr([]), times, keys, panicked)
    ensures if sync.Some? && !panicked && old(HasRoom(m))
            then Enqueued(old(m.persistCh), m.persistCh, old(m.accepted), m.accepted, jarKey, jar.Flat(), kept)
            else m.persistCh == old(m.persistCh) && m.accepted == old(m.accepted)
  {
    hide Jar.Flat, Jar.Valid, Serve, Picked, Replay, Persistent, SyncResult, DecodeAll, Enqueued;
    ghost var before := jar.Flat();
    keys, panicked := [], false;
    if sync.None? {
      assert m.Flats()[jarKey := jar.Flat()] == m.Flats();
      ServeNone(before, Site(host, jar.maxSize), DecodeAll([]), times);
      SyncResultWitness(before, before, Site(host, jar.maxSize), [], times, [], false, 0, []);
      return;
    }
    var cookies := DecodeCookieSyncHeader(sync.value);
    ghost var done, victims;
    keys, panicked, done, victims := SyncJar(m, jarKey, jar, cookies, host, times);
    SyncResultWitness(before, jar.Flat(), Site(host, jar.maxSize), sync.value, times, keys, panicked, done, victims);
    if !panicked {
      m.PersistJar(jarKey, jar, kept);
    }
  }

  function KeyFor(cookieSid: string, store: Option<(string, string) -> bool>, tid: string, tok: string, random: seq<Byte>): string
    requires |random| == 16
  {
    var (t, sid) := Bootstrap(cookieSid, store, tid, tok, random);
    t.JarKey(sid)
  }

  lemma KeyForIsNotEmpty(cookieSid: string, store: Option<(string, string) -> bool>, tid: string, tok: string, random: seq<Byte>)
    requires |random| == 16
    ensures KeyFor(cookieSid, store, tid, tok, random) != ""
  {
  }

  /**
    The key of a request is its tenant and its session, and nothing else of it: two requests share a
    jar exactly when both agree.
   */
  lemma SharedJarExactly(store: Option<(string, string) -> bool>, sid1: string, tid1: string, tok1: string, random1: seq<Byte>,
      sid2: string, tid2: string, tok2: string, random2: seq<Byte>)
    requires |random1| == 16 && |random2| == 16
    ensures var s1 := if IsValidSessionId(sid1) then sid1 else NewUuid(random1);
            var s2 := if IsValidSessionId(sid2) then sid2 else NewUuid(random2);
            var t1 := if store.Some? && tid1 != "" && store.value(tid1, tok1) then tid1 else s1;
            var t2 := if store.Some? && tid2 != "" && store.value(tid2, tok2) then tid2 else s2;
            && KeyFor(sid1, store, tid1, tok1, random1) == t1 + ":" + s1
            && (KeyFor(sid1, store, tid1, tok1, random1) == KeyFor(sid2, store, tid2, tok2, random2) <==> t1 == t2 && s1 == s2)
  {
    BootstrapSession(sid1, store, tid1, tok1, random1);
    BootstrapSession(sid2, store, tid2, tok2, random2);
    var (t1, s1) := Bootstrap(sid1, store, tid1, tok1, random1);
    var (t2, s2) := Bootstrap(sid2, store, tid2, tok2, random2);
    BootstrapFresh(sid1, store, tid1, tok1, random1);
    BootstrapFresh(sid2, store, tid2, tok2, random2);
    JarKeyInjective(t1, s1, t2, s2);
    hide Bootstrap, IsValidSessionId, NewUuid;
  }

  lemma BootstrapFresh(sid: string, store: Option<(string, string) -> bool>, tid: string, tok: string, random: seq<Byte>)
    requires |random| == 16
    ensures !IsValidSessionId(sid) ==> Bootstrap(sid, store, tid, tok, random).1 == NewUuid(random)
  {
    hide NewUuid, IsValidSessionId;
  }

  // The session's jar, and what it answers before the sync.
  method SessionCookies(m: Manager, jarKey: string, host: string, path: string, made: int, looked: int)
      returns (jar: Jar, header: seq<HttpCookie>)
    requires m.ValidJars() && jarKey != ""
    modifies m`jars
    ensures m.ValidJars() && jarKey in m.jars && m.jars[jarKey] == jar && (fresh(jar) || jar in old(m.jars.Values))
    ensures jar.Flat() == JarFor(old(m.Flats()), m.db, jarKey, made)
    ensures m.Flats() == old(m.Flats())[jarKey := jar.Flat()]
    ensures IsCookieHeader(header, jar.Flat(), host, path, looked)
  {
    hide Jar.Flat, JarFor, Applicable, Ordered, Enumerates, ShowsAll, WithoutExpired;
    var found, isNew := m.GetOrCreateJar(jarKey, made);
    jar := found;
    ghost var order;
    header, order := jar.CookiesFor(host, path, looked);
  }

  /**
    The block from session to acknowledgement keys, for a request whose target host is known. The
    Cookie header is the session's answer before the sync; then the session's own jar takes the
    sync entries, no other jar changes, and a snapshot of the jar is enqueued if there is room. The
    clock is read for making the jar, for the lookup, for each entry, and for the snapshot.
   */
  method CookieBlock(m: Manager, host: string, path: string, cookieSid: string,
      store: Option<(string, string) -> bool>, tid: string, tok: string, random: seq<Byte>,
      sync: Option<seq<WireEntry>>, made: int, looked: int, times: seq<int>, kept: int)
      returns (jarKey: string, header: seq<HttpCookie>, keys: seq<string>, panicked: bool, ghost after: FlatJar)
    requires |random| == 16 && m.ValidJars() && m.ValidQueue() && |times| == |sync.GetOr([])|
    modifies m`jars, m`persistCh, m`accepted, m.jars.Values
    ensures m.ValidJars() && m.ValidQueue()
    ensures jarKey == KeyFor(cookieSid, store, tid, tok, random)
    ensures IsCookieHeader(header, JarFor(old(m.Flats()), m.db, jarKey, made), host, path, looked)
    ensures SyncResult(JarFor(old(m.Flats()), m.db, jarKey, made), after, Site(host, m.maxPerJar), sync.GetOr([]), times, keys, panicked)
    ensures m.Flats() == old(m.Flats())[jarKey := after] && Slotted(after)
    ensures if sync.Some? && !panicked && old(HasRoom(m))
            then Enqueued(old(m.persistCh), m.persistCh, old(m.accepted), m.accepted, jarKey, after, kept)
            else m.persistCh == old(m.persistCh) && m.accepted == old(m.accepted)
  {
    hide Jar.Flat, Jar.Valid, JarFor, IsCookieHeader, SyncResult, Bootstrap, KeyFor, Manager.ValidQueue, Enqueued, Slotted;
    jarKey := KeyFor(cookieSid, store, tid, tok, random);
    KeyForIsNotEmpty(cookieSid, store, tid, tok, random);
    var jar;
    jar, header := SessionCookies(m, jarKey, host, path, made, looked);
    keys, panicked := ServeSync(m, jarKey, jar, sync, host, times, kept);
    after := jar.Flat();
    assert jar.Valid();
    ValidIsSlotted(jar);
  }

  lemma ValidIsSlotted(jar: Jar)
    requires jar.Valid()
    ensures Slotted(jar.Flat())
  {
  }

  /**
    The cookie part of processing an origin response: its cookies go into the jar in order and are
    pushed to the page, a snapshot of the jar is enqueued if there are any and there is room, and
    the keys of the request's sync header are acknowledged. An empty push or acknowledgement stands
    for an absent header.
   */
  method FinishResponse(m: Manager, jarKey: string, jar: Jar, setCookies: seq<HttpCookie>, syncKeys: seq<string>, host: string,
      times: seq<int>, kept: int)
      returns (push: seq<WireEntry>, ack: string, panicked: bool, ghost done: nat, ghost victims: seq<Slot>)
    requires m.ValidJars() && m.ValidQueue() && jarKey in m.jars && m.jars[jarKey] == jar && |times| == |setCookies|
    modifies m`persistCh, m`accepted, jar
    ensures m.ValidJars() && m.ValidQueue() && m.Flats() == old(m.Flats())[jarKey := jar.Flat()]
    ensures done <= |setCookies| && |victims| == done && (!panicked ==> done == |setCookies|)
    ensures var r := Serve(old(jar.Flat()), Site(host, jar.maxSize), setCookies[..done], times[..done], victims);
        jar.Flat() == r.jar && panicked == r.panicked
    ensures Picked(old(jar.Flat()), Site(host, jar.maxSize), setCookies[..done], times[..done], victims)
    ensures if setCookies != [] && !panicked && old(HasRoom(m))
            then Enqueued(old(m.persistCh), m.persistCh, old(m.accepted), m.accepted, jarKey, jar.Flat(), kept)
            else m.persistCh == old(m.persistCh) && m.accepted == old(m.accepted)
    ensures push == EncodePushAll(setCookies)
    ensures ack == JoinAck(syncKeys)
  {
    hide Jar.Flat, Jar.Valid, Serve, Picked, Replay, Persistent, EncodePushAll, Enqueued;
    ghost var keys;
    push := BuildCookiePushHeader(setCookies);
    keys, panicked, done, victims := SyncJar(m, jarKey, jar, setCookies, host, times);
    if setCookies != [] && !panicked {
      m.PersistJar(jarKey, jar, kept);
    }
    ack := JoinAck(syncKeys);
  }

  /**
    What a request leaves behind survives: when its snapshot was enqueued, no later one was for the
    same key, and the queue was drained at shutdown, the session gets from a restart the persistent
    part of what its jar would answer.
   */
  lemma RequestSurvivesRestart(base: Store, queue: seq<PersistTask>, queueAfter: seq<PersistTask>, accepted: seq<PersistTask>,
      acceptedAfter: seq<PersistTask>, later: seq<PersistTask>, jarKey: string, f: FlatJar, t1: int, t2: int, host: string, path: string, now: int)
    requires Enqueued(queue, queueAfter, accepted, acceptedAfter, jarKey, f, t1) && Slotted(f) && t1 <= t2 <= now
    requires forall i :: 0 <= i < |later| ==> later[i].jarKey != jarKey
    ensures Applicable(JarFor(map[], Replay(base, acceptedAfter + later), jarKey, t2), host, path, now)
         == set e | e in Applicable(f, host, path, now) && !e.IsSession()
  {
    hide Applicable, Persistent, Enumerates, JarFor, Replay, Slotted;
    var entries :| Enumerates(entries, Persistent(f, t1))
      && queueAfter == queue + [PersistTask(jarKey, entries)]
      && acceptedAfter == accepted + [PersistTask(jarKey, entries)];
    var all, i := acceptedAfter + later, |accepted|;
    assert all[i] == PersistTask(jarKey, entries);
    assert forall j :: i < j < |all| ==> all[j] == later[j - i - 1];
    RestartKeepsPersistent(base, all, i, f, t1, t2, host, path, now);
  }

  /** Sessions are isolated: a request of one tenant and session changes no other one's jar. */
  lemma SessionIsolation(flats: Flats, db: Store, t1: Tenant, s1: string, t2: Tenant, s2: string, jar: FlatJar, now: int)
    requires IsValidSessionId(s1) && IsValidSessionId(s2)
    requires t1.id != t2.id || s1 != s2
    ensures JarFor(flats[t1.JarKey(s1) := jar], db, t2.JarKey(s2), now) == JarFor(flats, db, t2.JarKey(s2), now)
  {
    JarKeyInjective(t1, s1, t2, s2);
  }
}
