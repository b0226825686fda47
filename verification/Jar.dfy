/**
  The per-session cookie jar: a map from domains to buckets, each bucket a map from inner keys
  to entries. Every operation is proved against the flat jar of JarModel.
 */
module Jar {
  import opened Text
  import opened Matching
  import opened Cookies
  import opened NestedMap
  import opened JarModel

  const DEFAULT_CAPACITY := 500

  // ----- sorting the matches -----

  // sort.SliceStable with the comparison of Before, as an insertion from the right.
  function Insert(q: seq<CookieEntry>, e: CookieEntry): seq<CookieEntry> {
    if q == [] then [e]
    else
      var last := q[|q| - 1];
      if Before(e, last) then Insert(q[..|q| - 1], e) + [last] else q + [e]
  }

  function StableSort(q: seq<CookieEntry>): seq<CookieEntry> {
    if q == [] then [] else Insert(StableSort(q[..|q| - 1]), q[|q| - 1])
  }

  lemma {:induction false} InsertPermutes(q: seq<CookieEntry>, e: CookieEntry)
    ensures multiset(Insert(q, e)) == multiset(q) + multiset{e}
  {
    if q != [] {
      InsertPermutes(q[..|q| - 1], e);
      assert q == q[..|q| - 1] + [q[|q| - 1]];
    }
  }

  lemma {:induction false} InsertKeepsOrder(q: seq<CookieEntry>, e: CookieEntry)
    requires Ordered(q)
    ensures Ordered(Insert(q, e))
  {
    if q != [] && Before(e, q[|q| - 1]) {
      var init, last := q[..|q| - 1], q[|q| - 1];
      InsertKeepsOrder(init, e);
      InsertPermutes(init, e);
      forall x | x in Insert(init, e) ensures !Before(last, x) {
        assert x in multiset(Insert(init, e));
      }
    }
  }

  lemma {:induction false} StableSortSorts(q: seq<CookieEntry>)
    ensures Ordered(StableSort(q)) && multiset(StableSort(q)) == multiset(q)
  {
    if q != [] {
      assert q == q[..|q| - 1] + [q[|q| - 1]];
      StableSortSorts(q[..|q| - 1]);
      InsertKeepsOrder(StableSort(q[..|q| - 1]), q[|q| - 1]);
      InsertPermutes(StableSort(q[..|q| - 1]), q[|q| - 1]);
    }
  }

  function ToHttpAll(q: seq<CookieEntry>): seq<HttpCookie> {
    seq(|q|, i requires 0 <= i < |q| => q[i].ToHttp())
  }

  // Cookie h shows exactly what is stored in entry e.
  ghost predicate Shows(h: HttpCookie, e: CookieEntry) {
    && h.name == e.name && h.value == e.value && h.path == e.path && h.domain == e.domain
    && h.expires == e.expires && h.maxAge == e.maxAge
    && h.secure == e.secure && h.httpOnly == e.httpOnly && h.sameSite == e.sameSite
  }

  ghost predicate ShowsAll(result: seq<HttpCookie>, order: seq<CookieEntry>) {
    |result| == |order| && forall i :: 0 <= i < |order| ==> Shows(result[i], order[i])
  }

  // ----- one more entry in a walk over the jar -----

  lemma VictimStep(f: FlatJar, s: Slot, e: CookieEntry, v: Slot)
    requires s !in f && (f != map[] ==> IsVictim(f, v))
    ensures f == map[] || Older(e, s.1, f[v], v.1) ==> IsVictim(f[s := e], s)
    ensures f != map[] && !Older(e, s.1, f[v], v.1) ==> IsVictim(f[s := e], v)
  {
    LessIrreflexive(s.1);
    if f != map[] && Older(e, s.1, f[v], v.1) {
      forall t | t in f ensures !Older(f[t], t.1, e, s.1) {
        if Less(t.1, s.1) && Less(s.1, v.1) { LessTransitive(t.1, s.1, v.1); }
      }
    }
  }

  lemma SlottedPart(f: FlatJar, s: Slot, e: CookieEntry)
    requires s !in f && Slotted(f[s := e])
    ensures Slotted(f) && SlotOf(e) == s
  {
    var g := f[s := e];
    assert g[s] == e;
    assert forall t :: t in f ==> t in g && g[t] == f[t];
  }

  lemma ApplicableStep(f: FlatJar, s: Slot, e: CookieEntry, host: string, path: string, now: int, q: seq<CookieEntry>)
    requires s !in f && Slotted(f[s := e])
    requires Enumerates(q, Applicable(f, host, path, now))
    ensures Enumerates(if Applies(s.0, e, ToLower(host), path, now) then q + [e] else q, Applicable(f[s := e], host, path, now))
  {
    SlottedPart(f, s, e);
    WhereStep(f, (t: Slot, x: CookieEntry) => Applies(t.0, x, ToLower(host), path, now), s, e);
    assert e !in Applicable(f, host, path, now);
    EnumerateStep(q, Applicable(f, host, path, now), e);
  }

  // A row whose domain does not match contributes nothing.
  lemma ApplicableSkip(b: Nested<string, string, CookieEntry>, todo: set<string>, d: string, host: string, path: string, now: int)
    requires d in todo && !DomainMatch(ToLower(host), d)
    ensures Applicable(Seen(b, todo - {d}), host, path, now) == Applicable(Seen(b, todo), host, path, now)
  {
    WhereSame(Seen(b, todo - {d}), Seen(b, todo), (s: Slot, e: CookieEntry) => Applies(s.0, e, ToLower(host), path, now));
  }

  lemma PersistentStep(f: FlatJar, s: Slot, e: CookieEntry, now: int, q: seq<CookieEntry>)
    requires s !in f && Slotted(f[s := e])
    requires Enumerates(q, Persistent(f, now))
    ensures Enumerates(if Lasts(e, now) then q + [e] else q, Persistent(f[s := e], now))
  {
    SlottedPart(f, s, e);
    WhereStep(f, (t: Slot, x: CookieEntry) => Lasts(x, now), s, e);
    assert e !in Persistent(f, now);
    EnumerateStep(q, Persistent(f, now), e);
  }

  lemma VictimIsOldestIfAny(f: FlatJar)
    ensures forall v :: IsVictim(f, v) ==> Oldest(f, v)
  {
    forall v | IsVictim(f, v) ensures Oldest(f, v) {
      VictimIsOldest(f, v);
    }
  }

  lemma SweptAll(f: FlatJar, now: int)
    ensures Keep(f, LiveAt(now), {}) == WithoutExpired(f, now)
    ensures Slotted(f) ==> Slotted(WithoutExpired(f, now))
  {
  }

  class Jar {
    var cookies: Nested<string, string, CookieEntry>
    const maxSize: int

    ghost function Flat(): FlatJar
      reads this
    {
      Flatten(cookies)
    }

    // No empty bucket, and every entry under its own domain and key.
    ghost predicate Valid()
      reads this
    {
      maxSize > 0 && NoEmpty(cookies) && Slotted(Flat())
    }

    constructor (capacity: int)
      ensures Valid() && Flat() == map[]
      ensures maxSize == if capacity <= 0 then 500 else capacity
    {
      maxSize := if capacity <= 0 then DEFAULT_CAPACITY else capacity;
      cookies := map[];
    }

    method RemoveEntry(domain: string, key: string)
      modifies this`cookies
      ensures cookies == Without(old(cookies), domain, key)
      ensures Flat() == old(Flat()) - {(domain, key)}
      ensures NoEmpty(old(cookies)) ==> NoEmpty(cookies)
      ensures Slotted(old(Flat())) ==> Slotted(Flat())
    {
      FlattenWithout(cookies, domain, key);
      if domain in cookies {
        var m := cookies[domain] - {key};
        if m == map[] {
          cookies := cookies - {domain};
        } else {
          cookies := cookies[domain := m];
        }
      }
    }

    method TotalCount() returns (count: nat)
      ensures count == |Flat()|
    {
      count := 0;
      var todo := cookies.Keys;
      ghost var rest := cookies;
      while todo != {}
        invariant todo <= cookies.Keys
        invariant rest.Keys == todo && forall d :: d in todo ==> rest[d] == cookies[d]
        invariant count + |Flatten(rest)| == |Flat()|
        decreases todo
      {
        var d :| d in todo;
        FlattenSplit(rest, d);
        count := count + |cookies[d]|;
        todo := todo - {d};
        rest := rest - {d};
      }
    }

    /** Finds an entry no other is older than, in whatever order the maps are walked. */
    method FindVictim() returns (victim: Slot)
      requires Flat() != map[]
      ensures IsVictim(Flat(), victim) && Oldest(Flat(), victim)
    {
      var found := false;
      victim := ("", "");
      var todo := cookies.Keys;
      SeenEnds(cookies);
      while todo != {}
        invariant todo <= cookies.Keys
        invariant found <==> Seen(cookies, todo) != map[]
        invariant found ==> IsVictim(Seen(cookies, todo), victim)
        decreases todo
      {
        var d :| d in todo;
        SeenSteps(cookies, todo, d);
        todo := todo - {d};
        var todoKeys := cookies[d].Keys;
        while todoKeys != {}
          invariant todoKeys <= cookies[d].Keys
          invariant found <==> SeenInRow(cookies, todo, d, todoKeys) != map[]
          invariant found ==> IsVictim(SeenInRow(cookies, todo, d, todoKeys), victim)
          decreases todoKeys
        {
          var k :| k in todoKeys;
          SeenInRowStep(cookies, todo, d, todoKeys, k);
          VictimStep(SeenInRow(cookies, todo, d, todoKeys), (d, k), cookies[d][k], victim);
          todoKeys := todoKeys - {k};
          if !found || Older(cookies[d][k], k, cookies[victim.0][victim.1], victim.1) {
            victim, found := (d, k), true;
          }
        }
      }
      VictimIsOldest(Flat(), victim);
    }

    /** Removes one victim when the jar is full. */
    method EvictIfNeeded() returns (ghost victim: Slot)
      requires maxSize > 0
      modifies this`cookies
      ensures |old(Flat())| < maxSize ==> cookies == old(cookies)
      ensures |old(Flat())| >= maxSize ==>
          && IsVictim(old(Flat()), victim) && Oldest(old(Flat()), victim)
          && cookies == Without(old(cookies), victim.0, victim.1)
          && Flat() == old(Flat()) - {victim}
    {
      victim := ("", "");
      var total := TotalCount();
      if total < maxSize {
        return;
      }
      var oldest := FindVictim();
      RemoveEntry(oldest.0, oldest.1);
      victim := oldest;
    }

    /**
      Adds, replaces or deletes a cookie. The result is that of AddTo for a victim the eviction
      could pick; a panic leaves the jar without the victim and without the new cookie.
     */
    method AddCookie(cookie: HttpCookie, requestHost: string, now: int) returns (outcome: AddOutcome, ghost victim: Slot)
      requires Valid()
      modifies this`cookies
      ensures Valid()
      ensures Evicts(old(Flat()), cookie, requestHost, now, maxSize) ==> IsVictim(old(Flat()), victim) && Oldest(old(Flat()), victim)
      ensures AddResult(Flat(), outcome) == AddTo(old(Flat()), cookie, requestHost, now, maxSize, victim)
    {
      victim := ("", "");
      ghost var f := Flat();
      var entry := NewEntry(cookie, requestHost, now);
      if cookie.maxAge < 0 {
        RemoveEntry(entry.domain, EntryKey(entry.name, entry.path));
        return Deleted, victim;
      }
      if entry.IsExpired(now) {
        return Ignored, victim;
      }
      VictimIsOldestIfAny(Flat());
      outcome, victim := Put(entry);
    }

    // j.cookies[domain][key] = entry, for a domain that has a bucket
    method Write(entry: CookieEntry)
      requires entry.domain in cookies
      modifies this`cookies
      ensures Flat() == old(Flat())[SlotOf(entry) := entry]
      ensures Slotted(old(Flat())) ==> Slotted(Flat())
      ensures (forall d :: d in old(cookies) && d != entry.domain ==> old(cookies)[d] != map[]) ==> NoEmpty(cookies)
    {
      var domain, key := entry.domain, EntryKey(entry.name, entry.path);
      FlattenWrite(cookies, domain, key, entry);
      cookies := cookies[domain := cookies[domain][key := entry]];
    }

    // Everything of AddCookie between building the entry and writing it.
    method MakeRoom(domain: string, key: string) returns (ghost victim: Slot)
      requires Valid()
      modifies this`cookies
      ensures Slotted(Flat()) && forall d :: d in cookies && d != domain ==> cookies[d] != map[]
      ensures (domain, key) in old(Flat()) || |old(Flat())| < maxSize ==> Flat() == old(Flat()) && domain in cookies
      ensures !((domain, key) in old(Flat()) || |old(Flat())| < maxSize) ==>
          && IsVictim(old(Flat()), victim)
          && Flat() == old(Flat()) - {victim}
          && (domain in cookies <==> !(victim.0 == domain && Alone(old(Flat()), victim)))
    {
      hide IsVictim, Alone;
      victim := ("", "");
      ghost var b := cookies;
      if domain !in cookies {
        cookies := cookies[domain := map[]];
      }
      FlattenTouch(b, domain);
      if key !in cookies[domain] {
        victim := EvictIfNeeded();
        if |Flatten(b)| >= maxSize {
          RemovalTakesRow(b, domain, victim);
        }
      }
    }

    /** The writing half of AddCookie: make the bucket, evict if the key is new, then write. */
    method Put(entry: CookieEntry) returns (outcome: AddOutcome, ghost victim: Slot)
      requires Valid()
      modifies this`cookies
      ensures Valid()
      ensures SlotOf(entry) !in old(Flat()) && |old(Flat())| >= maxSize ==> IsVictim(old(Flat()), victim)
      ensures AddResult(Flat(), outcome) == PutInto(old(Flat()), entry, maxSize, victim)
    {
      victim := MakeRoom(entry.domain, EntryKey(entry.name, entry.path));
      if entry.domain !in cookies {
        return Panicked, victim;
      }
      Write(entry);
      outcome := Stored;
    }

    /** Deletes by name; the answer is RemoveAnswer. */
    method RemoveCookie(name: string, domain: string, path: string) returns (count: nat)
      requires Valid()
      modifies this`cookies
      ensures Valid()
      ensures Flat() == RemoveNamed(old(Flat()), name, domain, path)
      ensures count == RemoveAnswer(old(Flat()), domain)
    {
      hide CanonicalDomain, ToLower, EntryKey, Slotted;
      var key := EntryKey(name, PathOrRoot(path));
      DomainsAreKeys();
      if domain != "" {
        var canonical := ToLower(CanonicalDomain(domain));
        if canonical !in cookies {
          assert Flat() - {(canonical, key)} == Flat();
          return 0;
        }
        RemoveEntry(canonical, key);
        return 1;
      }
      count := RemoveEverywhere(key);
    }

    method RemoveEverywhere(key: string) returns (count: nat)
      requires Valid()
      modifies this`cookies
      ensures Valid() && Flat() == DropKey(old(Flat()), key, {}) && count == |old(cookies).Keys|
    {
      ghost var b := cookies;
      count := 0;
      var todo := cookies.Keys;
      DropKeySteps(b, key, todo, "");
      while todo != {}
        invariant count + |todo| == |b.Keys|
        invariant NoEmpty(cookies) && Flat() == DropKey(Flatten(b), key, todo)
        decreases todo
      {
        var d :| d in todo;
        DropKeySteps(b, key, todo, d);
        RemoveEntry(d, key);
        todo := todo - {d};
        count := count + 1;
      }
    }

    lemma DomainsAreKeys()
      requires Valid()
      ensures Domains(Flat()) == cookies.Keys
    {
      forall d | d in cookies ensures d in Domains(Flat()) {
        var k :| k in cookies[d];
        assert (d, k) in Flat();
      }
    }

    /**
      The cookies for a request: every applicable entry once, longer paths first, then earlier
      times of the last write first. `order` lists the entries behind the answer, and each cookie of
      the answer shows what its entry stores.
     */
    method CookiesFor(host: string, path: string, now: int) returns (result: seq<HttpCookie>, ghost order: seq<CookieEntry>)
      requires Valid()
      ensures Enumerates(order, Applicable(Flat(), host, path, now))
      ensures Ordered(order) && ShowsAll(result, order)
    {
      var lower := ToLower(host);
      var matched: seq<CookieEntry> := [];
      var todo := cookies.Keys;
      SeenEnds(cookies);
      while todo != {}
        invariant todo <= cookies.Keys
        invariant Enumerates(matched, Applicable(Seen(cookies, todo), host, path, now))
        decreases todo
      {
        var d :| d in todo;
        if !DomainMatch(lower, d) {
          ApplicableSkip(cookies, todo, d, host, path, now);
          todo := todo - {d};
          continue;
        }
        SeenSteps(cookies, todo, d);
        todo := todo - {d};
        var todoKeys := cookies[d].Keys;
        while todoKeys != {}
          invariant todoKeys <= cookies[d].Keys
          invariant Enumerates(matched, Applicable(SeenInRow(cookies, todo, d, todoKeys), host, path, now))
          decreases todoKeys
        {
          var k :| k in todoKeys;
          var entry := cookies[d][k];
          SeenInRowStep(cookies, todo, d, todoKeys, k);
          ApplicableStep(SeenInRow(cookies, todo, d, todoKeys), (d, k), entry, host, path, now, matched);
          todoKeys := todoKeys - {k};
          if entry.hostOnly && lower != d {
            continue;
          }
          if entry.IsExpired(now) {
            continue;
          }
          if !ServerPathMatch(path, entry.path) {
            continue;
          }
          matched := matched + [entry];
        }
      }
      StableSortSorts(matched);
      order := StableSort(matched);
      result := ToHttpAll(StableSort(matched));
    }

    method RemoveExpired(now: int)
      requires Valid()
      modifies this`cookies
      ensures Valid() && Flat() == WithoutExpired(old(Flat()), now)
      ensures forall s :: s in Flat() <==> s in old(Flat()) && !old(Flat())[s].IsExpired(now)
    {
      ghost var b := cookies;
      ghost var live := LiveAt(now);
      var todo := cookies.Keys;
      KeepAll(b, live);
      SweptAll(Flat(), now);
      while todo != {}
        invariant todo <= b.Keys && NoEmpty(cookies)
        invariant SameRows(cookies, b, todo)
        invariant Flat() == Keep(Flatten(b), live, todo)
        decreases todo
      {
        var d :| d in todo;
        ghost var before := cookies;
        var m := cookies[d];
        var todoKeys := m.Keys;
        while todoKeys != {}
          invariant cookies == before && todoKeys <= m.Keys && m == KeepRow(b[d], live, todoKeys)
          decreases todoKeys
        {
          var k :| k in todoKeys;
          KeepRowStep(b[d], live, todoKeys, k);
          if m[k].IsExpired(now) {
            m := m - {k};
          }
          todoKeys := todoKeys - {k};
        }
        KeepStep(b, before, live, todo, d);
        todo := todo - {d};
        if m == map[] {
          cookies := cookies - {d};
        } else {
          cookies := cookies[d := m];
        }
        assert cookies == SetRow(before, d, m);
      }
    }

    /** Whether everything in the jar has expired; true of an empty jar. */
    method IsExpired(now: int) returns (expired: bool)
      ensures expired <==> WithoutExpired(Flat(), now) == map[]
    {
      var todo := cookies.Keys;
      SeenEnds(cookies);
      while todo != {}
        invariant todo <= cookies.Keys
        invariant WithoutExpired(Seen(cookies, todo), now) == map[]
        decreases todo
      {
        var d :| d in todo;
        SeenSteps(cookies, todo, d);
        todo := todo - {d};
        var todoKeys := cookies[d].Keys;
        while todoKeys != {}
          invariant todoKeys <= cookies[d].Keys
          invariant WithoutExpired(SeenInRow(cookies, todo, d, todoKeys), now) == map[]
          decreases todoKeys
        {
          var k :| k in todoKeys;
          if !cookies[d][k].IsExpired(now) {
            assert (d, k) in WithoutExpired(Flat(), now);
            return false;
          }
          SeenInRowStep(cookies, todo, d, todoKeys, k);
          todoKeys := todoKeys - {k};
        }
      }
      return true;
    }

    /** The snapshot that is persisted: every live non-session entry, once. */
    method AllCookies(now: int) returns (entries: seq<CookieEntry>)
      requires Valid()
      ensures Enumerates(entries, Persistent(Flat(), now))
    {
      entries := [];
      var todo := cookies.Keys;
      SeenEnds(cookies);
      while todo != {}
        invariant todo <= cookies.Keys
        invariant Enumerates(entries, Persistent(Seen(cookies, todo), now))
        decreases todo
      {
        var d :| d in todo;
        SeenSteps(cookies, todo, d);
        todo := todo - {d};
        var todoKeys := cookies[d].Keys;
        while todoKeys != {}
          invariant todoKeys <= cookies[d].Keys
          invariant Enumerates(entries, Persistent(SeenInRow(cookies, todo, d, todoKeys), now))
          decreases todoKeys
        {
          var k :| k in todoKeys;
          var entry := cookies[d][k];
          SeenInRowStep(cookies, todo, d, todoKeys, k);
          PersistentStep(SeenInRow(cookies, todo, d, todoKeys), (d, k), entry, now, entries);
          todoKeys := todoKeys - {k};
          if entry.IsExpired(now) {
            continue;
          }
          if entry.IsSession() {
            continue;
          }
          entries := entries + [entry];
        }
      }
    }

    method RestoreOne(entry: CookieEntry)
      requires Valid()
      modifies this`cookies
      ensures Valid() && Flat() == old(Flat())[SlotOf(entry) := entry]
    {
      FlattenTouch(cookies, entry.domain);
      if entry.domain !in cookies {
        cookies := cookies[entry.domain := map[]];
      }
      Write(entry);
    }

    method RestoreCookies(entries: seq<CookieEntry>, now: int)
      requires Valid()
      modifies this`cookies
      ensures Valid() && Flat() == RestoreInto(old(Flat()), entries, now)
    {
      for i := 0 to |entries|
        invariant Valid() && Flat() == RestoreInto(old(Flat()), entries[..i], now)
      {
        assert entries[..i + 1][..i] == entries[..i];
        if entries[i].IsExpired(now) {
          continue;
        }
        RestoreOne(entries[i]);
      }
      assert entries[..|entries|] == entries;
    }
  }
}
