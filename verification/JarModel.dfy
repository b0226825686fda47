/**
  A cookie jar as a flat map from slots to entries, the operations on it, and what they keep.
  The class in Jar.dfy is proved to compute these operations on its two-level map.
 */
module JarModel {
  import opened Clock
  import opened Text
  import opened Matching
  import opened Cookies
  import opened NestedMap

  // A slot is a domain together with the inner key of EntryKey.
  type Slot = (string, string)
  type FlatJar = map<Slot, CookieEntry>

  function SlotOf(e: CookieEntry): Slot {
    (e.domain, EntryKey(e.name, e.path))
  }

  // Every entry sits in its own slot.
  ghost predicate Slotted(f: FlatJar) {
    forall s :: s in f ==> SlotOf(f[s]) == s
  }

  // ----- eviction -----

  predicate Older(a: CookieEntry, aKey: string, b: CookieEntry, bKey: string) {
    a.created < b.created || (a.created == b.created && Less(aKey, bKey))
  }

  ghost predicate IsVictim(f: FlatJar, v: Slot) {
    v in f && forall s :: s in f ==> !Older(f[s], s.1, f[v], v.1)
  }

  // In plain fields: no entry was created before, and among those created at the same instant none
  // has the smaller key.
  ghost predicate Oldest(f: FlatJar, v: Slot) {
    v in f && forall s :: s in f ==>
      f[v].created < f[s].created || (f[v].created == f[s].created && (v.1 == s.1 || Less(v.1, s.1)))
  }

  lemma VictimIsOldest(f: FlatJar, v: Slot)
    ensures IsVictim(f, v) <==> Oldest(f, v)
  {
    forall s | s in f ensures v.1 == s.1 || Less(v.1, s.1) || Less(s.1, v.1) {
      LessIsLexicographic(v.1, s.1);
    }
    forall s | s in f && Less(s.1, v.1) ensures !Less(v.1, s.1) && v.1 != s.1 {
      if Less(v.1, s.1) { LessTransitive(v.1, s.1, v.1); }
      LessIrreflexive(v.1);
    }
  }

  // ----- adding a cookie -----

  datatype AddOutcome = Stored | Deleted | Ignored | Panicked

  datatype AddResult = AddResult(jar: FlatJar, outcome: AddOutcome)

  function SlotFor(c: HttpCookie, requestHost: string): Slot {
    SlotOf(NewEntry(c, requestHost, 0))
  }

  // Whether adding `c` has to evict: a live cookie for a new slot of a full jar.
  predicate Evicts(f: FlatJar, c: HttpCookie, requestHost: string, now: int, maxSize: int) {
    && c.maxAge >= 0
    && !NewEntry(c, requestHost, now).IsExpired(now)
    && SlotFor(c, requestHost) !in f
    && |f| >= maxSize
  }

  /**
    Writing an entry. `victim` is the slot the eviction loop picks; among entries that tie in
    creation time and inner key it is the map iteration that decides. When the victim is the only
    entry of the domain being written, its bucket goes with it and the write that follows hits a
    nil map.
   */
  ghost function PutInto(f: FlatJar, e: CookieEntry, maxSize: int, victim: Slot): AddResult {
    var slot := SlotOf(e);
    if slot in f || |f| < maxSize then AddResult(f[slot := e], Stored)
    else if victim.0 == slot.0 && Alone(f, victim) then AddResult(f - {victim}, Panicked)
    else AddResult((f - {victim})[slot := e], Stored)
  }

  /** AddCookie on the flat jar. */
  ghost function AddTo(f: FlatJar, c: HttpCookie, requestHost: string, now: int, maxSize: int, victim: Slot): AddResult {
    var e := NewEntry(c, requestHost, now);
    if c.maxAge < 0 then AddResult(f - {SlotOf(e)}, Deleted)
    else if e.IsExpired(now) then AddResult(f, Ignored)
    else PutInto(f, e, maxSize, victim)
  }

  lemma PutKeepsSlotted(f: FlatJar, e: CookieEntry, maxSize: int, victim: Slot)
    requires Slotted(f)
    ensures Slotted(PutInto(f, e, maxSize, victim).jar)
  {
  }

  lemma RemoveSize(f: FlatJar, v: Slot)
    ensures |f - {v}| == if v in f then |f| - 1 else |f|
  {
    assert (f - {v}).Keys == f.Keys - {v};
  }

  /** At capacity a new cookie takes the place of exactly one entry, one created first. */
  lemma EvictionTakesOneOldest(f: FlatJar, c: HttpCookie, host: string, now: int, maxSize: int, victim: Slot)
    requires Evicts(f, c, host, now, maxSize) && IsVictim(f, victim)
    ensures var r := AddTo(f, c, host, now, maxSize, victim);
            && f.Keys - r.jar.Keys == {victim}
            && r.jar.Keys - f.Keys == (if r.outcome.Stored? then {SlotFor(c, host)} else {})
            && |r.jar| == (if r.outcome.Stored? then |f| else |f| - 1)
            && (forall s :: s in f && s != victim ==> s in r.jar && r.jar[s] == f[s])
            && Oldest(f, victim)
  {
    VictimIsOldest(f, victim);
    var slot := SlotFor(c, host);
    RemoveSize(f, victim);
    assert (f - {victim}).Keys == f.Keys - {victim};
    var r := AddTo(f, c, host, now, maxSize, victim);
    if r.outcome.Stored? {
      assert r.jar.Keys == f.Keys - {victim} + {slot};
    }
  }

  /** AddCookie panics exactly when it evicts and the victim is alone under the domain being written. */
  lemma PanicsExactlyOnOwnLastEntry(f: FlatJar, c: HttpCookie, host: string, now: int, maxSize: int, victim: Slot)
    requires IsVictim(f, victim)
    ensures AddTo(f, c, host, now, maxSize, victim).outcome == Panicked
       <==> Evicts(f, c, host, now, maxSize) && victim.0 == SlotFor(c, host).0 && Alone(f, victim)
    ensures |f| == 1 && maxSize == 1 && Evicts(f, c, host, now, maxSize) && victim.0 == SlotFor(c, host).0
        ==> AddTo(f, c, host, now, maxSize, victim).outcome == Panicked
  {
    SubsetSize({victim}, f.Keys);
  }

  /** Only the slot written and the slot evicted can change, and a stored cookie reads back. */
  lemma AddFrame(f: FlatJar, c: HttpCookie, host: string, now: int, maxSize: int, victim: Slot)
    requires Evicts(f, c, host, now, maxSize) ==> victim in f
    ensures var r := AddTo(f, c, host, now, maxSize, victim);
            var slot := SlotFor(c, host);
            && (forall s :: s != slot && (s != victim || !Evicts(f, c, host, now, maxSize)) ==>
                  (s in r.jar <==> s in f) && (s in f ==> r.jar[s] == f[s]))
            && (r.outcome.Stored? ==> slot in r.jar && r.jar[slot] == NewEntry(c, host, now))
            && (r.outcome.Deleted? ==> slot !in r.jar)
            && (r.outcome.Ignored? ==> r.jar == f)
            && (r.outcome.Panicked? ==> slot !in r.jar)
            && (Slotted(f) ==> Slotted(r.jar))
  {
    if Slotted(f) { PutKeepsSlotted(f, NewEntry(c, host, now), maxSize, victim); }
  }

  // ----- removing by name, domain and path -----

  // Every domain that has an entry.
  ghost function Domains(f: FlatJar): set<string> {
    set s | s in f :: s.0
  }

  ghost function RemoveNamed(f: FlatJar, name: string, domain: string, path: string): FlatJar {
    var key := EntryKey(name, PathOrRoot(path));
    if domain != "" then f - {(ToLower(CanonicalDomain(domain)), key)}
    else map s | s in f && s.1 != key :: f[s]
  }

  // What RemoveCookie answers: it counts domains it looked at, not entries it deleted.
  ghost function RemoveAnswer(f: FlatJar, domain: string): nat {
    if domain != "" then
      if ToLower(CanonicalDomain(domain)) in Domains(f) then 1 else 0
    else |Domains(f)|
  }

  ghost function HoldersOf(f: FlatJar, key: string): set<string> {
    set s | s in f && s.1 == key :: s.0
  }

  // The domains RemoveCookie looks at.
  ghost function Looked(f: FlatJar, domain: string): set<string> {
    if domain == "" then Domains(f) else Domains(f) * {ToLower(CanonicalDomain(domain))}
  }

  /**
    RemoveCookie deletes one entry for every domain it looks at that holds the named cookie, so
    its answer is the number of entries deleted exactly when every one of them does.
   */
  lemma RemoveAnswerExact(f: FlatJar, name: string, domain: string, path: string)
    ensures var holders := HoldersOf(f, EntryKey(name, PathOrRoot(path)));
            var deleted := |f| - |RemoveNamed(f, name, domain, path)|;
            && deleted == |Looked(f, domain) * holders|
            && (RemoveAnswer(f, domain) == deleted <==> Looked(f, domain) <= holders)
  {
    var key := EntryKey(name, PathOrRoot(path));
    var looked, holders := Looked(f, domain), HoldersOf(f, key);
    if domain == "" {
      RemoveEverywhereSize(f, name, path);
      assert looked * holders == holders;
    } else {
      RemoveAtSize(f, name, domain, path);
    }
    SubsetSize(looked * holders, looked);
    assert looked <= holders <==> looked * holders == looked;
  }

  /**
    In plain fields: removed are exactly the entries with this name and path, in the domain given or,
    without one, in all.
   */
  lemma RemovesExactlyNamed(f: FlatJar, name: string, domain: string, path: string, s: Slot)
    requires Slotted(f) && s in f && NUL !in name && NUL !in f[s].name
    ensures var g := RemoveNamed(f, name, domain, path);
            && (s !in g <==>
                  && f[s].name == name && f[s].path == (if path == "" then "/" else path)
                  && (domain == "" || f[s].domain == ToLower(CanonicalDomain(domain))))
            && (s in g ==> g[s] == f[s]) && g.Keys <= f.Keys
  {
    hide CanonicalDomain, ToLower;
    assert s == SlotOf(f[s]);
    if EntryKey(f[s].name, f[s].path) == EntryKey(name, PathOrRoot(path)) {
      EntryKeyInjective(f[s].name, f[s].path, name, PathOrRoot(path));
    }
  }

  lemma RemoveAtSize(f: FlatJar, name: string, domain: string, path: string)
    requires domain != ""
    ensures |f| - |RemoveNamed(f, name, domain, path)| == |Looked(f, domain) * HoldersOf(f, EntryKey(name, PathOrRoot(path)))|
    ensures RemoveAnswer(f, domain) == |Looked(f, domain)|
  {
    var slot := (ToLower(CanonicalDomain(domain)), EntryKey(name, PathOrRoot(path)));
    RemoveSize(f, slot);
    assert Looked(f, domain) == if slot.0 in Domains(f) then {slot.0} else {};
    assert slot.0 in HoldersOf(f, slot.1) <==> slot in f;
    assert Looked(f, domain) * HoldersOf(f, slot.1) == if slot in f then {slot.0} else {};
  }

  lemma RemoveEverywhereSize(f: FlatJar, name: string, path: string)
    ensures |f| - |RemoveNamed(f, name, "", path)| == |HoldersOf(f, EntryKey(name, PathOrRoot(path)))|
  {
    var key := EntryKey(name, PathOrRoot(path));
    var g := RemoveNamed(f, name, "", path);
    var gone := set d | d in HoldersOf(f, key) :: (d, key);
    PairingSize(HoldersOf(f, key), key);
    assert g.Keys == f.Keys - gone;
    assert gone <= f.Keys;
    assert |f.Keys - gone| == |f.Keys| - |gone|;
  }

  lemma {:induction false} PairingSize(ds: set<string>, key: string)
    ensures |set d | d in ds :: (d, key)| == |ds|
  {
    if ds != {} {
      var d :| d in ds;
      PairingSize(ds - {d}, key);
      assert (set x | x in ds :: (x, key)) == (set x | x in ds - {d} :: (x, key)) + {(d, key)};
    }
  }

  lemma SubsetSize<T>(a: set<T>, b: set<T>)
    requires a <= b
    ensures |a| <= |b| && (|a| == |b| <==> a == b)
  {
    assert b == a + (b - a);
  }

  // ----- expiry -----

  ghost function WithoutExpired(f: FlatJar, now: int): FlatJar {
    map s | s in f && !f[s].IsExpired(now) :: f[s]
  }

  /** A sweep takes exactly what has expired, and leaves the rest as it was. */
  lemma SweepInFields(f: FlatJar, now: int)
    ensures var g := WithoutExpired(f, now);
            && (forall s :: s in g <==> s in f && !f[s].IsExpired(now)) && (forall s :: s in g ==> g[s] == f[s])
  {
  }

  // ----- lookup -----

  predicate Applies(domain: string, e: CookieEntry, host: string, path: string, now: int) {
    && DomainMatch(host, domain)
    && (e.hostOnly ==> host == domain)
    && !e.IsExpired(now)
    && ServerPathMatch(path, e.path)
  }

  // Section 5.4 of RFC 6265, step 1: the condition on domains, and all of its conditions.
  ghost predicate RfcDomainApplies(domain: string, e: CookieEntry, host: string, hostIsAddress: bool) {
    if e.hostOnly then host == domain else RfcDomainMatch(host, domain, hostIsAddress)
  }

  // What the section knows of a request and the jar does not.
  datatype Transport = Transport(hostIsAddress: bool, secure: bool)

  ghost predicate RfcApplies(domain: string, e: CookieEntry, host: string, path: string, now: int, t: Transport) {
    && RfcDomainApplies(domain, e, host, t.hostIsAddress)
    && RfcPathMatch(path, e.path)
    && (e.secure ==> t.secure)
    && !e.IsExpired(now)
  }

  // A secure-only cookie for a request that is not secure: the RFC never sends it, and the jar sends
  // it whenever its own matchers accept domain and path.
  predicate SecureGap(domain: string, e: CookieEntry, host: string, path: string, t: Transport) {
    e.secure && !t.secure && (if e.hostOnly then host == domain else DomainMatch(host, domain)) && ServerPathMatch(path, e.path)
  }

  // A live cookie on which jar and RFC differ: by the secure flag; or, where that lets it pass, by
  // the path gap if the RFC accepts the domain, or else by the domain gap.
  ghost predicate RetrievalGap(domain: string, e: CookieEntry, host: string, path: string, now: int, t: Transport) {
    && !e.IsExpired(now)
    && if e.secure && !t.secure then SecureGap(domain, e, host, path, t)
       else if SlashPathGap(path, e.path) then RfcDomainApplies(domain, e, host, t.hostIsAddress)
       else RfcPathMatch(path, e.path) && !e.hostOnly && DomainGap(host, domain, t.hostIsAddress)
  }

  /**
    For every request, to a name or an address, secure or not, and every stored domain, the jar
    retrieves a cookie exactly when the RFC does, outside the three gaps.
   */
  lemma AppliesIsRfcOutsideGaps(domain: string, e: CookieEntry, host: string, path: string, now: int, t: Transport)
    ensures (Applies(domain, e, host, path, now) <==> RfcApplies(domain, e, host, path, now, t))
       <==> !RetrievalGap(domain, e, host, path, now, t)
  {
    hide DomainMatch, RfcDomainMatch, ServerPathMatch, RfcPathMatch, SlashPathGap, DomainGap;
    DomainMatchIsRfcOutsideGap(host, domain, t.hostIsAddress);
    DomainMatchesItself(domain);
    ServerPathMatchIsRfcOutsideGap(path, e.path);
    GapIsRejected(path, e.path);
  }

  /** A secure session cookie, set by a host for its root, goes out on a plain request to it. */
  lemma SecureCookieGoesOutPlain(host: string, e: CookieEntry, now: int)
    requires e.secure && e.path == "/" && e.IsSession()
    ensures var plain := Transport(false, false);
            Applies(host, e, host, "/", now) && !RfcApplies(host, e, host, "/", now, plain) && RetrievalGap(host, e, host, "/", now, plain)
  {
    AppliesIsRfcOutsideGaps(host, e, host, "/", now, Transport(false, false));
  }

  lemma DomainMatchesItself(domain: string)
    ensures DomainMatch(domain, domain)
  {
  }

  lemma GapIsRejected(path: string, cookiePath: string)
    ensures SlashPathGap(path, cookiePath) ==> !ServerPathMatch(path, cookiePath)
  {
  }

  // The entries a request for `host` and `path` carries at time `now`.
  ghost function Applicable(f: FlatJar, host: string, path: string, now: int): set<CookieEntry> {
    Where(f, (s: Slot, e: CookieEntry) => Applies(s.0, e, ToLower(host), path, now))
  }

  // The order of the answer: longer paths first, then earlier times of the last write.
  predicate Before(a: CookieEntry, b: CookieEntry) {
    if |a.path| != |b.path| then |a.path| > |b.path| else a.created < b.created
  }

  ghost predicate Ordered(q: seq<CookieEntry>) {
    forall i, j :: 0 <= i < j < |q| ==> !Before(q[j], q[i])
  }

  ghost predicate Enumerates(q: seq<CookieEntry>, s: set<CookieEntry>) {
    multiset(q) == multiset(s)
  }

  // Path length and creation time, all that the order looks at.
  function Rank(e: CookieEntry): (nat, int) {
    (|e.path|, e.created)
  }

  function MapSeq<T, R>(f: T -> R, q: seq<T>): (r: seq<R>)
    ensures |r| == |q| && forall i :: 0 <= i < |q| ==> r[i] == f(q[i])
  {
    seq(|q|, i requires 0 <= i < |q| => f(q[i]))
  }

  lemma MultisetCancel<T>(x: T, a: multiset<T>, b: multiset<T>)
    requires multiset{x} + a == multiset{x} + b
    ensures a == b
  {
    assert a == (multiset{x} + a) - multiset{x} && b == (multiset{x} + b) - multiset{x};
  }

  // Taking one occurrence out of a permutation leaves a permutation.
  lemma PermutationRest<T>(a: seq<T>, b: seq<T>) returns (j: nat)
    requires a != [] && multiset(a) == multiset(b)
    ensures j < |b| && b[j] == a[0]
    ensures multiset(a[1..]) == multiset(b[..j] + b[j + 1..])
  {
    assert a[0] in multiset(b);
    j :| 0 <= j < |b| && b[j] == a[0];
    var rest := b[..j] + b[j + 1..];
    assert a == [a[0]] + a[1..] && b == b[..j] + [a[0]] + b[j + 1..];
    assert multiset(a) == multiset{a[0]} + multiset(a[1..]);
    assert multiset(b) == multiset{a[0]} + multiset(rest);
    MultisetCancel(a[0], multiset(a[1..]), multiset(rest));
  }

  lemma {:induction false} MapPermutation<T, R>(f: T -> R, a: seq<T>, b: seq<T>)
    requires multiset(a) == multiset(b)
    ensures multiset(MapSeq(f, a)) == multiset(MapSeq(f, b))
  {
    if a == [] {
      assert |multiset(b)| == 0;
    } else {
      var j := PermutationRest(a, b);
      var rest := b[..j] + b[j + 1..];
      MapPermutation(f, a[1..], rest);
      assert MapSeq(f, a) == [f(a[0])] + MapSeq(f, a[1..]);
      assert MapSeq(f, b) == MapSeq(f, b[..j]) + [f(a[0])] + MapSeq(f, b[j + 1..]);
      assert MapSeq(f, rest) == MapSeq(f, b[..j]) + MapSeq(f, b[j + 1..]);
    }
  }

  predicate RankBefore(r: (nat, int), t: (nat, int)) {
    if r.0 != t.0 then r.0 > t.0 else r.1 < t.1
  }

  lemma {:induction false} SortedRanksUnique(a: seq<(nat, int)>, b: seq<(nat, int)>)
    requires multiset(a) == multiset(b)
    requires forall i, j :: 0 <= i < j < |a| ==> !RankBefore(a[j], a[i])
    requires forall i, j :: 0 <= i < j < |b| ==> !RankBefore(b[j], b[i])
    ensures a == b
  {
    assert |a| == |multiset(a)| && |b| == |multiset(b)|;
    if a != [] {
      assert a[0] in multiset(b) && b[0] in multiset(a);
      assert a[0] == b[0];
      var s, t := a[1..], b[1..];
      assert a == [a[0]] + s && b == [b[0]] + t;
      assert multiset(a) == multiset{a[0]} + multiset(s) && multiset(b) == multiset{b[0]} + multiset(t);
      MultisetCancel(a[0], multiset(s), multiset(t));
      SortedRanksUnique(s, t);
    }
  }

  /**
    Two answers that enumerate the same entries in the prescribed order have entries of the same
    path length and creation time at every position: map iteration can only permute ties.
   */
  lemma OrderedAnswersAgree(a: seq<CookieEntry>, b: seq<CookieEntry>)
    requires multiset(a) == multiset(b) && Ordered(a) && Ordered(b)
    ensures |a| == |b| && forall i :: 0 <= i < |a| ==> |a[i].path| == |b[i].path| && a[i].created == b[i].created
  {
    var ra, rb := MapSeq(Rank, a), MapSeq(Rank, b);
    MapPermutation(Rank, a, b);
    SortedRanksUnique(ra, rb);
    assert forall i :: 0 <= i < |a| ==> ra[i] == Rank(a[i]) && rb[i] == Rank(b[i]);
  }

  /** Dropping what has expired is invisible to every lookup from then on. */
  lemma CleanupInvisible(f: FlatJar, cleaned: int, host: string, path: string, now: int)
    requires cleaned <= now
    ensures Applicable(WithoutExpired(f, cleaned), host, path, now) == Applicable(f, host, path, now)
  {
    var g := WithoutExpired(f, cleaned);
    var p := (s: Slot, e: CookieEntry) => Applies(s.0, e, ToLower(host), path, now);
    forall s | s in f && p(s, f[s]) ensures s in g && g[s] == f[s] {
      if f[s].IsExpired(cleaned) { ExpiredStaysExpired(f[s], cleaned, now); }
    }
    WhereSame(f, g, p);
  }

  /** A host-only cookie just stored for a host is found for it under every path it covers, until it expires. */
  lemma StoredCookieIsFound(f: FlatJar, c: HttpCookie, host: string, now: int, maxSize: int, victim: Slot, path: string, later: int)
    requires AddTo(f, c, host, now, maxSize, victim).outcome == Stored
    requires c.domain == "" && CanonicalDomain(host) == ToLower(host)
    requires ServerPathMatch(path, PathOrRoot(c.path)) && !NewEntry(c, host, now).IsExpired(later)
    ensures NewEntry(c, host, now) in Applicable(AddTo(f, c, host, now, maxSize, victim).jar, host, path, later)
  {
    var jar := AddTo(f, c, host, now, maxSize, victim).jar;
    var slot := SlotFor(c, host);
    assert slot in jar && jar[slot] == NewEntry(c, host, now);
    assert Applies(slot.0, jar[slot], ToLower(host), path, later);
  }

  /** Two spellings of a domain, or of a host, are one: case and a leading dot make no difference. */
  lemma SpellingsAreOne(f: FlatJar, c: HttpCookie, domain: string, setter: string, host: string, other: string, path: string, now: int)
    requires EqualUpToCase(host, other)
    ensures Applicable(f, host, path, now) == Applicable(f, other, path, now)
    ensures c.domain == "" ==> SlotFor(c, host) == SlotFor(c, other)
    ensures EqualUpToCase(c.domain, domain) ==> SlotFor(c, setter) == SlotFor(c.(domain := domain), setter)
    ensures c.domain != "" && Trimmed(c.domain) && c.domain[0] != '.' ==>
        SlotFor(c, setter) == SlotFor(c.(domain := "." + c.domain), setter) && SlotFor(c, setter).0 == ToLower(c.domain)
  {
    LowerIsCaseBlind(host, other);
    CanonicalDomainSpellings(host, other);
    CanonicalDomainSpellings(c.domain, domain);
    hide CanonicalDomain;
  }

  // ----- snapshot and restore -----

  predicate Lasts(e: CookieEntry, now: int) {
    !e.IsExpired(now) && !e.IsSession()
  }

  // What AllCookies returns, as a set.
  ghost function Persistent(f: FlatJar, now: int): set<CookieEntry> {
    Where(f, (s: Slot, e: CookieEntry) => Lasts(e, now))
  }

  function LiveAt(now: int): CookieEntry -> bool {
    (e: CookieEntry) => !e.IsExpired(now)
  }

  /** In plain fields: a snapshot has the entries that are neither expired nor without any lifetime. */
  lemma SnapshotInFields(f: FlatJar, now: int, e: CookieEntry)
    ensures e in Persistent(f, now) <==>
              (exists s :: s in f && f[s] == e) && !e.IsExpired(now) && !(e.expires == ZERO_TIME && e.maxAge == 0)
  {
  }

  // RestoreCookies: entries are written in order, expired ones skipped, with no capacity check.
  ghost function RestoreInto(f: FlatJar, entries: seq<CookieEntry>, now: int): FlatJar {
    InsertAll(f, SlotOf, LiveAt(now), entries)
  }

  /**
    Restoring at t2 the snapshot taken at t1 gives back exactly the non-session entries that are
    still unexpired at t2, whatever order the snapshot lists them in.
   */
  lemma SnapshotRestore(f: FlatJar, entries: seq<CookieEntry>, t1: int, t2: int)
    requires Slotted(f) && t1 <= t2 && Enumerates(entries, Persistent(f, t1))
    ensures RestoreInto(map[], entries, t2) == map s | s in f && Lasts(f[s], t2) :: f[s]
  {
    InsertEnumerated(f, SlotOf, (s: Slot, e: CookieEntry) => Lasts(e, t1), LiveAt(t2), entries);
    forall s | s in f && f[s].IsExpired(t1) ensures f[s].IsExpired(t2) {
      ExpiredStaysExpired(f[s], t1, t2);
    }
  }

  /** Every later lookup on the restored jar is the persistent part of the original's answer. */
  lemma RestoredLookup(f: FlatJar, entries: seq<CookieEntry>, t1: int, t2: int, host: string, path: string, t3: int)
    requires Slotted(f) && t1 <= t2 <= t3 && Enumerates(entries, Persistent(f, t1))
    ensures Applicable(RestoreInto(map[], entries, t2), host, path, t3)
         == set e | e in Applicable(f, host, path, t3) && !e.IsSession()
  {
    SnapshotRestore(f, entries, t1, t2);
    var g := RestoreInto(map[], entries, t2);
    forall e | e in Applicable(f, host, path, t3) && !e.IsSession() ensures e in Applicable(g, host, path, t3) {
      var s :| s in f && Applies(s.0, f[s], ToLower(host), path, t3) && f[s] == e;
      if e.IsExpired(t2) { ExpiredStaysExpired(e, t2, t3); }
      assert s in g && g[s] == e;
    }
    forall e | e in Applicable(g, host, path, t3) ensures e in Applicable(f, host, path, t3) && !e.IsSession() {
      var s :| s in g && Applies(s.0, g[s], ToLower(host), path, t3) && g[s] == e;
      assert s in f && f[s] == e;
    }
  }

  // ----- runs -----

  datatype JarOp =
    | Add(cookie: HttpCookie, host: string, now: int, victim: Slot)
    | Remove(name: string, domain: string, path: string)
    | DropExpired(now: int)

  // The victim recorded for an eviction is one the eviction loop could have picked.
  ghost predicate Possible(f: FlatJar, op: JarOp, maxSize: int) {
    op.Add? && Evicts(f, op.cookie, op.host, op.now, maxSize) ==> IsVictim(f, op.victim)
  }

  ghost function Do(f: FlatJar, op: JarOp, maxSize: int): FlatJar {
    match op
    case Add(c, host, now, victim) => AddTo(f, c, host, now, maxSize, victim).jar
    case Remove(name, domain, path) => RemoveNamed(f, name, domain, path)
    case DropExpired(now) => WithoutExpired(f, now)
  }

  // The jar after a possible run of operations from an empty jar.
  ghost predicate Reaches(ops: seq<JarOp>, maxSize: int, f: FlatJar)
    decreases |ops|
  {
    if ops == [] then f == map[]
    else
      var last := ops[|ops| - 1];
      exists g :: Reaches(ops[..|ops| - 1], maxSize, g) && Possible(g, last, maxSize) && f == Do(g, last, maxSize)
  }

  /** However it was built, a jar keeps every entry in its slot and never holds more than maxSize. */
  lemma {:induction false} ReachableJarsAreBounded(ops: seq<JarOp>, maxSize: int, f: FlatJar)
    requires maxSize > 0 && Reaches(ops, maxSize, f)
    ensures Slotted(f) && |f| <= maxSize
    decreases |ops|
  {
    if ops != [] {
      var init, last := ops[..|ops| - 1], ops[|ops| - 1];
      var g :| Reaches(init, maxSize, g) && Possible(g, last, maxSize) && f == Do(g, last, maxSize);
      ReachableJarsAreBounded(init, maxSize, g);
      match last
      case Add(c, host, now, victim) =>
        AddFrame(g, c, host, now, maxSize, victim);
        AddKeepsBound(g, c, host, now, maxSize, victim);
      case Remove(_, _, _) => SubsetSize(f.Keys, g.Keys);
      case DropExpired(_) => SubsetSize(f.Keys, g.Keys);
    }
  }

  lemma AddKeepsBound(f: FlatJar, c: HttpCookie, host: string, now: int, maxSize: int, victim: Slot)
    requires |f| <= maxSize
    requires Evicts(f, c, host, now, maxSize) ==> IsVictim(f, victim)
    ensures |AddTo(f, c, host, now, maxSize, victim).jar| <= maxSize
  {
    var r := AddTo(f, c, host, now, maxSize, victim);
    var slot := SlotFor(c, host);
    if Evicts(f, c, host, now, maxSize) {
      EvictionTakesOneOldest(f, c, host, now, maxSize, victim);
    } else {
      RemoveSize(f, slot);
      assert r.outcome.Stored? ==> r.jar.Keys == f.Keys + {slot};
    }
  }

  // The slots whose entries a snapshot takes and a restore at `now` keeps.
  ghost function LastingSlots(f: FlatJar, now: int): set<Slot> {
    set s | s in f && Lasts(f[s], now)
  }

  /**
    Restoring does not look at the capacity: the restored jar holds as many entries as the original
    has lasting ones, so it is over a capacity exactly when they are, and never over one that
    bounded the original.
   */
  lemma SnapshotRestoreSize(f: FlatJar, entries: seq<CookieEntry>, t1: int, t2: int, maxSize: int)
    requires Slotted(f) && t1 <= t2 && Enumerates(entries, Persistent(f, t1))
    ensures |RestoreInto(map[], entries, t2)| == |LastingSlots(f, t2)|
    ensures |RestoreInto(map[], entries, t2)| > maxSize <==> |LastingSlots(f, t2)| > maxSize
    ensures |f| <= maxSize ==> |RestoreInto(map[], entries, t2)| <= maxSize
  {
    hide Persistent, RestoreInto;
    SnapshotRestore(f, entries, t1, t2);
    var g := RestoreInto(map[], entries, t2);
    assert g.Keys == LastingSlots(f, t2);
    SubsetSize(g.Keys, f.Keys);
  }

  // ----- a full jar whose oldest entry is alone -----

  // A cookie that expires 10 nanoseconds after the epoch.
  function Brief(name: string): HttpCookie {
    HttpCookie(name, "", "/", "", 10, 0, false, false, 0)
  }

  const FIRST := "k"

  // One cookie of host x, set first; all others are of host y.
  ghost predicate OneOfX(f: FlatJar, x: string, y: string, n: nat) {
    var first := SlotFor(Brief(FIRST), x);
    && first in f && f[first].created == 0 && |f| == n
    && (forall s :: s in f && s != first ==> s.0 == CanonicalDomain(y) && f[s].created == 1 && |s.1| < n + 2)
    && (forall s :: s in f ==> f[s].expires == 10 && f[s].maxAge == 0)
  }

  lemma ReachesMore(ops: seq<JarOp>, maxSize: int, g: FlatJar, op: JarOp)
    requires Reaches(ops, maxSize, g) && Possible(g, op, maxSize)
    ensures Reaches(ops + [op], maxSize, Do(g, op, maxSize))
  {
    hide Possible, Do;
    var all := ops + [op];
    assert all[..|all| - 1] == ops && all[|all| - 1] == op;
  }

  lemma AddBrief(f: FlatJar, name: string, host: string, now: int, maxSize: int)
    requires now <= 10 && |f| < maxSize && SlotFor(Brief(name), host) !in f
    ensures var op := Add(Brief(name), host, now, ("", ""));
            var slot := (CanonicalDomain(host), EntryKey(name, "/"));
            && SlotFor(Brief(name), host) == slot && Possible(f, op, maxSize)
            && Do(f, op, maxSize) == f[slot := NewEntry(Brief(name), host, now)]
            && |Do(f, op, maxSize)| == |f| + 1
  {
    var g, slot := Do(f, Add(Brief(name), host, now, ("", "")), maxSize), SlotFor(Brief(name), host);
    assert g.Keys == f.Keys + {slot};
  }

  lemma {:induction false} FillJar(x: string, y: string, n: nat, maxSize: int) returns (ops: seq<JarOp>, f: FlatJar)
    requires 1 <= n <= maxSize && CanonicalDomain(x) != CanonicalDomain(y)
    ensures Reaches(ops, maxSize, f) && OneOfX(f, x, y, n)
  {
    hide CanonicalDomain, Reaches, Possible, Do;
    if n == 1 {
      assert Reaches([], maxSize, map[]) by { NothingReaches(maxSize); }
      var op := Add(Brief(FIRST), x, 0, ("", ""));
      AddBrief(map[], FIRST, x, 0, maxSize);
      ReachesMore([], maxSize, map[], op);
      ops, f := [] + [op], Do(map[], op, maxSize);
    } else {
      var init, g := FillJar(x, y, n - 1, maxSize);
      var name := seq(n - 1, i => 'n');
      var op := Add(Brief(name), y, 1, ("", ""));
      assert SlotFor(Brief(name), y) == (CanonicalDomain(y), EntryKey(name, "/"));
      AddBrief(g, name, y, 1, maxSize);
      ReachesMore(init, maxSize, g, op);
      ops, f := init + [op], Do(g, op, maxSize);
    }
  }

  lemma NothingReaches(maxSize: int)
    ensures Reaches([], maxSize, map[])
  {
  }

  /**
    The panic can happen at every capacity: set a cookie for one host, fill the jar with cookies of
    another, and set one more for the first host.
   */
  lemma PanicIsReachable(x: string, y: string, maxSize: int) returns (ops: seq<JarOp>, f: FlatJar, op: JarOp)
    requires maxSize > 0 && CanonicalDomain(x) != CanonicalDomain(y)
    ensures Reaches(ops, maxSize, f) && Possible(f, op, maxSize) && op.Add? && op.cookie.domain == "" && op.host == x
    ensures AddTo(f, op.cookie, op.host, op.now, maxSize, op.victim).outcome == Panicked
  {
    hide CanonicalDomain, Reaches;
    ops, f := FillJar(x, y, maxSize, maxSize);
    var first := SlotFor(Brief(FIRST), x);
    op := Add(Brief("z"), x, 1, first);
    assert EntryKey("z", "/")[0] == 'z' && EntryKey(FIRST, "/")[0] == 'k';
    assert IsVictim(f, first) by { LessIrreflexive(first.1); }
    assert Alone(f, first);
    PanicsExactlyOnOwnLastEntry(f, op.cookie, x, 1, maxSize, first);
  }

  /** A jar filled under one capacity is restored whole under a smaller one. */
  lemma RestoreCanOverfill(x: string, y: string, maxSize: int) returns (ops: seq<JarOp>, f: FlatJar)
    requires maxSize > 0 && CanonicalDomain(x) != CanonicalDomain(y)
    ensures Reaches(ops, maxSize + 1, f)
    ensures forall entries :: Enumerates(entries, Persistent(f, 1)) ==> |RestoreInto(map[], entries, 1)| > maxSize
  {
    hide CanonicalDomain, Reaches, RestoreInto, Persistent, Enumerates;
    ops, f := FillJar(x, y, maxSize + 1, maxSize + 1);
    ReachableJarsAreBounded(ops, maxSize + 1, f);
    assert LastingSlots(f, 1) == f.Keys;
    forall entries | Enumerates(entries, Persistent(f, 1)) ensures |RestoreInto(map[], entries, 1)| > maxSize {
      SnapshotRestoreSize(f, entries, 1, 1, maxSize);
    }
  }
}
