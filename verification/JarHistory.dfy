/**
  What a jar no longer knows of its past: which host set a cookie, and when it was first set.
  Sections 5.3 and 5.4 of RFC 6265 look at both.
 */
module JarHistory {
  import opened Text
  import opened Matching
  import opened Cookies
  import opened NestedMap
  import opened JarModel

  // ----- which host set a cookie -----

  ghost predicate SetBy(op: JarOp, e: CookieEntry) {
    op.Add? && e == NewEntry(op.cookie, op.host, op.now)
  }

  lemma AddOnlyAdds(f: FlatJar, c: HttpCookie, host: string, now: int, maxSize: int, victim: Slot, s: Slot)
    requires s in AddTo(f, c, host, now, maxSize, victim).jar
    ensures AddTo(f, c, host, now, maxSize, victim).jar[s] == NewEntry(c, host, now)
         || (s in f && AddTo(f, c, host, now, maxSize, victim).jar[s] == f[s])
  {
    hide NewEntry;
  }

  /** Every entry of a jar was put there, as it is, by one of the additions that built it. */
  lemma {:induction false} EntriesWereSet(ops: seq<JarOp>, maxSize: int, f: FlatJar, s: Slot) returns (i: nat)
    requires Reaches(ops, maxSize, f) && s in f
    ensures i < |ops| && SetBy(ops[i], f[s])
    decreases |ops|
  {
    hide NewEntry, AddTo;
    var init, last := ops[..|ops| - 1], ops[|ops| - 1];
    var g :| Reaches(init, maxSize, g) && Possible(g, last, maxSize) && f == Do(g, last, maxSize);
    if last.Add? { AddOnlyAdds(g, last.cookie, last.host, last.now, maxSize, last.victim, s); }
    if last.Add? && f[s] == NewEntry(last.cookie, last.host, last.now) {
      i := |ops| - 1;
    } else {
      i := EntriesWereSet(init, maxSize, g, s);
    }
  }

  // The hosts whose requests can carry a cookie set by `setter`: its own, or whatever the Domain attribute names.
  predicate Receives(c: HttpCookie, setter: string, host: string) {
    if c.domain == "" then ToLower(host) == CanonicalDomain(setter)
    else DomainMatch(ToLower(host), CanonicalDomain(c.domain))
  }

  /** A host can ever be sent a stored cookie, for some path at some time, exactly when it is one of those. */
  lemma ReceiversExact(f: FlatJar, c: HttpCookie, setter: string, now: int, maxSize: int, victim: Slot, host: string)
    requires Slotted(f) && AddTo(f, c, setter, now, maxSize, victim).outcome == Stored
    ensures (exists path, t: int :: NewEntry(c, setter, now) in Applicable(AddTo(f, c, setter, now, maxSize, victim).jar, host, path, t))
       <==> Receives(c, setter, host)
  {
    var jar, e := AddTo(f, c, setter, now, maxSize, victim).jar, NewEntry(c, setter, now);
    PutKeepsSlotted(f, e, maxSize, victim);
    assert SlotOf(e) in jar && jar[SlotOf(e)] == e;
    DomainMatchesItself(CanonicalDomain(setter));
    hide AddTo, NewEntry, CanonicalDomain, ToLower, DomainMatch;
    if Receives(c, setter, host) {
      assert Applies(SlotOf(e).0, e, ToLower(host), e.path, now);
      assert e in Applicable(jar, host, e.path, now);
    }
  }

  /** Over every run: whatever a request carries was set by an addition that the request's host receives from. */
  lemma AnswersWereSet(ops: seq<JarOp>, maxSize: int, f: FlatJar, host: string, path: string, now: int, e: CookieEntry) returns (i: nat)
    requires maxSize > 0 && Reaches(ops, maxSize, f) && e in Applicable(f, host, path, now)
    ensures i < |ops| && SetBy(ops[i], e) && Receives(ops[i].cookie, ops[i].host, host)
  {
    hide CanonicalDomain, ToLower, DomainMatch, Reaches;
    ReachableJarsAreBounded(ops, maxSize, f);
    var s :| s in f && f[s] == e && Applies(s.0, e, ToLower(host), path, now);
    i := EntriesWereSet(ops, maxSize, f, s);
  }

  // Section 5.3 of RFC 6265, step 6: the Domain attribute must domain-match the host that sets the cookie.
  ghost predicate RfcAccepts(c: HttpCookie, setter: string, setterIsAddress: bool) {
    c.domain != "" ==> RfcDomainMatch(CanonicalDomain(setter), CanonicalDomain(c.domain), setterIsAddress)
  }

  ghost predicate RfcReceives(c: HttpCookie, setter: string, setterIsAddress: bool, host: string, hostIsAddress: bool) {
    && RfcAccepts(c, setter, setterIsAddress)
    && (if c.domain == "" then ToLower(host) == CanonicalDomain(setter)
        else RfcDomainMatch(ToLower(host), CanonicalDomain(c.domain), hostIsAddress))
  }

  /**
    Who receives a cookie is as in the RFC except for cookies with a Domain attribute: one the RFC
    rejects goes to every host its domain matches, and one it accepts differs by the domain gap.
   */
  lemma ReceivesIsRfcIff(c: HttpCookie, setter: string, setterIsAddress: bool, host: string, hostIsAddress: bool)
    ensures (Receives(c, setter, host) <==> RfcReceives(c, setter, setterIsAddress, host, hostIsAddress))
       <==> c.domain == ""
            || if RfcAccepts(c, setter, setterIsAddress) then !DomainGap(ToLower(host), CanonicalDomain(c.domain), hostIsAddress)
               else !DomainMatch(ToLower(host), CanonicalDomain(c.domain))
  {
    hide CanonicalDomain, ToLower, DomainMatch, RfcDomainMatch, DomainGap;
    DomainMatchIsRfcOutsideGap(ToLower(host), CanonicalDomain(c.domain), hostIsAddress);
  }

  /** With a Domain attribute the jar does not look at the host that sets the cookie. */
  lemma DomainAttributeUnchecked(f: FlatJar, c: HttpCookie, setter: string, other: string, now: int, maxSize: int, victim: Slot)
    requires c.domain != ""
    ensures AddTo(f, c, setter, now, maxSize, victim) == AddTo(f, c, other, now, maxSize, victim)
  {
    assert NewEntry(c, setter, now) == NewEntry(c, other, now);
  }

  /** A cookie that names another domain: the jar sends it there, the RFC rejects it. */
  lemma AnotherDomainReceives(c: HttpCookie)
    requires c.domain == "b.org"
    ensures Receives(c, "a.com", "b.org") && !RfcAccepts(c, "a.com", false)
  {
    assert Trim("b.org") == "b.org" && Trim("a.com") == "a.com" by {
      TrimmedFixed("b.org");
      TrimmedFixed("a.com");
    }
    assert TrimPrefix("b.org", ".") == "b.org" && TrimPrefix("a.com", ".") == "a.com";
    assert ToLower("b.org") == "b.org" && ToLower("a.com") == "a.com";
  }

  // ----- when a cookie was first set -----

  /**
    A jar with the creation times of section 5.3 of RFC 6265: there a cookie that replaces a live
    one keeps its creation time (step 11.3). `rewritten` has the slots where that has happened since
    the cookie was first set. No operation reads either.
   */
  datatype Tracked = Tracked(jar: FlatJar, born: map<Slot, int>, rewritten: set<Slot>)

  const NOTHING := Tracked(map[], map[], {})

  // Whether the addition replaces a live entry.
  ghost predicate Overwrites(f: FlatJar, c: HttpCookie, host: string, now: int) {
    var s := SlotFor(c, host);
    s in f && !f[s].IsExpired(now)
  }

  function Restrict<K, V>(m: map<K, V>, keys: set<K>): map<K, V> {
    map k | k in m && k in keys :: m[k]
  }

  lemma RestrictAll<K, V>(m: map<K, V>, keys: set<K>)
    requires m.Keys <= keys
    ensures Restrict(m, keys) == m
  {
  }

  ghost function DoTracked(t: Tracked, op: JarOp, maxSize: int): Tracked
    requires t.born.Keys == t.jar.Keys
  {
    var g := Do(t.jar, op, maxSize);
    if op.Add? && AddTo(t.jar, op.cookie, op.host, op.now, maxSize, op.victim).outcome == Stored then
      var s, over := SlotFor(op.cookie, op.host), Overwrites(t.jar, op.cookie, op.host, op.now);
      Tracked(g, Restrict(t.born[s := if over then t.born[s] else op.now], g.Keys), if over then t.rewritten + {s} else t.rewritten - {s})
    else Tracked(g, Restrict(t.born, g.Keys), t.rewritten)
  }

  ghost predicate TrackedReaches(ops: seq<JarOp>, maxSize: int, t: Tracked)
    decreases |ops|
  {
    if ops == [] then t == NOTHING
    else
      var last := ops[|ops| - 1];
      exists m :: TrackedReaches(ops[..|ops| - 1], maxSize, m) && m.born.Keys == m.jar.Keys
        && Possible(m.jar, last, maxSize) && t == DoTracked(m, last, maxSize)
  }

  // Every entry has a creation time, and it is the jar's own where nothing has been rewritten.
  ghost predicate Dated(t: Tracked) {
    && t.born.Keys == t.jar.Keys
    && (forall s :: s in t.jar && s !in t.rewritten ==> t.born[s] == t.jar[s].created)
  }

  lemma StoredAt(f: FlatJar, c: HttpCookie, host: string, now: int, maxSize: int, victim: Slot)
    ensures var r, slot := AddTo(f, c, host, now, maxSize, victim), SlotFor(c, host);
            && (r.outcome == Stored ==> slot in r.jar && r.jar[slot].created == now)
            && (forall s :: s in r.jar && (s != slot || r.outcome != Stored) ==> s in f && r.jar[s] == f[s])
  {
  }

  lemma DoKeepsDated(t: Tracked, op: JarOp, maxSize: int)
    requires Dated(t)
    ensures Dated(DoTracked(t, op, maxSize))
  {
    hide SlotFor, AddTo;
    if op.Add? { StoredAt(t.jar, op.cookie, op.host, op.now, maxSize, op.victim); }
  }

  /** Tracking changes nothing: the jar of a tracked run is one the same operations reach, and every such jar can be tracked. */
  lemma {:induction false} TrackedRuns(ops: seq<JarOp>, maxSize: int, t: Tracked)
    requires TrackedReaches(ops, maxSize, t)
    ensures Reaches(ops, maxSize, t.jar) && Dated(t)
    decreases |ops|
  {
    if ops != [] {
      hide Possible, Do;
      var init, last := ops[..|ops| - 1], ops[|ops| - 1];
      var m :| TrackedReaches(init, maxSize, m) && m.born.Keys == m.jar.Keys
            && Possible(m.jar, last, maxSize) && t == DoTracked(m, last, maxSize);
      TrackedRuns(init, maxSize, m);
      DoKeepsDated(m, last, maxSize);
      assert t.jar == Do(m.jar, last, maxSize);
    }
  }

  lemma {:induction false} RunsAreTracked(ops: seq<JarOp>, maxSize: int, f: FlatJar) returns (t: Tracked)
    requires Reaches(ops, maxSize, f)
    ensures TrackedReaches(ops, maxSize, t) && t.jar == f
    decreases |ops|
  {
    hide Possible, Do;
    if ops == [] {
      t := NOTHING;
    } else {
      var init, last := ops[..|ops| - 1], ops[|ops| - 1];
      var g :| Reaches(init, maxSize, g) && Possible(g, last, maxSize) && f == Do(g, last, maxSize);
      var m := RunsAreTracked(init, maxSize, g);
      TrackedRuns(init, maxSize, m);
      t := DoTracked(m, last, maxSize);
    }
  }

  // The order of section 5.4 of RFC 6265, step 2: longer paths first, then earlier creation times.
  ghost predicate RfcBefore(t: Tracked, a: CookieEntry, b: CookieEntry)
    requires SlotOf(a) in t.born && SlotOf(b) in t.born
  {
    if |a.path| != |b.path| then |a.path| > |b.path| else t.born[SlotOf(a)] < t.born[SlotOf(b)]
  }

  ghost predicate RfcOrdered(t: Tracked, q: seq<CookieEntry>)
    requires forall i :: 0 <= i < |q| ==> SlotOf(q[i]) in t.born
  {
    forall i, j :: 0 <= i < j < |q| ==> !RfcBefore(t, q[j], q[i])
  }

  lemma AnsweredAreStored(f: FlatJar, host: string, path: string, now: int, q: seq<CookieEntry>)
    requires Slotted(f) && Enumerates(q, Applicable(f, host, path, now))
    ensures forall i :: 0 <= i < |q| ==> SlotOf(q[i]) in f && f[SlotOf(q[i])] == q[i]
  {
    EnumerationOnce(q, Applicable(f, host, path, now));
    forall i | 0 <= i < |q| ensures SlotOf(q[i]) in f && f[SlotOf(q[i])] == q[i] {
      assert q[i] in Applicable(f, host, path, now);
      var s :| s in f && f[s] == q[i];
    }
  }

  /**
    Over every run: an answer is in the order of the RFC exactly when it is in the jar's own order,
    as long as no entry in it has replaced a live one since it was first set.
   */
  lemma OrderIsRfcUnlessRewritten(ops: seq<JarOp>, maxSize: int, t: Tracked, host: string, path: string, now: int, q: seq<CookieEntry>)
    requires maxSize > 0 && TrackedReaches(ops, maxSize, t) && Enumerates(q, Applicable(t.jar, host, path, now))
    requires forall i :: 0 <= i < |q| ==> SlotOf(q[i]) !in t.rewritten
    ensures forall i :: 0 <= i < |q| ==> SlotOf(q[i]) in t.born
    ensures Ordered(q) <==> RfcOrdered(t, q)
  {
    hide TrackedReaches, Enumerates, Applicable;
    TrackedRuns(ops, maxSize, t);
    ReachableJarsAreBounded(ops, maxSize, t.jar);
    AnsweredAreStored(t.jar, host, path, now, q);
    hide SlotOf;
    assert forall i :: 0 <= i < |q| ==> t.born[SlotOf(q[i])] == q[i].created;
  }

  lemma TrackedMore(ops: seq<JarOp>, maxSize: int, m: Tracked, op: JarOp)
    requires TrackedReaches(ops, maxSize, m) && m.born.Keys == m.jar.Keys && Possible(m.jar, op, maxSize)
    ensures TrackedReaches(ops + [op], maxSize, DoTracked(m, op, maxSize))
  {
    hide Possible, DoTracked;
    var all := ops + [op];
    assert all[..|all| - 1] == ops && all[|all| - 1] == op;
  }

  // The jar after a brief cookie, replacing or not.
  ghost function Stamped(t: Tracked, name: string, host: string, now: int): Tracked
    requires t.born.Keys == t.jar.Keys
  {
    var s, over := SlotFor(Brief(name), host), Overwrites(t.jar, Brief(name), host, now);
    Tracked(t.jar[s := NewEntry(Brief(name), host, now)],
      t.born[s := if over then t.born[s] else now],
      if over then t.rewritten + {s} else t.rewritten - {s})
  }

  lemma AddBriefTracked(ops: seq<JarOp>, maxSize: int, t: Tracked, name: string, host: string, now: int)
    requires TrackedReaches(ops, maxSize, t) && t.born.Keys == t.jar.Keys
    requires now <= 10 && (|t.jar| < maxSize || SlotFor(Brief(name), host) in t.jar)
    ensures TrackedReaches(ops + [Add(Brief(name), host, now, ("", ""))], maxSize, Stamped(t, name, host, now))
  {
    var op, s := Add(Brief(name), host, now, ("", "")), SlotFor(Brief(name), host);
    BriefIsStored(t.jar, name, host, now, maxSize);
    hide TrackedReaches, AddTo, NewEntry, SlotFor, Overwrites, Brief, Restrict;
    TrackedMore(ops, maxSize, t, op);
    RestrictAll(t.born[s := if Overwrites(t.jar, Brief(name), host, now) then t.born[s] else now], Do(t.jar, op, maxSize).Keys);
  }

  lemma BriefIsStored(f: FlatJar, name: string, host: string, now: int, maxSize: int)
    requires now <= 10 && (|f| < maxSize || SlotFor(Brief(name), host) in f)
    ensures Possible(f, Add(Brief(name), host, now, ("", "")), maxSize)
    ensures AddTo(f, Brief(name), host, now, maxSize, ("", ""))
         == AddResult(f[SlotFor(Brief(name), host) := NewEntry(Brief(name), host, now)], Stored)
  {
  }

  // Setting a brief cookie of its own slot, or one that is there and live.
  lemma StampedFresh(t: Tracked, name: string, host: string, now: int)
    requires t.born.Keys == t.jar.Keys && SlotFor(Brief(name), host) !in t.jar
    ensures var s := SlotFor(Brief(name), host);
            Stamped(t, name, host, now) == Tracked(t.jar[s := NewEntry(Brief(name), host, now)], t.born[s := now], t.rewritten - {s})
  {
    hide SlotFor, NewEntry;
  }

  lemma StampedOver(t: Tracked, name: string, host: string, now: int, before: int)
    requires t.born.Keys == t.jar.Keys && SlotFor(Brief(name), host) in t.jar
    requires t.jar[SlotFor(Brief(name), host)] == NewEntry(Brief(name), host, before) && now <= 10
    ensures var s := SlotFor(Brief(name), host);
            Stamped(t, name, host, now) == Tracked(t.jar[s := NewEntry(Brief(name), host, now)], t.born[s := t.born[s]], t.rewritten + {s})
  {
    assert !NewEntry(Brief(name), host, before).IsExpired(now);
    hide SlotFor, NewEntry;
  }

  lemma TwoCookies(x: string)
    ensures var sa, sb := SlotFor(Brief("a"), x), SlotFor(Brief("b"), x);
            var t1 := Stamped(NOTHING, "a", x, 1);
            && sa != sb && t1.born.Keys == t1.jar.Keys == {sa}
            && var t2 := Stamped(t1, "b", x, 2);
               && t2.born.Keys == t2.jar.Keys == {sa, sb} && t2.born[sa] == 1 && t2.born[sb] == 2
               && t2.jar[sa] == NewEntry(Brief("a"), x, 1) && t2.jar[sb] == NewEntry(Brief("b"), x, 2)
  {
    assert EntryKey("a", "/")[0] == 'a' && EntryKey("b", "/")[0] == 'b';
    hide NewEntry, Brief, EntryKey, CanonicalDomain;
    StampedFresh(NOTHING, "a", x, 1);
    StampedFresh(Stamped(NOTHING, "a", x, 1), "b", x, 2);
  }

  lemma SetAgain(x: string, maxSize: int) returns (ops: seq<JarOp>, t: Tracked)
    requires maxSize >= 2
    ensures TrackedReaches(ops, maxSize, t)
    ensures var sa, sb := SlotFor(Brief("a"), x), SlotFor(Brief("b"), x);
            && t.born.Keys == t.jar.Keys == {sa, sb} && sa != sb && t.born[sa] == 1 && t.born[sb] == 2
            && t.jar[sa] == NewEntry(Brief("a"), x, 3) && t.jar[sb] == NewEntry(Brief("b"), x, 2)
  {
    hide NewEntry, SlotFor, TrackedReaches, Brief, Stamped;
    TwoCookies(x);
    NothingTracked(maxSize);
    var t1 := Stamped(NOTHING, "a", x, 1);
    var t2 := Stamped(t1, "b", x, 2);
    AddBriefTracked([], maxSize, NOTHING, "a", x, 1);
    assert |t1.jar| == |t1.jar.Keys| == 1;
    AddBriefTracked([] + [Add(Brief("a"), x, 1, ("", ""))], maxSize, t1, "b", x, 2);
    ops := [] + [Add(Brief("a"), x, 1, ("", ""))] + [Add(Brief("b"), x, 2, ("", ""))];
    AddBriefTracked(ops, maxSize, t2, "a", x, 3);
    StampedOver(t2, "a", x, 3, 1);
    ops, t := ops + [Add(Brief("a"), x, 3, ("", ""))], Stamped(t2, "a", x, 3);
  }

  lemma NothingTracked(maxSize: int)
    ensures TrackedReaches([], maxSize, NOTHING)
  {
  }

  /** Setting a, then b, then a again: the RFC sends a first, the jar sends b first. */
  lemma RewriteChangesOrder(x: string, maxSize: int) returns (ops: seq<JarOp>, t: Tracked, a: CookieEntry, b: CookieEntry)
    requires maxSize >= 2 && CanonicalDomain(x) == ToLower(x)
    ensures TrackedReaches(ops, maxSize, t)
    ensures Applicable(t.jar, x, "/", 3) == {a, b}
    ensures SlotOf(a) in t.born && SlotOf(b) in t.born && RfcBefore(t, a, b) && Before(b, a)
  {
    ops, t := SetAgain(x, maxSize);
    a, b := NewEntry(Brief("a"), x, 3), NewEntry(Brief("b"), x, 2);
    assert SlotOf(a) == SlotFor(Brief("a"), x) && SlotOf(b) == SlotFor(Brief("b"), x);
    assert Applies(SlotOf(a).0, a, ToLower(x), "/", 3) && Applies(SlotOf(b).0, b, ToLower(x), "/", 3);
    hide Applies, NewEntry, SlotFor;
    assert t.jar[SlotOf(a)] == a && t.jar[SlotOf(b)] == b;
    assert forall s :: s in t.jar ==> t.jar[s] == a || t.jar[s] == b;
  }
}
