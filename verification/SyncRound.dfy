/** One synchronisation round, from the page's payload to the page's reading of the answer. */
module SyncRound {
  import opened Clock
  import opened Matching
  import opened Cookies
  import opened NestedMap
  import opened JarModel
  import opened Wire
  import opened ShadowJar
  import opened SyncProtocol
  import opened SyncSafety

  // ----- the server's half -----

  // The AddCookie loop over the decoded header, with the time and the eviction choice of each
  // call; a panic ends it.
  datatype Served = Served(jar: FlatJar, keys: seq<string>, panicked: bool)

  ghost function Serve(f: FlatJar, site: Site, cookies: seq<HttpCookie>, times: seq<int>, victims: seq<Slot>): Served
    requires |cookies| == |times| == |victims|
    decreases |cookies|
  {
    if cookies == [] then Served(f, [], false)
    else
      var n := |cookies| - 1;
      var before := Serve(f, site, cookies[..n], times[..n], victims[..n]);
      if before.panicked then before
      else
        var r := AddTo(before.jar, cookies[n], site.host, times[n], site.maxSize, victims[n]);
        if r.outcome == Panicked then Served(r.jar, before.keys, true)
        else Served(r.jar, before.keys + [cookies[n].name + "|" + cookies[n].path], false)
  }

  // Every eviction of the loop takes an entry that no other is older than.
  ghost predicate Picked(f: FlatJar, site: Site, cookies: seq<HttpCookie>, times: seq<int>, victims: seq<Slot>)
    requires |cookies| == |times| == |victims|
    decreases |cookies|
  {
    cookies != [] ==>
      var n := |cookies| - 1;
      var before := Serve(f, site, cookies[..n], times[..n], victims[..n]);
      && Picked(f, site, cookies[..n], times[..n], victims[..n])
      && (!before.panicked && Evicts(before.jar, cookies[n], site.host, times[n], site.maxSize) ==> IsVictim(before.jar, victims[n]))
  }

  /** However many cookies it is given, the loop keeps a bounded jar bounded and every entry in its slot. */
  lemma {:induction false} ServeKeepsBound(f: FlatJar, site: Site, cookies: seq<HttpCookie>, times: seq<int>, victims: seq<Slot>)
    requires |cookies| == |times| == |victims| && Picked(f, site, cookies, times, victims)
    requires |f| <= site.maxSize && Slotted(f)
    ensures var r := Serve(f, site, cookies, times, victims); |r.jar| <= site.maxSize && Slotted(r.jar)
    decreases |cookies|
  {
    if cookies != [] {
      hide AddTo, Evicts, Slotted;
      var n := |cookies| - 1;
      ServeKeepsBound(f, site, cookies[..n], times[..n], victims[..n]);
      var before := Serve(f, site, cookies[..n], times[..n], victims[..n]);
      if !before.panicked {
        AddKeepsBound(before.jar, cookies[n], site.host, times[n], site.maxSize, victims[n]);
        AddFrame(before.jar, cookies[n], site.host, times[n], site.maxSize, victims[n]);
      }
    }
  }

  // Nothing in the payload has expired when it is applied.
  ghost predicate AllInTime(payload: seq<WireEntry>, times: seq<int>) {
    |payload| == |times| && forall i :: 0 <= i < |payload| && payload[i].e > 0 ==> times[i] <= payload[i].e * SECOND
  }

  ghost predicate DistinctKeys(payload: seq<WireEntry>) {
    forall i, j :: 0 <= i < j < |payload| ==> KeyOf(payload[i]) != KeyOf(payload[j])
  }

  ghost predicate HeldAt(f: FlatJar, site: Site, w: WireEntry) {
    ServerView(f, SlotOfWire(site, w)) == Wanted(w)
  }

  function KeysOf(payload: seq<WireEntry>): seq<string> {
    seq(|payload|, i requires 0 <= i < |payload| => KeyOf(payload[i]))
  }

  ghost predicate SameAt(f: FlatJar, g: FlatJar, s: Slot) {
    (s in g <==> s in f) && (s in f ==> g[s] == f[s])
  }

  ghost predicate Avoids(site: Site, payload: seq<WireEntry>, s: Slot) {
    forall i :: 0 <= i < |payload| ==> s != SlotOfWire(site, payload[i])
  }

  lemma SameViewHeld(f: FlatJar, g: FlatJar, site: Site, w: WireEntry)
    requires SameAt(f, g, SlotOfWire(site, w)) && HeldAt(f, site, w)
    ensures HeldAt(g, site, w)
  {
  }

  lemma AddSize(f: FlatJar, c: HttpCookie, host: string, now: int, maxSize: int, victim: Slot)
    requires |f| < maxSize && !NewEntry(c, host, now).IsExpired(now)
    ensures AddTo(f, c, host, now, maxSize, victim).outcome == if c.maxAge < 0 then Deleted else Stored
    ensures |AddTo(f, c, host, now, maxSize, victim).jar| <= |f| + 1
  {
    var r, slot := AddTo(f, c, host, now, maxSize, victim), SlotFor(c, host);
    RemoveSize(f, slot);
    assert r.outcome.Stored? ==> r.jar.Keys == f.Keys + {slot};
  }

  // Applying one more in-time entry to a jar with room.
  lemma ServeOne(f: FlatJar, site: Site, w: WireEntry, now: int, victim: Slot)
    requires Sound(w) && |f| < site.maxSize && (w.e > 0 ==> now <= w.e * SECOND)
    ensures var r := AddTo(f, DecodeEntry(w), site.host, now, site.maxSize, victim);
            && (r.outcome.Stored? || r.outcome.Deleted?)
            && |r.jar| <= |f| + 1
            && HeldAt(r.jar, site, w)
            && (forall s :: s != SlotOfWire(site, w) ==> SameAt(f, r.jar, s))
  {
    var c := DecodeEntry(w);
    AddSize(f, c, site.host, now, site.maxSize, victim);
    AddHasEffect(f, site, w, now, victim);
    AddFrame(f, c, site.host, now, site.maxSize, victim);
  }

  ghost predicate AllHeld(f: FlatJar, site: Site, payload: seq<WireEntry>) {
    forall i :: 0 <= i < |payload| ==> HeldAt(f, site, payload[i])
  }

  // From the jar before the last entry to the jar after it.
  lemma ServeLast(f: FlatJar, g: FlatJar, h: FlatJar, site: Site, payload: seq<WireEntry>)
    requires payload != [] && SoundEntries(payload) && DistinctKeys(payload)
    requires var n := |payload| - 1;
        && AllHeld(g, site, payload[..n]) && HeldAt(h, site, payload[n])
        && (forall s :: Avoids(site, payload[..n], s) ==> SameAt(f, g, s))
        && (forall s :: s != SlotOfWire(site, payload[n]) ==> SameAt(g, h, s))
    ensures AllHeld(h, site, payload)
    ensures forall s :: Avoids(site, payload, s) ==> SameAt(f, h, s)
  {
    hide KeyOf, SlotOfWire, Wanted, ServerView, Sound;
    var n := |payload| - 1;
    forall i | 0 <= i < n ensures HeldAt(h, site, payload[i]) {
      assert payload[..n][i] == payload[i];
      CaseInjective(site, payload[i], payload[n]);
      SameViewHeld(g, h, site, payload[i]);
    }
    forall s | Avoids(site, payload, s) ensures SameAt(f, h, s) {
      assert Avoids(site, payload[..n], s) by {
        assert forall i :: 0 <= i < n ==> payload[..n][i] == payload[i];
      }
      assert SameAt(f, g, s) && SameAt(g, h, s);
    }
  }

  lemma ServeKeys(payload: seq<WireEntry>)
    requires payload != []
    ensures var n := |payload| - 1;
        && DecodeAll(payload)[..n] == DecodeAll(payload[..n])
        && DecodeAll(payload)[n].name + "|" + DecodeAll(payload)[n].path == KeyOf(payload[n])
        && KeysOf(payload) == KeysOf(payload[..n]) + [KeyOf(payload[n])]
  {
  }

  /** With room for the whole payload the loop applies every entry and touches nothing else. */
  lemma {:induction false} ServeAppliesAll(f: FlatJar, site: Site, payload: seq<WireEntry>, times: seq<int>, victims: seq<Slot>)
    requires SoundEntries(payload) && DistinctKeys(payload) && AllInTime(payload, times) && |victims| == |payload|
    requires |f| + |payload| <= site.maxSize
    ensures var r := Serve(f, site, DecodeAll(payload), times, victims);
            && !r.panicked && r.keys == KeysOf(payload)
            && |r.jar| <= |f| + |payload|
            && AllHeld(r.jar, site, payload)
            && (forall s :: Avoids(site, payload, s) ==> SameAt(f, r.jar, s))
    decreases |payload|
  {
    hide KeyOf, SlotOfWire, DecodeEntry, Sound, AddTo, HeldAt, SameAt;
    if payload == [] {
      assert forall s :: SameAt(f, f, s) by { SameAtRefl(f); }
    } else {
      var n := |payload| - 1;
      ServeAppliesAll(f, site, payload[..n], times[..n], victims[..n]);
      ServeKeys(payload);
      var g := Serve(f, site, DecodeAll(payload[..n]), times[..n], victims[..n]).jar;
      ServeOne(g, site, payload[n], times[n], victims[n]);
      ServeLast(f, g, Serve(f, site, DecodeAll(payload), times, victims).jar, site, payload);
    }
  }

  lemma SameAtRefl(f: FlatJar)
    ensures forall s :: SameAt(f, f, s)
  {
  }

  // ----- the whole round -----

  lemma PayloadIsSoundAndDistinct(c: Client, order: seq<string>, payload: seq<WireEntry>)
    requires Valid(c) && SoundJar(c.jar) && IsPayload(c, order, payload)
    ensures SoundEntries(payload) && DistinctKeys(payload)
    ensures forall k :: k in KeysOf(payload) <==> k in c.dirty
    ensures forall k :: k in KeysOf(payload) ==> Ackable(k)
    ensures forall k :: k in c.dirty ==> c.jar[k] in payload && KeyOf(c.jar[k]) == k
  {
    hide KeyOf, LookUp;
    PayloadCoversDirty(c, order, payload);
    EnumerationOnce(order, c.dirty);
    assert KeysOf(payload) == order;
    forall k | k in c.dirty ensures c.jar[k] in payload {
      var i :| 0 <= i < |order| && order[i] == k;
      assert payload[i] == c.jar[k];
    }
  }

  // After the round a dirty entry is held alike on both sides, a tombstone by neither.
  ghost predicate InStep(after: Client, jar: FlatJar, site: Site, k: string, w: WireEntry) {
    var slot := SlotOfWire(site, w);
    && ServerView(jar, slot) == ClientView(after, k) == Wanted(w)
    && (IsTombstone(w) ==> k !in after.jar && slot !in jar)
    && (!IsTombstone(w) ==> k in after.jar && after.jar[k] == w && slot in jar)
  }

  // The page's side of the round.
  lemma AckEmptiesDirty(c: Client, keys: seq<string>)
    requires forall k :: k in keys <==> k in c.dirty
    requires c.dirty <= c.jar.Keys
    ensures Ack(c, keys).dirty == {}
    ensures forall k :: k in c.dirty ==>
        if IsTombstone(c.jar[k]) then k !in Ack(c, keys).jar else k in Ack(c, keys).jar && Ack(c, keys).jar[k] == c.jar[k]
    ensures forall k :: k in c.jar && k !in c.dirty ==> k in Ack(c, keys).jar && Ack(c, keys).jar[k] == c.jar[k]
  {
    AckClears(c, keys);
  }

  lemma OtherSlotsAvoid(c: Client, site: Site, payload: seq<WireEntry>, s: Slot)
    requires forall i :: 0 <= i < |payload| ==> KeyOf(payload[i]) in c.dirty && KeyOf(payload[i]) in c.jar && c.jar[KeyOf(payload[i])] == payload[i]
    requires forall k :: k in c.dirty && k in c.jar ==> s != SlotOfWire(site, c.jar[k])
    ensures Avoids(site, payload, s)
  {
  }

  /**
    The outcome of a complete round: no panic, nothing dirty, every key that was dirty in step,
    and nothing else changed on either side.
   */
  ghost predicate Completed(c: Client, f: FlatJar, site: Site, served: Served, after: Client) {
    && !served.panicked
    && after.dirty == {}
    && (forall k :: k in c.dirty && k in c.jar ==> InStep(after, served.jar, site, k, c.jar[k]))
    && (forall k :: k in c.jar && k !in c.dirty ==> k in after.jar && after.jar[k] == c.jar[k])
    && (forall s :: (forall k :: k in c.dirty && k in c.jar ==> s != SlotOfWire(site, c.jar[k])) ==> SameAt(f, served.jar, s))
  }

  lemma RoundCompletes(c: Client, f: FlatJar, site: Site, payload: seq<WireEntry>, served: Served)
    requires c.dirty <= c.jar.Keys && !served.panicked
    requires forall i :: 0 <= i < |payload| ==> KeyOf(payload[i]) in c.dirty && c.jar[KeyOf(payload[i])] == payload[i]
    requires forall k :: k in c.dirty ==> c.jar[k] in payload
    requires forall k :: k in served.keys <==> k in c.dirty
    requires AllHeld(served.jar, site, payload)
    requires forall s :: Avoids(site, payload, s) ==> SameAt(f, served.jar, s)
    ensures Completed(c, f, site, served, Ack(c, served.keys))
  {
    hide KeyOf, SlotOfWire, SameAt;
    AckEmptiesDirty(c, served.keys);
    forall k | k in c.dirty ensures InStep(Ack(c, served.keys), served.jar, site, k, c.jar[k]) {
      var i :| 0 <= i < |payload| && payload[i] == c.jar[k];
      assert HeldAt(served.jar, site, payload[i]);
    }
    forall s | forall k :: k in c.dirty && k in c.jar ==> s != SlotOfWire(site, c.jar[k])
      ensures SameAt(f, served.jar, s)
    {
      OtherSlotsAvoid(c, site, payload, s);
    }
  }

  // A round for another origin leaves the page's own slots as they were.
  lemma RoundReachesPage(c: Client, f: FlatJar, site: Site, page: Site, served: Served, after: Client, k: string)
    requires Completed(c, f, site, served, after) && k in c.dirty && k in c.jar
    ensures ServerView(served.jar, SlotOfWire(page, c.jar[k])) == Wanted(c.jar[k])
       <==> CanonicalDomain(site.host) == CanonicalDomain(page.host) || ServerView(f, SlotOfWire(page, c.jar[k])) == Wanted(c.jar[k])
  {
    hide KeyOf, CanonicalDomain, EntryKey, Wanted;
    var slot := SlotOfWire(page, c.jar[k]);
    assert InStep(after, served.jar, site, k, c.jar[k]);
    if CanonicalDomain(site.host) != CanonicalDomain(page.host) {
      assert SameAt(f, served.jar, slot);
    }
  }

  /**
    A round that nothing disturbs - encode, decode, apply, acknowledge, split - is complete when
    the jar has room and nothing has expired on the way: nothing is dirty, and every key that was
    is held alike by the page and by the slots of the host the request was for. Those are the
    page's own slots exactly when the two domains are the same; otherwise the page's own slots are
    as they were, and agree only if they did before.
   */
  lemma LosslessRound(c: Client, f: FlatJar, site: Site, page: Site, order: seq<string>, payload: seq<WireEntry>, times: seq<int>, victims: seq<Slot>)
    requires Valid(c) && SoundJar(c.jar) && IsPayload(c, order, payload)
    requires AllInTime(payload, times) && |victims| == |payload|
    requires |f| + |payload| <= site.maxSize
    ensures var served := Serve(f, site, DecodeAll(payload), times, victims);
            && Completed(c, f, site, served, Ack(c, SplitAck(JoinAck(served.keys))))
            && forall k :: k in c.dirty && k in c.jar ==>
                 (ServerView(served.jar, SlotOfWire(page, c.jar[k])) == Wanted(c.jar[k])
                  <==> CanonicalDomain(site.host) == CanonicalDomain(page.host)
                       || ServerView(f, SlotOfWire(page, c.jar[k])) == Wanted(c.jar[k]))
  {
    hide KeyOf, SlotOfWire, Sound, Ackable, SameAt, Serve, LookUp, AllHeld, Completed, Ack, JoinAck, SplitAck, SoundJar, ServerView, Wanted, CanonicalDomain;
    PayloadIsSoundAndDistinct(c, order, payload);
    PayloadCoversDirty(c, order, payload);
    ServeAppliesAll(f, site, payload, times, victims);
    AckRoundTrip(KeysOf(payload));
    var served := Serve(f, site, DecodeAll(payload), times, victims);
    RoundCompletes(c, f, site, payload, served);
    forall k | k in c.dirty && k in c.jar
      ensures ServerView(served.jar, SlotOfWire(page, c.jar[k])) == Wanted(c.jar[k])
         <==> CanonicalDomain(site.host) == CanonicalDomain(page.host) || ServerView(f, SlotOfWire(page, c.jar[k])) == Wanted(c.jar[k])
    {
      RoundReachesPage(c, f, site, page, served, Ack(c, served.keys), k);
    }
  }

  lemma {:induction false} AckClears(c: Client, keys: seq<string>)
    ensures Ack(c, keys).dirty == c.dirty - (set k | k in keys)
    ensures forall k :: k in Ack(c, keys).jar <==> k in c.jar && !(k in keys && IsTombstone(c.jar[k]))
    ensures forall k :: k in Ack(c, keys).jar ==> Ack(c, keys).jar[k] == c.jar[k]
    decreases |keys|
  {
    if keys != [] {
      AckClears(c, keys[..|keys| - 1]);
      assert keys == keys[..|keys| - 1] + [keys[|keys| - 1]];
    }
  }
}
