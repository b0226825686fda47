/** What the synchronisation protocol guarantees over every run that follows the discipline. */
module SyncSafety {
  import opened Clock
  import opened Matching
  import opened Cookies
  import opened JarModel
  import opened Wire
  import opened ShadowJar
  import opened SyncProtocol
  import opened Wrappers

  // ----- the page's operations at one key -----

  lemma {:induction false} AckAt(c: Client, keys: seq<string>, k: string)
    ensures k in Ack(c, keys).dirty <==> k in c.dirty && k !in keys
    ensures ClientView(Ack(c, keys), k) == ClientView(c, k)
    ensures forall x :: x in Ack(c, keys).jar ==> x in c.jar && Ack(c, keys).jar[x] == c.jar[x]
    decreases |keys|
  {
    if keys != [] {
      AckAt(c, keys[..|keys| - 1], k);
      assert keys == keys[..|keys| - 1] + [keys[|keys| - 1]];
    }
  }

  lemma PushOneAt(c: Client, w: WireEntry, k: string)
    ensures KeyOf(w) != k ==> (k in PushOne(c, w).dirty <==> k in c.dirty) && ClientView(PushOne(c, w), k) == ClientView(c, k)
    ensures KeyOf(w) == k ==> k !in PushOne(c, w).dirty
    ensures k !in c.dirty ==> k !in PushOne(c, w).dirty
  {
    hide KeyOf, Wanted;
  }

  lemma PushesKeyStep(ws: seq<WireEntry>, k: string)
    requires ws != []
    ensures PushesKey(ws, k) <==> PushesKey(ws[..|ws| - 1], k) || KeyOf(ws[|ws| - 1]) == k
  {
    hide KeyOf;
    if i :| 0 <= i < |ws| && KeyOf(ws[i]) == k {
      assert i < |ws| - 1 ==> KeyOf(ws[..|ws| - 1][i]) == k;
    }
    var init := ws[..|ws| - 1];
    if i :| 0 <= i < |init| && KeyOf(init[i]) == k {
      assert KeyOf(ws[i]) == k;
    }
  }

  lemma {:induction false} PushAt(c: Client, ws: seq<WireEntry>, k: string)
    ensures !PushesKey(ws, k) ==>
        (k in Push(c, ws).dirty <==> k in c.dirty) && ClientView(Push(c, ws), k) == ClientView(c, k)
    ensures PushesKey(ws, k) ==> k !in Push(c, ws).dirty
    decreases |ws|
  {
    if ws != [] {
      hide KeyOf, PushOne, ClientView, PushesKey;
      PushAt(c, ws[..|ws| - 1], k);
      PushesKeyStep(ws, k);
      PushOneAt(Push(c, ws[..|ws| - 1]), ws[|ws| - 1], k);
    }
  }

  lemma {:induction false} PushKeepsSound(c: Client, ws: seq<WireEntry>)
    requires SoundJar(c.jar) && SoundEntries(ws)
    ensures SoundJar(Push(c, ws).jar)
    decreases |ws|
  {
    if ws != [] {
      PushKeepsSound(c, ws[..|ws| - 1]);
      assert Sound(ws[|ws| - 1]);
    }
  }

  // ----- sound states stay sound -----

  lemma TombstoneIsSound(w: WireEntry)
    requires Sound(w)
    ensures Sound(TombstoneOf(w))
  {
    assert KeyOf(TombstoneOf(w)) == KeyOf(w);
  }

  lemma SetCookieKeepsSound(c: Client, w: WireEntry, now: int)
    requires SoundJar(c.jar) && Sound(w)
    ensures SoundJar(SetCookie(c, w, now).jar)
  {
    TombstoneIsSound(w);
    if KeyOf(w) in c.jar { TombstoneIsSound(c.jar[KeyOf(w)]); }
  }

  lemma SweepKeepsSound(c: Client, now: int)
    requires SoundJar(c.jar)
    ensures SoundJar(Sweep(c, now).jar)
  {
    forall k | k in c.jar ensures Sound(TombstoneOf(c.jar[k])) {
      TombstoneIsSound(c.jar[k]);
    }
  }

  lemma ReceiveKeepsSound(c: Client, r: Response)
    requires Valid(c) && SoundJar(c.jar) && SoundEntries(r.push)
    ensures Valid(Handle(c, r)) && SoundJar(Handle(c, r).jar)
  {
    var keys := SplitAck(r.ack);
    AckKeepsValid(c, keys);
    AckAt(c, keys, "");
    PushKeepsValid(Ack(c, keys), r.push);
    PushKeepsSound(Ack(c, keys), r.push);
  }

  lemma PayloadIsSound(s: State, order: seq<string>)
    requires SoundState(s) && multiset(order) == multiset(s.client.dirty)
    ensures SoundMessages(Payload(s, order))
  {
    hide KeyOf, LookUp;
    PayloadCoversDirty(s.client, order, LookUp(s.client.jar, order));
  }

  lemma PageStepStaysSound(s: State, site: Site, step: Step)
    requires SoundState(s) && Enabled(s, site, step) && Disciplined(s, site, step)
    requires step.Write? || step.Clean? || step.Send? || step.Again? || step.Deliver?
    ensures SoundState(Next(s, site, step))
  {
    match step {
      case Write(w, now) =>
        SetCookieKeepsValid(s.client, w, now);
        SetCookieKeepsSound(s.client, w, now);
      case Clean(now) =>
        SweepKeepsValid(s.client, now);
        SweepKeepsSound(s.client, now);
      case Send(order, _) => PayloadIsSound(s, order);
      case Again(response) => ReceiveKeepsSound(s.client, response);
      case Deliver(response) => ReceiveKeepsSound(s.client, response);
    }
  }

  lemma AdvanceStaysSound(job: Job)
    requires SoundJob(job) && job.todo != []
    ensures SoundJob(Advance(job))
  {
    assert Sound(job.todo[0].w);
  }

  // What applying an entry does to page and messages.
  lemma ApplyBags(s: State, home: bool, job: Job, slot: Slot, r: AddResult, evicted: set<Slot>)
    requires job.todo != []
    ensures var t := AfterApply(s, home, job, slot, r, evicted);
            && t.client == s.client && t.requests == s.requests && t.responses == s.responses
            && forall j :: j in t.jobs ==> j in s.jobs || j == Advance(job)
  {
    hide KeyOf, Advance;
  }

  lemma ApplyStaysSound(s: State, home: bool, job: Job, slot: Slot, r: AddResult, evicted: set<Slot>)
    requires SoundState(s) && job in s.jobs && job.todo != []
    ensures SoundState(AfterApply(s, home, job, slot, r, evicted))
  {
    hide KeyOf, Valid, SoundJar, SoundJob, SoundMessages, SoundEntries, AfterApply;
    AdvanceStaysSound(job);
    ApplyBags(s, home, job, slot, r, evicted);
  }

  lemma OriginStaysSound(s: State, job: Job, w: WireEntry, slot: Slot, r: AddResult)
    requires SoundState(s) && job in s.jobs && job.todo == [] && Sound(w)
    ensures SoundState(AfterOrigin(s, job, w, slot, r))
  {
    assert SoundJob(job);
    assert SoundJob(WithPush(job, w));
    assert forall j :: j in AfterOrigin(s, job, w, slot, r).jobs ==> j in s.jobs || j == WithPush(job, w);
  }

  // Messages that only go away, or turn into what they carry.
  lemma FewerMessagesStaySound(s: State, t: State)
    requires SoundState(s) && t.client == s.client
    requires t.requests <= s.requests && t.jobs <= s.jobs && t.responses <= s.responses
    ensures SoundState(t)
  {
    forall r | r in t.requests ensures SoundMessages(r.entries) { assert r in s.requests; }
    forall j | j in t.jobs ensures SoundJob(j) { assert j in s.jobs; }
    forall p | p in t.responses ensures SoundEntries(p.push) { assert p in s.responses; }
  }

  lemma AcceptStaysSound(s: State, request: Request)
    requires SoundState(s) && request in s.requests
    ensures SoundState(s.(requests := s.requests - multiset{request}, jobs := s.jobs + multiset{Started(request)}))
  {
    assert SoundJob(Started(request));
  }

  lemma ReplyStaysSound(s: State, job: Job, response: Response)
    requires SoundState(s) && SoundEntries(response.push)
    ensures SoundState(s.(jobs := s.jobs - multiset{job}, responses := s.responses + multiset{response}))
  {
  }

  lemma SoundStaysSound(s: State, site: Site, step: Step)
    requires SoundState(s) && Enabled(s, site, step) && Disciplined(s, site, step)
    ensures SoundState(Next(s, site, step))
  {
    match step {
      case Write(_, _) => PageStepStaysSound(s, site, step);
      case Clean(_) => PageStepStaysSound(s, site, step);
      case Send(_, _) => PageStepStaysSound(s, site, step);
      case Again(_) => PageStepStaysSound(s, site, step);
      case Deliver(_) => PageStepStaysSound(s, site, step);
      case Apply(job, now, victim) =>
        var w, target := job.todo[0].w, At(site, job.host);
        ApplyStaysSound(s, AtHome(site, job.host), job, SlotOfWire(target, w),
          AddTo(s.server, DecodeEntry(w), job.host, now, site.maxSize, victim),
          Evicted(s.server, DecodeEntry(w), target, now, victim));
      case Origin(job, cookie, now, victim) =>
        var w := EncodePush(cookie);
        OriginStaysSound(s, job, w, SlotOfWire(site, w), AddTo(s.server, cookie, job.host, now, site.maxSize, victim));
      case Accept(request) => AcceptStaysSound(s, request);
      case Reply(job) =>
        assert SoundJob(job);
        ReplyStaysSound(s, job, Response(JoinAck(job.acks), job.pushes));
      case ReplyBare(job) => ReplyStaysSound(s, job, Response("", []));
      case _ => FewerMessagesStaySound(s, Next(s, site, step));
    }
  }

  // A bag with one element exchanged.
  lemma Exchanged<T>(bag: multiset<T>, out: T, x: T)
    ensures forall y :: y in bag - multiset{out} + multiset{x} ==> y in bag || y == x
  {
  }

  // A step adds no request or handler but those given, and they are for the page's host or carry nothing.
  lemma BagsStayHome(s: State, t: State, site: Site, request: Request, job: Job)
    requires SentHome(s, site)
    requires forall r :: r in t.requests ==> r in s.requests || r == request
    requires forall j :: j in t.jobs ==> j in s.jobs || j == job
    requires request.entries != [] ==> AtHome(site, request.host)
    requires job.todo != [] || job.acks != [] ==> AtHome(site, job.host)
    ensures SentHome(t, site)
  {
    hide AtHome;
  }

  const NO_REQUEST := Request("", [])
  const NO_JOB := Job("", [], [], [])

  lemma ApplyStaysHome(s: State, site: Site, job: Job, slot: Slot, r: AddResult, evicted: set<Slot>)
    requires SentHome(s, site) && job in s.jobs && job.todo != []
    ensures SentHome(AfterApply(s, AtHome(site, job.host), job, slot, r, evicted), site)
  {
    hide KeyOf, AtHome, AfterApply, SentHome, Advance;
    ApplyBags(s, AtHome(site, job.host), job, slot, r, evicted);
    AdvanceHost(job);
    assert AtHome(site, job.host) by { JobSentHome(s, site, job); }
    BagsStayHome(s, AfterApply(s, AtHome(site, job.host), job, slot, r, evicted), site, NO_REQUEST, Advance(job));
  }

  lemma JobSentHome(s: State, site: Site, job: Job)
    requires SentHome(s, site) && job in s.jobs
    ensures job.todo != [] || job.acks != [] ==> AtHome(site, job.host)
  {
  }

  lemma OriginStaysHome(s: State, site: Site, job: Job, w: WireEntry, slot: Slot, r: AddResult)
    requires SentHome(s, site) && job in s.jobs
    ensures SentHome(AfterOrigin(s, job, w, slot, r), site)
  {
    hide AtHome, Differences, SentHome;
    Exchanged(s.jobs, job, WithPush(job, w));
    JobSentHome(s, site, job);
    BagsStayHome(s, AfterOrigin(s, job, w, slot, r), site, NO_REQUEST, WithPush(job, w));
  }

  lemma FewerStayHome(s: State, t: State, site: Site)
    requires SentHome(s, site) && t.requests <= s.requests && t.jobs <= s.jobs
    ensures SentHome(t, site)
  {
    hide AtHome, SentHome;
    assert forall r :: r in t.requests ==> r in s.requests;
    assert forall j :: j in t.jobs ==> j in s.jobs;
    BagsStayHome(s, t, site, NO_REQUEST, NO_JOB);
  }

  lemma SendStaysHome(s: State, site: Site, order: seq<string>, host: string)
    requires SentHome(s, site) && (order == [] || AtHome(site, host))
    ensures SentHome(s.(requests := s.requests + multiset{Request(host, Payload(s, order))}), site)
  {
    hide AtHome, SentHome, Payload;
    EmptyPayload(s, order);
    BagsStayHome(s, s.(requests := s.requests + multiset{Request(host, Payload(s, order))}), site, Request(host, Payload(s, order)), NO_JOB);
  }

  lemma AcceptStaysHome(s: State, site: Site, request: Request)
    requires SentHome(s, site) && request in s.requests
    ensures SentHome(s.(requests := s.requests - multiset{request}, jobs := s.jobs + multiset{Started(request)}), site)
  {
    hide AtHome, SentHome;
    RequestSentHome(s, site, request);
    var t := s.(requests := s.requests - multiset{request}, jobs := s.jobs + multiset{Started(request)});
    BagsStayHome(s, t, site, NO_REQUEST, Started(request));
  }

  lemma RequestSentHome(s: State, site: Site, request: Request)
    requires SentHome(s, site) && request in s.requests
    ensures request.entries != [] ==> AtHome(site, request.host)
  {
  }

  /** Under the discipline all messages that carry or acknowledge keys are for the page's own host. */
  lemma StaysSentHome(s: State, site: Site, step: Step)
    requires SentHome(s, site) && Enabled(s, site, step) && Disciplined(s, site, step)
    ensures SentHome(Next(s, site, step), site)
  {
    hide KeyOf, SlotOfWire, AtHome, AddTo, Evicts, Evicted, IsVictim, EncodePush, DecodeEntry, AfterApply, AfterOrigin, AfterClean,
      SentHome, Exposed, Sound, Payload, Started, SetCookie, Bump, Differences, Handle, JoinAck;
    match step {
      case Apply(job, now, victim) =>
        var w, target := job.todo[0].w, At(site, job.host);
        ApplyStaysHome(s, site, job, SlotOfWire(target, w), AddTo(s.server, DecodeEntry(w), job.host, now, site.maxSize, victim),
          Evicted(s.server, DecodeEntry(w), target, now, victim));
      case Origin(job, cookie, now, victim) =>
        var w := EncodePush(cookie);
        OriginStaysHome(s, site, job, w, SlotOfWire(site, w), AddTo(s.server, cookie, job.host, now, site.maxSize, victim));
      case Send(order, host) => SendStaysHome(s, site, order, host);
      case Accept(request) => AcceptStaysHome(s, site, request);
      case Clean(now) =>
        CleanKeepsMessages(s, site, now);
        FewerStayHome(s, AfterClean(s, site, now), site);
      case _ => FewerStayHome(s, Next(s, site, step), site);
    }
  }

  lemma AdvanceHost(job: Job)
    requires job.todo != []
    ensures Advance(job).host == job.host
  {
  }

  lemma EmptyPayload(s: State, order: seq<string>)
    ensures order == [] ==> Payload(s, order) == []
  {
  }

  lemma CleanKeepsMessages(s: State, site: Site, now: int)
    ensures var t := AfterClean(s, site, now);
            t.requests == s.requests && t.jobs == s.jobs && t.responses == s.responses && t.server == s.server
  {
  }

  // ----- the invariant at one cookie -----

  // From s to t nothing changes that the invariant of case c depends on, or only for the better.
  ghost predicate Moves(s: State, t: State, c: Case) {
    && t.Version(c.key) == s.Version(c.key)
    && (Untouched(t, c) ==> Untouched(s, c) && ClientView(t.client, c.key) == ClientView(s.client, c.key))
    && (Untouched(t, c) && Agree(s, c) ==> Agree(t, c))
    && (s.Settled(c.key) ==> t.Settled(c.key))
  }

  lemma MovesKeepsMessages(s: State, t: State, c: Case, ms: seq<Stamped>)
    requires Moves(s, t, c) && CarriesCurrent(s, c, ms)
    ensures CarriesCurrent(t, c, ms)
  {
  }

  lemma MovesKeepsJob(s: State, t: State, c: Case, j: Job)
    requires Moves(s, t, c) && JobInv(s, c, j)
    ensures JobInv(t, c, j)
  {
    MovesKeepsMessages(s, t, c, j.todo);
  }

  lemma MovesKeepsResponse(s: State, t: State, c: Case, p: Response)
    requires Moves(s, t, c) && ResponseInv(s, c, p)
    ensures ResponseInv(t, c, p)
  {
  }

  // The messages of t that were already there in s.
  lemma MovesKeepsBags(s: State, t: State, c: Case)
    requires Moves(s, t, c) && Inv(s, c)
    ensures forall r :: r in s.requests ==> CarriesCurrent(t, c, r.entries)
    ensures forall j :: j in s.jobs ==> JobInv(t, c, j)
    ensures forall p :: p in s.responses ==> ResponseInv(t, c, p)
  {
    forall r | r in s.requests ensures CarriesCurrent(t, c, r.entries) { MovesKeepsMessages(s, t, c, r.entries); }
    forall j | j in s.jobs ensures JobInv(t, c, j) { MovesKeepsJob(s, t, c, j); }
    forall p | p in s.responses ensures ResponseInv(t, c, p) { MovesKeepsResponse(s, t, c, p); }
  }

  // A step that leaves the page's store alone keeps the clean part of the invariant.
  lemma MovesKeepsClean(s: State, t: State, c: Case)
    requires Moves(s, t, c) && CleanInv(s, c)
    requires (c.key in t.client.dirty <==> c.key in s.client.dirty) && s.history.replaced <= t.history.replaced
    ensures CleanInv(t, c)
  {
  }

  // A write makes its key dirty, and by the discipline no message can acknowledge it.
  lemma RewriteKeepsInv(s: State, t: State, c: Case)
    requires SoundState(s) && Inv(s, c) && !Exposed(s, c.key)
    requires t.requests == s.requests && t.jobs == s.jobs && t.responses == s.responses
    requires t.history == s.history.(version := t.history.version, touched := t.history.touched)
    requires s.history.touched <= t.history.touched && t.Version(c.key) >= s.Version(c.key)
    requires c.key in t.client.dirty
    ensures Inv(t, c)
  {
    hide KeyOf, Wanted, ClientView, ServerView;
    forall r | r in t.requests ensures CarriesCurrent(t, c, r.entries) { assert !Mentions(r.entries, c.key); }
    forall j | j in t.jobs ensures JobInv(t, c, j) {
      assert JobInv(s, c, j) && SoundJob(j);
      assert j.pushes != [] || !Mentions(j.todo, c.key);
    }
    forall p | p in t.responses ensures ResponseInv(t, c, p) { assert ResponseInv(s, c, p); }
  }

  // A change of other keys.
  lemma OtherWriteKeepsInv(s: State, t: State, c: Case)
    requires Inv(s, c)
    requires t.requests == s.requests && t.jobs == s.jobs && t.responses == s.responses && t.server == s.server
    requires t.history == s.history.(version := t.history.version, touched := t.history.touched)
    requires s.history.touched <= t.history.touched && t.Version(c.key) == s.Version(c.key)
    requires c.key in t.client.dirty <==> c.key in s.client.dirty
    requires ClientView(t.client, c.key) == ClientView(s.client, c.key)
    ensures Inv(t, c)
  {
    MovesKeepsBags(s, t, c);
    MovesKeepsClean(s, t, c);
  }

  // An entry swept while a message for it is under way: the slot is given up, and the key is dirty.
  lemma SweptKeepsInv(s: State, t: State, c: Case)
    requires Inv(s, c)
    requires t.requests == s.requests && t.jobs == s.jobs && t.responses == s.responses
    requires t.history == s.history.(version := t.history.version, touched := t.history.touched)
    requires c.slot in t.history.touched && t.Version(c.key) == s.Version(c.key)
    requires c.key in t.client.dirty
    ensures Inv(t, c)
  {
    MovesKeepsBags(s, t, c);
  }

  lemma WriteKeepsInv(s: State, w: WireEntry, now: int, c: Case)
    requires SoundState(s) && Inv(s, c) && !Exposed(s, KeyOf(w))
    ensures Inv(s.(client := SetCookie(s.client, w, now), history := Bump(s.history, s, {KeyOf(w)})), c)
  {
    hide KeyOf, Inv;
    var t := s.(client := SetCookie(s.client, w, now), history := Bump(s.history, s, {KeyOf(w)}));
    if c.key == KeyOf(w) {
      RewriteKeepsInv(s, t, c);
    } else {
      OtherWriteKeepsInv(s, t, c);
    }
  }

  lemma CleanAt(s: State, site: Site, now: int, k: string)
    ensures var t, gone := AfterClean(s, site, now), k in ExpiredKeys(s.client, now);
            && t.Version(k) == s.Version(k) + (if gone && !Exposed(s, k) then 1 else 0)
            && (gone ==> k in t.client.dirty)
            && (gone && Exposed(s, k) ==> SlotOfWire(site, s.client.jar[k]) in t.history.touched)
            && (!gone ==> (k in t.client.dirty <==> k in s.client.dirty) && ClientView(t.client, k) == ClientView(s.client, k))
            && s.history.touched <= t.history.touched
            && t.history == s.history.(version := t.history.version, touched := t.history.touched)
  {
    hide KeyOf, SlotOfWire, Exposed, HasExpired;
  }

  lemma CleanKeepsInv(s: State, site: Site, now: int, x: WireEntry)
    requires SoundState(s) && Sound(x) && Inv(s, CaseOf(site, x))
    ensures Inv(AfterClean(s, site, now), CaseOf(site, x))
  {
    hide KeyOf, SlotOfWire, Inv, Sound, AfterClean, Exposed, HasExpired;
    var t, c := AfterClean(s, site, now), CaseOf(site, x);
    CleanAt(s, site, now, c.key);
    CleanKeepsMessages(s, site, now);
    if c.key !in ExpiredKeys(s.client, now) {
      OtherWriteKeepsInv(s, t, c);
    } else if Exposed(s, c.key) {
      CaseInjective(site, s.client.jar[c.key], x);
      SweptKeepsInv(s, t, c);
    } else {
      RewriteKeepsInv(s, t, c);
    }
  }

  lemma SendKeepsInv(s: State, order: seq<string>, host: string, c: Case)
    requires SoundState(s) && Inv(s, c) && multiset(order) == multiset(s.client.dirty)
    ensures Inv(s.(requests := s.requests + multiset{Request(host, Payload(s, order))}), c)
  {
    var t := s.(requests := s.requests + multiset{Request(host, Payload(s, order))});
    PayloadIsCurrent(s, order, c);
    MovesKeepsBags(s, t, c);
    MovesKeepsClean(s, t, c);
    MovesKeepsMessages(s, t, c, Payload(s, order));
  }

  lemma PayloadIsCurrent(s: State, order: seq<string>, c: Case)
    requires SoundState(s) && multiset(order) == multiset(s.client.dirty)
    ensures CarriesCurrent(s, c, Payload(s, order))
  {
    PayloadCoversDirty(s.client, order, LookUp(s.client.jar, order));
  }

  lemma FewerMessagesKeepInv(s: State, t: State, c: Case)
    requires Inv(s, c)
    requires t.client == s.client && t.server == s.server && t.history == s.history
    requires t.requests <= s.requests && t.jobs <= s.jobs && t.responses <= s.responses
    ensures Inv(t, c)
  {
    MovesKeepsBags(s, t, c);
    MovesKeepsClean(s, t, c);
    assert forall r :: r in t.requests ==> r in s.requests;
    assert forall j :: j in t.jobs ==> j in s.jobs;
    assert forall p :: p in t.responses ==> p in s.responses;
  }

  lemma AcceptKeepsInv(s: State, request: Request, c: Case)
    requires Inv(s, c) && request in s.requests
    ensures Inv(s.(requests := s.requests - multiset{request}, jobs := s.jobs + multiset{Started(request)}), c)
  {
    var t := s.(requests := s.requests - multiset{request}, jobs := s.jobs + multiset{Started(request)});
    MovesKeepsBags(s, t, c);
    MovesKeepsClean(s, t, c);
    assert JobInv(t, c, Started(request));
  }

  lemma ReplyKeepsInv(s: State, job: Job, response: Response, c: Case)
    requires Inv(s, c) && job in s.jobs && SoundJob(job)
    requires response == Response(JoinAck(job.acks), job.pushes) || response == Response("", [])
    ensures Inv(s.(jobs := s.jobs - multiset{job}, responses := s.responses + multiset{response}), c)
  {
    var t := s.(jobs := s.jobs - multiset{job}, responses := s.responses + multiset{response});
    MovesKeepsBags(s, t, c);
    MovesKeepsClean(s, t, c);
    assert JobInv(t, c, job);
    AckRoundTrip(job.acks);
    AckRoundTrip([]);
  }

  lemma ElsewhereKeepsInv(s: State, site: Site, step: Step, c: Case)
    requires Inv(s, c) && step.Elsewhere? && Enabled(s, site, step)
    ensures Inv(Next(s, site, step), c)
  {
    var t := Next(s, site, step);
    MovesKeepsBags(s, t, c);
    MovesKeepsClean(s, t, c);
  }

  // ----- AddCookie at one cookie -----

  // What AddCookie did to the slot of the entry it was given, and to every other slot.
  ghost predicate Effect(f: FlatJar, w: WireEntry, slot: Slot, r: AddResult, evicted: set<Slot>) {
    && (r.outcome.Stored? || r.outcome.Deleted? ==> ServerView(r.jar, slot) == Wanted(w))
    && (r.outcome.Ignored? || r.outcome.Panicked? ==> ServerView(r.jar, slot) == ServerView(f, slot))
    && (forall s :: s != slot && s !in evicted ==> ServerView(r.jar, s) == ServerView(f, s))
  }

  // What a stored entry shows is what the wire entry asked for.
  lemma StoredViewIsWanted(w: WireEntry, host: string, now: int, e: CookieEntry)
    requires e == NewEntry(DecodeEntry(w), host, now) && !IsTombstone(w)
    ensures Some(View(e.value, e.secure, e.httpOnly, e.expires, e.maxAge)) == Wanted(w)
  {
  }

  lemma AddHasEffect(f: FlatJar, site: Site, w: WireEntry, now: int, victim: Slot)
    requires Evicts(f, DecodeEntry(w), site.host, now, site.maxSize) ==> victim in f
    ensures Effect(f, w, SlotOfWire(site, w),
              AddTo(f, DecodeEntry(w), site.host, now, site.maxSize, victim),
              Evicted(f, DecodeEntry(w), site, now, victim))
  {
    var c := DecodeEntry(w);
    var r := AddTo(f, c, site.host, now, site.maxSize, victim);
    AddFrame(f, c, site.host, now, site.maxSize, victim);
    assert SlotFor(c, site.host) == SlotOfWire(site, w);
    assert r.outcome.Deleted? <==> IsTombstone(w);
    hide AddTo, NewEntry, DecodeEntry, SlotOfWire, SlotFor, Evicts;
    if r.outcome.Stored? { StoredViewIsWanted(w, site.host, now, r.jar[SlotOfWire(site, w)]); }
  }

  lemma ApplyMoves(s: State, c: Case, job: Job, slot: Slot, r: AddResult, evicted: set<Slot>)
    requires JobInv(s, c, job) && job.todo != []
    requires KeyOf(job.todo[0].w) == c.key <==> slot == c.slot
    requires Effect(s.server, job.todo[0].w, slot, r, evicted)
    ensures Moves(s, AfterApply(s, true, job, slot, r, evicted), c)
  {
    hide KeyOf, Wanted, ClientView, ServerView;
  }

  lemma ApplyConfirms(s: State, c: Case, job: Job, slot: Slot, r: AddResult, evicted: set<Slot>)
    requires CarriesCurrent(s, c, job.todo) && job.todo != []
    requires KeyOf(job.todo[0].w) == c.key && slot == c.slot
    requires Effect(s.server, job.todo[0].w, slot, r, evicted)
    ensures !r.outcome.Panicked? ==> Confirmed(AfterApply(s, true, job, slot, r, evicted), c)
  {
    hide KeyOf, Wanted, ClientView, ServerView;
  }

  lemma ApplyNoFuture(s: State, c: Case, job: Job, slot: Slot, r: AddResult, evicted: set<Slot>)
    requires NoFuture(s, c) && CarriesCurrent(s, c, job.todo) && job.todo != []
    ensures NoFuture(AfterApply(s, true, job, slot, r, evicted), c)
  {
    hide KeyOf, Wanted, ClientView;
  }

  lemma AdvanceKeepsJobInv(t: State, c: Case, job: Job)
    requires JobInv(t, c, job) && job.todo != []
    requires KeyOf(job.todo[0].w) == c.key ==> Confirmed(t, c)
    ensures JobInv(t, c, Advance(job))
  {
    hide KeyOf, Wanted, ClientView, ServerView;
  }

  lemma ApplyKeepsInv(s: State, c: Case, job: Job, slot: Slot, r: AddResult, evicted: set<Slot>)
    requires Inv(s, c) && job in s.jobs && job.todo != []
    requires KeyOf(job.todo[0].w) == c.key <==> slot == c.slot
    requires Effect(s.server, job.todo[0].w, slot, r, evicted)
    ensures Inv(AfterApply(s, true, job, slot, r, evicted), c)
  {
    hide KeyOf, JobInv, ResponseInv, CarriesCurrent, NoFuture, CleanInv, Moves, Effect, Confirmed;
    var t := AfterApply(s, true, job, slot, r, evicted);
    assert JobInv(s, c, job);
    JobCarriesCurrent(s, c, job);
    ApplyMoves(s, c, job, slot, r, evicted);
    if slot == c.slot { ApplyConfirms(s, c, job, slot, r, evicted); }
    ApplyNoFuture(s, c, job, slot, r, evicted);
    MovesKeepsBags(s, t, c);
    MovesKeepsClean(s, t, c);
    if !r.outcome.Panicked? {
      AdvanceKeepsJobInv(t, c, job);
      assert forall j :: j in t.jobs ==> j in s.jobs || j == Advance(job);
    }
  }

  lemma JobCarriesCurrent(s: State, c: Case, job: Job)
    requires JobInv(s, c, job)
    ensures CarriesCurrent(s, c, job.todo)
  {
  }

  lemma WithPushKeepsJobInv(t: State, c: Case, job: Job, w: WireEntry)
    requires JobInv(t, c, job) && (KeyOf(w) == c.key ==> !Untouched(t, c))
    ensures JobInv(t, c, WithPush(job, w))
  {
    hide KeyOf;
    PushesKeyStep(WithPush(job, w).pushes, c.key);
    assert WithPush(job, w).pushes[..|job.pushes|] == job.pushes;
  }

  lemma OriginKeepsInv(s: State, c: Case, job: Job, w: WireEntry, slot: Slot, r: AddResult)
    requires Inv(s, c) && job in s.jobs && job.todo == []
    requires KeyOf(w) == c.key ==> slot == c.slot
    ensures Inv(AfterOrigin(s, job, w, slot, r), c)
  {
    var t := AfterOrigin(s, job, w, slot, r);
    MovesKeepsBags(s, t, c);
    MovesKeepsClean(s, t, c);
    if r.outcome != Panicked {
      WithPushKeepsJobInv(t, c, job, w);
      assert forall j :: j in t.jobs ==> j in s.jobs || j == WithPush(job, w);
    }
  }

  lemma HandleAt(s: State, p: Response, k: string)
    ensures var t := AfterHandle(s, p);
            && t.Version(k) == s.Version(k)
            && (k in t.client.dirty <==> k in s.client.dirty && k !in SplitAck(p.ack) && !PushesKey(p.push, k))
            && (PushesKey(p.push, k) ==> (k, s.Version(k)) in t.history.replaced)
            && (!PushesKey(p.push, k) ==>
                  ClientView(t.client, k) == ClientView(s.client, k)
                  && forall v: nat :: (k, v) in t.history.replaced ==> (k, v) in s.history.replaced)
            && forall v: nat :: (k, v) in t.history.replaced ==> (k, v) in s.history.replaced || v == s.Version(k)
  {
    hide KeyOf, Ack, Push, ClientView, SplitAck;
    AckAt(s.client, SplitAck(p.ack), k);
    PushAt(Ack(s.client, SplitAck(p.ack)), p.push, k);
    if PushesKey(p.push, k) {
      var i :| 0 <= i < |p.push| && KeyOf(p.push[i]) == k;
      assert p.push[i] in p.push;
    }
  }

  lemma HandleKeepsInv(s: State, p: Response, c: Case)
    requires Inv(s, c) && p in s.responses
    ensures Inv(AfterHandle(s, p), c)
  {
    hide KeyOf, ClientView, ServerView, SplitAck, Handle, CarriesCurrent, JobInv, PushesKey;
    var t := AfterHandle(s, p);
    assert ResponseInv(s, c, p);
    HandleAt(s, p, c.key);
    MovesKeepsBags(s, t, c);
  }

  lemma DeliverKeepsInv(s: State, p: Response, c: Case)
    requires Inv(s, c) && p in s.responses
    ensures Inv(AfterDeliver(s, p), c)
  {
    hide Inv, AfterHandle;
    HandleKeepsInv(s, p, c);
    HandleKeepsBags(s, p);
    FewerMessagesKeepInv(AfterHandle(s, p), AfterDeliver(s, p), c);
  }

  lemma HandleKeepsBags(s: State, p: Response)
    ensures var t := AfterHandle(s, p);
            t.requests == s.requests && t.jobs == s.jobs && t.responses == s.responses && t.server == s.server
  {
  }

  // A handler's next AddCookie; its entries are for the page's own host.
  lemma ApplyStepKeepsInv(s: State, site: Site, job: Job, now: int, victim: Slot, x: WireEntry)
    requires SoundState(s) && SentHome(s, site) && Sound(x) && Inv(s, CaseOf(site, x))
    requires Enabled(s, site, Apply(job, now, victim))
    ensures Inv(Next(s, site, Apply(job, now, victim)), CaseOf(site, x))
  {
    hide KeyOf, Inv, Effect, AddTo, Evicts, Evicted, DecodeEntry, AfterApply, Sound, CanonicalDomain, EntryKey;
    var w, target := job.todo[0].w, At(site, job.host);
    assert AtHome(site, job.host);
    assert SoundJob(job) && Sound(w);
    CaseInjective(site, w, x);
    AddHasEffect(s.server, target, w, now, victim);
    ApplyKeepsInv(s, CaseOf(site, x), job, SlotOfWire(target, w), AddTo(s.server, DecodeEntry(w), job.host, now, site.maxSize, victim),
      Evicted(s.server, DecodeEntry(w), target, now, victim));
  }

  lemma OriginStepKeepsInv(s: State, site: Site, job: Job, cookie: HttpCookie, now: int, victim: Slot, x: WireEntry)
    requires Sound(x) && Sound(EncodePush(cookie)) && Inv(s, CaseOf(site, x))
    requires Enabled(s, site, Origin(job, cookie, now, victim))
    ensures Inv(Next(s, site, Origin(job, cookie, now, victim)), CaseOf(site, x))
  {
    hide KeyOf, SlotOfWire, Inv, AddTo, Evicts, IsVictim, EncodePush, AfterOrigin, Sound;
    var w := EncodePush(cookie);
    CaseInjective(site, w, x);
    OriginKeepsInv(s, CaseOf(site, x), job, w, SlotOfWire(site, w), AddTo(s.server, cookie, job.host, now, site.maxSize, victim));
  }

  /** Every disciplined step keeps the invariant of every cookie. */
  lemma StepKeepsInv(s: State, site: Site, step: Step, x: WireEntry)
    requires SoundState(s) && SentHome(s, site) && Sound(x) && Inv(s, CaseOf(site, x))
    requires Enabled(s, site, step) && Disciplined(s, site, step)
    ensures Inv(Next(s, site, step), CaseOf(site, x))
  {
    hide KeyOf, SlotOfWire, Inv, AddTo, Evicts, Evicted, IsVictim, AfterApply, AfterOrigin, AfterClean, EncodePush, DecodeEntry, JoinAck,
      Sound, Exposed, AfterHandle, AfterDeliver, Differences;
    var c := CaseOf(site, x);
    match step {
      case Write(w, now) => WriteKeepsInv(s, w, now, c);
      case Clean(now) => CleanKeepsInv(s, site, now, x);
      case Send(order, host) => SendKeepsInv(s, order, host, c);
      case Apply(job, now, victim) => ApplyStepKeepsInv(s, site, job, now, victim, x);
      case Origin(job, cookie, now, victim) => OriginStepKeepsInv(s, site, job, cookie, now, victim, x);
      case Elsewhere(_) => ElsewhereKeepsInv(s, site, step, c);
      case Accept(request) => AcceptKeepsInv(s, request, c);
      case Reply(job) =>
        assert SoundJob(job);
        ReplyKeepsInv(s, job, Response(JoinAck(job.acks), job.pushes), c);
      case ReplyBare(job) =>
        assert SoundJob(job);
        ReplyKeepsInv(s, job, Response("", []), c);
      case Again(p) => HandleKeepsInv(s, p, c);
      case Deliver(p) => DeliverKeepsInv(s, p, c);
      case _ => FewerMessagesKeepInv(s, Next(s, site, step), c);
    }
  }

  // ----- over every disciplined run -----

  lemma {:induction false} RunKeepsInv(s: State, site: Site, steps: seq<Step>, t: State, x: WireEntry)
    requires Start(s, site) && Run(s, site, steps, t) && Sound(x)
    ensures SoundState(t) && SentHome(t, site) && Inv(t, CaseOf(site, x))
    decreases |steps|
  {
    if steps == [] {
      assert Untouched(s, CaseOf(site, x)) ==> Agree(s, CaseOf(site, x));
    } else {
      var init, last := steps[..|steps| - 1], steps[|steps| - 1];
      var m :| Run(s, site, init, m) && Enabled(m, site, last) && Disciplined(m, site, last) && t == Next(m, site, last);
      RunKeepsInv(s, site, init, m, x);
      SoundStaysSound(m, site, last);
      StaysSentHome(m, site, last);
      StepKeepsInv(m, site, last, x);
    }
  }

  /**
    No lost write: a key the page has written and that is no longer dirty has had its latest write
    taken over by the jar, or found expired on arrival, or given up for a pushed value. Entries may
    expire and be swept at any time; a sweep is a write of its own unless a message for the key is
    on its way.
   */
  lemma NoLostWrite(s: State, site: Site, steps: seq<Step>, t: State, x: WireEntry)
    requires Start(s, site) && Run(s, site, steps, t) && Sound(x)
    ensures var k := KeyOf(x);
            k !in t.client.dirty && t.Version(k) > 0 ==>
              || (k, t.Version(k)) in t.history.applied
              || (k, t.Version(k)) in t.history.late
              || (k, t.Version(k)) in t.history.replaced
  {
    RunKeepsInv(s, site, steps, t, x);
  }

  lemma DirtyShrinksOnDelivery(t: State, site: Site, step: Step, k: string)
    requires Enabled(t, site, step) && k in t.client.dirty && k !in Next(t, site, step).client.dirty
    ensures step.Again? || step.Deliver?
  {
    hide KeyOf, SlotOfWire, AddTo, Evicts, Evicted, JoinAck, Differences, Payload, Bump, Handle, EncodePush, DecodeEntry;
  }

  lemma DeliveryCleansSettled(c: Client, p: Response, k: string)
    requires k in c.dirty && k !in Handle(c, p).dirty
    ensures k in SplitAck(p.ack) || PushesKey(p.push, k)
  {
    AckAt(c, SplitAck(p.ack), k);
    PushAt(Ack(c, SplitAck(p.ack)), p.push, k);
  }

  /**
    A key leaves the dirty set only when the page handles a response, and then either the server has
    settled its latest write or the response pushes a value for it.
   */
  lemma LeavesDirtyOnlySettled(s: State, site: Site, steps: seq<Step>, t: State, step: Step, x: WireEntry)
    requires Start(s, site) && Run(s, site, steps, t) && Sound(x)
    requires Enabled(t, site, step)
    requires KeyOf(x) in t.client.dirty && KeyOf(x) !in Next(t, site, step).client.dirty
    ensures step.Again? || step.Deliver?
    ensures t.Settled(KeyOf(x)) || PushesKey(step.response.push, KeyOf(x))
  {
    hide KeyOf, SlotOfWire, AddTo, Evicts, Evicted, JoinAck, SplitAck, Differences, Payload, Bump, Handle, EncodePush, DecodeEntry, Start, Run, Sound;
    RunKeepsInv(s, site, steps, t, x);
    DirtyShrinksOnDelivery(t, site, step, KeyOf(x));
    DeliveryCleansSettled(t.client, step.response, KeyOf(x));
    assert ResponseInv(t, CaseOf(site, x), step.response);
  }

  /**
    Agreement: a clean key whose slot was changed by nothing but this page's own writes is held
    alike on both sides, whatever was lost, repeated or reordered on the way.
   */
  lemma CleanMeansEqual(s: State, site: Site, steps: seq<Step>, t: State, x: WireEntry)
    requires Start(s, site) && Run(s, site, steps, t) && Sound(x)
    requires KeyOf(x) !in t.client.dirty && SlotOfWire(site, x) !in t.history.touched
    ensures ServerView(t.server, SlotOfWire(site, x)) == ClientView(t.client, KeyOf(x))
  {
    RunKeepsInv(s, site, steps, t, x);
  }

  lemma DifferencesCoverViews(f: FlatJar, g: FlatJar, slot: Slot)
    ensures slot in Differences(f, g) || ServerView(f, slot) == ServerView(g, slot)
  {
  }

  /**
    The record of touched slots is complete: the view of any other slot changes only when a
    handler applies an entry for it, and then to what that entry asks for.
   */
  lemma UntouchedChangesOnlyBySync(s: State, site: Site, step: Step, slot: Slot)
    requires Enabled(s, site, step) && slot !in Next(s, site, step).history.touched
    requires ServerView(Next(s, site, step).server, slot) != ServerView(s.server, slot)
    ensures step.Apply? && slot == SlotOfWire(At(site, step.job.host), step.job.todo[0].w)
    ensures ServerView(Next(s, site, step).server, slot) == Wanted(step.job.todo[0].w)
  {
    hide KeyOf, AddTo, Evicts, EncodePush, DecodeEntry, CanonicalDomain, EntryKey, ServerView, Wanted;
    if step.Apply? {
      var job, now, victim := step.job, step.now, step.victim;
      var w, target := job.todo[0].w, At(site, job.host);
      AddHasEffect(s.server, target, w, now, victim);
      ApplyChangesOneSlot(s, AtHome(site, job.host), job, SlotOfWire(target, w),
        AddTo(s.server, DecodeEntry(w), job.host, now, site.maxSize, victim), Evicted(s.server, DecodeEntry(w), target, now, victim), slot);
    } else {
      DifferencesCoverViews(s.server, Next(s, site, step).server, slot);
    }
  }

  lemma ApplyChangesOneSlot(s: State, home: bool, job: Job, slot: Slot, r: AddResult, evicted: set<Slot>, other: Slot)
    requires job.todo != [] && Effect(s.server, job.todo[0].w, slot, r, evicted)
    requires other !in AfterApply(s, home, job, slot, r, evicted).history.touched
    ensures ServerView(r.jar, other) == ServerView(s.server, other)
         || (other == slot && ServerView(r.jar, other) == Wanted(job.todo[0].w))
  {
    hide KeyOf, ServerView, Wanted;
  }

  // The entry had expired when the server came to apply it.
  predicate TooLate(w: WireEntry, now: int) {
    w.e > 0 && now > w.e * SECOND
  }

  lemma IgnoredExactlyLate(f: FlatJar, w: WireEntry, host: string, now: int, maxSize: int, victim: Slot)
    ensures AddTo(f, DecodeEntry(w), host, now, maxSize, victim).outcome == Ignored <==> TooLate(w, now)
  {
  }

  /**
    The record of a write is made when its entry is applied for the page's own host, and is true:
    late exactly when the entry had expired by then, otherwise applied with the slot showing what
    the entry asks for, unless AddCookie panicked. Applying it for another host records nothing.
   */
  lemma RecordsAreTrue(s: State, site: Site, job: Job, now: int, victim: Slot)
    requires Enabled(s, site, Apply(job, now, victim))
    ensures var t, m := Next(s, site, Apply(job, now, victim)), job.todo[0];
            var write, home := {(KeyOf(m.w), m.version)}, AtHome(site, job.host);
            && t.history.late == s.history.late + (if home && TooLate(m.w, now) then write else {})
            && t.history.replaced == s.history.replaced && t.history.version == s.history.version
            && (t.history.applied == s.history.applied
                || (t.history.applied == s.history.applied + write && home && !TooLate(m.w, now)
                    && ServerView(t.server, SlotOfWire(site, m.w)) == Wanted(m.w)))
            && (home && !TooLate(m.w, now) && t.jobs != s.jobs - multiset{job} ==> t.history.applied == s.history.applied + write)
  {
    hide KeyOf, AddTo, Evicts, DecodeEntry, CanonicalDomain, EntryKey, ServerView, Wanted;
    var w, target := job.todo[0].w, At(site, job.host);
    var r, evicted := AddTo(s.server, DecodeEntry(w), job.host, now, site.maxSize, victim), Evicted(s.server, DecodeEntry(w), target, now, victim);
    AddHasEffect(s.server, target, w, now, victim);
    IgnoredExactlyLate(s.server, w, job.host, now, site.maxSize, victim);
    ApplyRecords(s, AtHome(site, job.host), job, SlotOfWire(target, w), r, evicted);
  }

  lemma ApplyRecords(s: State, home: bool, job: Job, slot: Slot, r: AddResult, evicted: set<Slot>)
    requires job.todo != [] && Effect(s.server, job.todo[0].w, slot, r, evicted)
    ensures var t, m := AfterApply(s, home, job, slot, r, evicted), job.todo[0];
            var write := {(KeyOf(m.w), m.version)};
            && t.history.late == s.history.late + (if home && r.outcome == Ignored then write else {})
            && t.history.applied == s.history.applied + (if home && (r.outcome == Stored || r.outcome == Deleted) then write else {})
            && (r.outcome == Stored || r.outcome == Deleted ==> ServerView(t.server, slot) == Wanted(m.w))
            && (r.outcome == Panicked <==> t.jobs == s.jobs - multiset{job})
  {
    hide KeyOf, ServerView, Wanted;
    var t := AfterApply(s, home, job, slot, r, evicted);
    if r.outcome != Panicked {
      assert Advance(job) in t.jobs && t.jobs[Advance(job)] == (s.jobs - multiset{job})[Advance(job)] + 1;
    }
  }
}
