/**
  The discipline of the synchronisation protocol is exact: in every state it can reach, a write, or
  a request with a write not settled yet, can lose that write if and only if it breaks the
  discipline.
 */
module SyncLoss {
  import opened Matching
  import opened Cookies
  import opened JarModel
  import opened Wire
  import opened ShadowJar
  import opened SyncProtocol
  import opened SyncSafety

  // The page holds the key for clean, and nothing became of its latest write.
  predicate Lost(s: State, key: string) {
    key !in s.client.dirty && !s.Recorded(key)
  }

  // The steps that read a clock, the page's in milliseconds, read no instant before `now`.
  ghost predicate NotBefore(steps: seq<Step>, now: int) {
    forall i :: 0 <= i < |steps| ==>
      && (steps[i].Apply? || steps[i].Origin? ==> steps[i].now >= now)
      && (steps[i].Write? || steps[i].Clean? ==> steps[i].now * 1_000_000 >= now)
  }

  // From u the latest write of `key` can still get lost, although the page is disciplined from here on.
  ghost predicate CanLose(u: State, site: Site, key: string, now: int) {
    exists steps, v :: Run(u, site, steps, v) && NotBefore(steps, now) && Lost(v, key)
  }

  // ----- putting runs together -----

  lemma RunMore(s: State, site: Site, steps: seq<Step>, m: State, step: Step)
    requires Run(s, site, steps, m) && Enabled(m, site, step) && Disciplined(m, site, step)
    ensures Run(s, site, steps + [step], Next(m, site, step))
  {
    hide Enabled, Disciplined, Next;
    var all := steps + [step];
    assert all[..|all| - 1] == steps && all[|all| - 1] == step;
    assert Run(s, site, all[..|all| - 1], m);
  }

  lemma RunNothing(s: State, site: Site)
    ensures Run(s, site, [], s)
  {
  }

  lemma {:induction false} RunAppend(s: State, site: Site, a: seq<Step>, m: State, b: seq<Step>, t: State)
    requires Run(s, site, a, m) && Run(m, site, b, t)
    ensures Run(s, site, a + b, t)
    decreases |b|
  {
    hide Enabled, Disciplined, Next;
    if b == [] {
      assert a + b == a;
    } else {
      var init, last := b[..|b| - 1], b[|b| - 1];
      var n :| Run(m, site, init, n) && Enabled(n, site, last) && Disciplined(n, site, last) && t == Next(n, site, last);
      RunAppend(s, site, a, m, init, n);
      RunMore(s, site, a + init, n, last);
      assert a + init + [last] == a + b;
    }
  }

  // One step in front of a run.
  lemma RunFirst(s: State, site: Site, step: Step, steps: seq<Step>, t: State)
    requires Enabled(s, site, step) && Disciplined(s, site, step) && Run(Next(s, site, step), site, steps, t)
    ensures Run(s, site, [step] + steps, t)
  {
    hide Enabled, Disciplined, Next, Run;
    RunNothing(s, site);
    RunMore(s, site, [], s, step);
    assert [] + [step] == [step];
    RunAppend(s, site, [step], Next(s, site, step), steps, t);
  }

  lemma DeliverMore(s: State, site: Site, steps: seq<Step>, m: State, p: Response)
    requires Run(s, site, steps, m) && p in m.responses
    ensures Run(s, site, steps + [Deliver(p)], AfterDeliver(m, p))
  {
    hide Run, AfterDeliver;
    RunMore(s, site, steps, m, Deliver(p));
  }

  lemma ReplyMore(s: State, site: Site, steps: seq<Step>, m: State, job: Job)
    requires Run(s, site, steps, m) && job in m.jobs && job.todo == []
    ensures Run(s, site, steps + [Reply(job)],
              m.(jobs := m.jobs - multiset{job}, responses := m.responses + multiset{Response(JoinAck(job.acks), job.pushes)}))
  {
    hide Run, JoinAck;
    RunMore(s, site, steps, m, Reply(job));
  }

  // ----- from a message under way to a lost write -----

  // Entries for `key` that carry an older write than the latest.
  ghost predicate Outdated(ms: seq<Stamped>, key: string, latest: nat) {
    forall i :: 0 <= i < |ms| && KeyOf(ms[i].w) == key ==> ms[i].version != latest
  }

  lemma DeliveryLoses(u: State, site: Site, key: string, p: Response) returns (v: State)
    requires p in u.responses && key in SplitAck(p.ack) && !PushesKey(p.push, key) && !u.Recorded(key)
    ensures Run(u, site, [Deliver(p)], v) && Lost(v, key)
  {
    hide AfterHandle, PushesKey, SplitAck;
    RunNothing(u, site);
    RunMore(u, site, [], u, Deliver(p));
    assert [] + [Deliver(p)] == [Deliver(p)];
    v := Next(u, site, Deliver(p));
    HandleAt(u, p, key);
    DeliveryRecordsNoWrite(u, p);
  }

  lemma DeliveryRecordsNoWrite(u: State, p: Response)
    ensures AfterHandle(u, p).history.applied == u.history.applied && AfterHandle(u, p).history.late == u.history.late
  {
  }

  // Another tab or the API deletes whatever the jar holds; after that no handler panics.
  lemma ClearThenApply(u: State, site: Site, job: Job, key: string, now: int) returns (steps: seq<Step>, v: State)
    requires site.maxSize > 0 && job in u.jobs && job.todo != [] && !u.Recorded(key)
    requires !AtHome(site, job.host) || Outdated(job.todo, key, u.Version(key))
    ensures Run(u, site, steps, v) && NotBefore(steps, now) && Advance(job) in v.jobs
    ensures !v.Recorded(key) && v.Version(key) == u.Version(key)
  {
    hide KeyOf, AtHome, AddTo, DecodeEntry, SlotOfWire, Evicts, Evicted, Differences, AfterApply, Run;
    var clear, apply := Elsewhere(map[]), Apply(job, now, ("", ""));
    var m := Next(u, site, clear);
    EmptyJarTakesAll(DecodeEntry(job.todo[0].w), job.host, now, site.maxSize, ("", ""));
    v := Next(m, site, apply);
    var w, target := job.todo[0].w, At(site, job.host);
    ApplyAdvances(m, AtHome(site, job.host), job, SlotOfWire(target, w),
      AddTo(m.server, DecodeEntry(w), job.host, now, site.maxSize, ("", "")), Evicted(m.server, DecodeEntry(w), target, now, ("", "")));
    RecordsAreTrue(m, site, job, now, ("", ""));
    RunNothing(v, site);
    RunFirst(m, site, apply, [], v);
    RunFirst(u, site, clear, [apply] + [], v);
    steps := [clear] + ([apply] + []);
  }

  lemma EmptyJarTakesAll(c: HttpCookie, host: string, now: int, maxSize: int, victim: Slot)
    requires maxSize > 0
    ensures !Evicts(map[], c, host, now, maxSize) && AddTo(map[], c, host, now, maxSize, victim).outcome != Panicked
  {
  }

  lemma ApplyAdvances(s: State, home: bool, job: Job, slot: Slot, r: AddResult, evicted: set<Slot>)
    requires job.todo != [] && r.outcome != Panicked
    ensures Advance(job) in AfterApply(s, home, job, slot, r, evicted).jobs
  {
    hide KeyOf, Advance;
  }

  lemma AdvanceKeepsMention(job: Job, key: string, latest: nat)
    requires job.todo != [] && SoundJob(job) && (Mentions(job.todo, key) || key in job.acks)
    ensures SoundJob(Advance(job)) && Advance(job).host == job.host && !PushesKey(Advance(job).pushes, key)
    ensures Mentions(Advance(job).todo, key) || key in Advance(job).acks
    ensures Outdated(job.todo, key, latest) ==> Outdated(Advance(job).todo, key, latest)
  {
    hide KeyOf;
    AdvanceStaysSound(job);
    var k := KeyOf(job.todo[0].w);
    if key in job.acks {
      assert key in job.acks + [k];
    } else {
      var i :| 0 <= i < |job.todo| && KeyOf(job.todo[i].w) == key;
      if i == 0 {
        assert (job.acks + [k])[|job.acks|] == key;
      } else {
        assert job.todo[1..][i - 1] == job.todo[i];
      }
    }
  }

  /** A handler that will acknowledge `key` for an older write, or has applied it for another host, can lose the latest one. */
  lemma {:induction false} JobLoses(u: State, site: Site, job: Job, key: string, now: int) returns (steps: seq<Step>, v: State)
    requires site.maxSize > 0 && job in u.jobs && SoundJob(job) && !u.Recorded(key)
    requires (Mentions(job.todo, key) || key in job.acks) && !PushesKey(job.pushes, key)
    requires !AtHome(site, job.host) || Outdated(job.todo, key, u.Version(key))
    ensures Run(u, site, steps, v) && NotBefore(steps, now) && Lost(v, key)
    decreases |job.todo|
  {
    hide KeyOf, AtHome, JoinAck, SplitAck, PushesKey, Run, Outdated, Lost;
    if job.todo == [] {
      var p := Response(JoinAck(job.acks), job.pushes);
      var m := Next(u, site, Reply(job));
      AckRoundTrip(job.acks);
      v := DeliveryLoses(m, site, key, p);
      RunFirst(u, site, Reply(job), [Deliver(p)], v);
      steps := [Reply(job)] + [Deliver(p)];
    } else {
      AdvanceKeepsMention(job, key, u.Version(key));
      var first, m := ClearThenApply(u, site, job, key, now);
      var rest;
      rest, v := JobLoses(m, site, Advance(job), key, now);
      RunAppend(u, site, first, m, rest, v);
      steps := first + rest;
    }
  }

  lemma RequestLoses(u: State, site: Site, request: Request, key: string, now: int) returns (steps: seq<Step>, v: State)
    requires site.maxSize > 0 && request in u.requests && SoundMessages(request.entries) && !u.Recorded(key)
    requires Mentions(request.entries, key)
    requires !AtHome(site, request.host) || Outdated(request.entries, key, u.Version(key))
    ensures Run(u, site, steps, v) && NotBefore(steps, now) && Lost(v, key)
  {
    hide KeyOf, AtHome, Mentions, Run, Outdated, Lost;
    var m := Next(u, site, Accept(request));
    var rest;
    assert !PushesKey([], key);
    rest, v := JobLoses(m, site, Started(request), key, now);
    RunFirst(u, site, Accept(request), rest, v);
    steps := [Accept(request)] + rest;
  }

  // ----- the two halves of the discipline -----

  lemma DisciplinedKeepsWrites(s: State, site: Site, steps: seq<Step>, t: State, step: Step, x: WireEntry, now: int)
    requires Start(s, site) && Run(s, site, steps, t) && Sound(x)
    requires Enabled(t, site, step) && Disciplined(t, site, step)
    ensures !CanLose(Next(t, site, step), site, KeyOf(x), now)
  {
    hide Start, Run, Enabled, Disciplined, Next, KeyOf, Sound;
    RunMore(s, site, steps, t, step);
    forall more, v | Run(Next(t, site, step), site, more, v) ensures !Lost(v, KeyOf(x)) {
      RunAppend(s, site, steps + [step], Next(t, site, step), more, v);
      NoLostWrite(s, site, steps + [step] + more, v, x);
    }
  }

  lemma LosingRun(u: State, site: Site, steps: seq<Step>, v: State, key: string, now: int)
    requires Run(u, site, steps, v) && NotBefore(steps, now) && Lost(v, key)
    ensures CanLose(u, site, key, now)
  {
  }

  lemma AfterWrite(t: State, site: Site, w: WireEntry, now: int)
    requires NoFuture(t, CaseOf(site, w))
    ensures var u := Next(t, site, Write(w, now));
            && u.requests == t.requests && u.jobs == t.jobs && u.responses == t.responses
            && u.Version(KeyOf(w)) == t.Version(KeyOf(w)) + 1 && !u.Recorded(KeyOf(w))
  {
    hide KeyOf, SetCookie;
  }

  lemma CurrentIsOutdated(t: State, c: Case, ms: seq<Stamped>)
    requires CarriesCurrent(t, c, ms)
    ensures Outdated(ms, c.key, t.Version(c.key) + 1)
  {
    hide KeyOf;
  }

  /**
    Stop and wait is exact: in every state a disciplined run can reach, a write can be lost if and
    only if some message on its way can still acknowledge its key: a request, a handler, or a
    response with a listener still to run. The loss needs no clock that goes back: it can happen
    from whatever instant `later` on.
   */
  lemma RewriteLosesIff(s: State, site: Site, steps: seq<Step>, t: State, w: WireEntry, now: int, later: int)
    requires Start(s, site) && Run(s, site, steps, t) && Sound(w) && site.maxSize > 0
    ensures CanLose(Next(t, site, Write(w, now)), site, KeyOf(w), later) <==> Exposed(t, KeyOf(w))
  {
    hide Start, Run, Next, KeyOf, SlotOfWire, Sound, CanLose, Lost, SplitAck, Outdated, Mentions, PushesKey;
    if Exposed(t, KeyOf(w)) {
      var u, k := Next(t, site, Write(w, now)), KeyOf(w);
      RunKeepsInv(s, site, steps, t, w);
      AfterWrite(t, site, w, now);
      ExposedLoses(t, u, site, CaseOf(site, w), later);
    } else {
      DisciplinedKeepsWrites(s, site, steps, t, Write(w, now), w, later);
    }
  }

  lemma ExposedLoses(t: State, u: State, site: Site, c: Case, now: int)
    requires SoundState(t) && Inv(t, c) && Exposed(t, c.key) && site.maxSize > 0
    requires u.requests == t.requests && u.jobs == t.jobs && u.responses == t.responses
    requires u.Version(c.key) == t.Version(c.key) + 1 && !u.Recorded(c.key)
    ensures CanLose(u, site, c.key, now)
  {
    hide Run, KeyOf, CanLose, Lost, SplitAck, Outdated, Mentions, PushesKey, CarriesCurrent;
    var k := c.key;
    ghost var more, v;
    if r :| r in t.requests && Mentions(r.entries, k) {
      CurrentIsOutdated(t, c, r.entries);
      more, v := RequestLoses(u, site, r, k, now);
    } else if j :| j in t.jobs && (Mentions(j.todo, k) || k in j.acks) && !PushesKey(j.pushes, k) {
      assert JobInv(t, c, j);
      CurrentIsOutdated(t, c, j.todo);
      more, v := JobLoses(u, site, j, k, now);
    } else {
      var p :| p in t.responses && k in SplitAck(p.ack) && !PushesKey(p.push, k);
      v := DeliveryLoses(u, site, k, p);
      more := [Deliver(p)];
    }
    LosingRun(u, site, more, v, k, now);
  }

  lemma PayloadMentions(t: State, order: seq<string>, key: string)
    requires SoundState(t) && multiset(order) == multiset(t.client.dirty) && key in t.client.dirty
    ensures Mentions(Payload(t, order), key) && order != []
  {
    PayloadCoversDirty(t.client, order, LookUp(t.client.jar, order));
    assert key in multiset(order);
    var i :| 0 <= i < |order| && order[i] == key;
    assert KeyOf(Payload(t, order)[i].w) == key;
  }

  /**
    And so is sending dirty keys home: in every state a disciplined run can reach, a request that
    carries a write not settled yet can lose it if and only if it is for an origin whose domain is
    not the page's. The caller knows both hosts.
   */
  lemma SendLosesIff(s: State, site: Site, steps: seq<Step>, t: State, order: seq<string>, host: string, x: WireEntry, later: int)
    requires Start(s, site) && Run(s, site, steps, t) && Sound(x) && site.maxSize > 0
    requires Enabled(t, site, Send(order, host))
    requires KeyOf(x) in t.client.dirty && !t.Recorded(KeyOf(x))
    ensures CanLose(Next(t, site, Send(order, host)), site, KeyOf(x), later) <==> CanonicalDomain(host) != CanonicalDomain(site.host)
  {
    hide Start, Run, KeyOf, Sound, CanLose, Lost, Outdated, Mentions, PushesKey, Payload, CanonicalDomain;
    if AtHome(site, host) {
      DisciplinedKeepsWrites(s, site, steps, t, Send(order, host), x, later);
    } else {
      RunKeepsInv(s, site, steps, t, x);
      PayloadIsSound(t, order);
      PayloadMentions(t, order, KeyOf(x));
      var u, request := Next(t, site, Send(order, host)), Request(host, Payload(t, order));
      assert request in u.requests;
      var more, v := RequestLoses(u, site, request, KeyOf(x), later);
      LosingRun(u, site, more, v, KeyOf(x), later);
    }
  }
}
