/**
  What the discipline keeps possible: from every state it can reach, one more round brings page and
  server together.
 */
module SyncConverge {
  import opened Clock
  import opened NestedMap
  import opened JarModel
  import opened Wire
  import opened ShadowJar
  import opened SyncProtocol
  import opened SyncSafety
  import opened SyncLoss
  import opened SyncRound

  // ----- a handler's run and the loop of SyncRound -----

  function AllAt(n: nat, now: int): seq<int> {
    seq(n, i => now)
  }

  // Evictions that never happen need no choice.
  function NoVictims(n: nat): seq<Slot> {
    seq(n, i => ("", ""))
  }

  ghost function ServedAll(f: FlatJar, site: Site, ws: seq<WireEntry>, now: int): Served {
    Serve(f, site, DecodeAll(ws), AllAt(|ws|, now), NoVictims(|ws|))
  }

  ghost predicate Carries(job: Job, ws: seq<WireEntry>) {
    |job.todo| == |ws| && forall i :: 0 <= i < |ws| ==> job.todo[i].w == ws[i]
  }

  lemma ServedOneMore(f: FlatJar, site: Site, ws: seq<WireEntry>, now: int)
    requires ws != [] && !ServedAll(f, site, ws[..|ws| - 1], now).panicked
    ensures var n := |ws| - 1;
            var r := AddTo(ServedAll(f, site, ws[..n], now).jar, DecodeEntry(ws[n]), site.host, now, site.maxSize, ("", ""));
            r.outcome != Panicked ==> ServedAll(f, site, ws, now).jar == r.jar
  {
    hide AddTo;
    var n := |ws| - 1;
    assert DecodeAll(ws)[..n] == DecodeAll(ws[..n]);
    assert AllAt(|ws|, now)[..n] == AllAt(n, now) && NoVictims(|ws|)[..n] == NoVictims(n);
  }

  // One Apply step of a handler for the page's own host.
  lemma ApplyStep(m: State, site: Site, job: Job, now: int)
    requires job in m.jobs && job.host == site.host && job.todo != [] && |m.server| < site.maxSize
    requires AddTo(m.server, DecodeEntry(job.todo[0].w), site.host, now, site.maxSize, ("", "")).outcome != Panicked
    ensures var apply := Apply(job, now, ("", ""));
            && Enabled(m, site, apply) && Advance(job) in Next(m, site, apply).jobs
            && Next(m, site, apply).client == m.client
            && Next(m, site, apply).server == AddTo(m.server, DecodeEntry(job.todo[0].w), site.host, now, site.maxSize, ("", "")).jar
  {
    hide KeyOf, AddTo, DecodeEntry, SlotOfWire, Advance, AtHome;
  }

  /** The handler of a request with `ws` can apply its first n entries, as the loop does. */
  lemma {:induction false} ApplyRun(m: State, site: Site, job: Job, ws: seq<WireEntry>, n: nat, now: int) returns (steps: seq<Step>, v: State)
    requires job in m.jobs && job.host == site.host && job.acks == [] && job.pushes == [] && Carries(job, ws) && n <= |ws|
    requires SoundEntries(ws) && DistinctKeys(ws) && AllInTime(ws, AllAt(|ws|, now))
    requires |m.server| + |ws| <= site.maxSize
    ensures Run(m, site, steps, v) && v.client == m.client
    ensures Job(job.host, job.todo[n..], KeysOf(ws[..n]), []) in v.jobs
    ensures v.server == ServedAll(m.server, site, ws[..n], now).jar
    decreases n
  {
    hide KeyOf, AddTo, DecodeEntry, Sound, Serve, Run, Enabled, Next, Advance;
    if n == 0 {
      assert job.todo[0..] == job.todo && Job(job.host, job.todo, [], []) == job;
      assert KeysOf(ws[..0]) == [];
      ServedNothing(m.server, site, now);
      assert ws[..0] == [];
      RunNothing(m, site);
      steps, v := [], m;
    } else {
      var first, u := ApplyRun(m, site, job, ws, n - 1, now);
      var now1 := Job(job.host, job.todo[n - 1..], KeysOf(ws[..n - 1]), []);
      var init, head := ws[..n - 1], ws[n - 1];
      assert ws[..n][..n - 1] == init && ws[..n][n - 1] == head;
      PrefixServes(m.server, site, ws, n - 1, now);
      assert now1.todo[0] == job.todo[n - 1] && head.e > 0 ==> AllAt(|ws|, now)[n - 1] <= head.e * SECOND;
      ServeOne(u.server, site, head, now, ("", ""));
      ApplyStep(u, site, now1, now);
      RunMore(m, site, first, u, Apply(now1, now, ("", "")));
      steps, v := first + [Apply(now1, now, ("", ""))], Next(u, site, Apply(now1, now, ("", "")));
      ServedOneMore(m.server, site, ws[..n], now);
      ServeKeys(ws[..n]);
      assert Advance(now1) == Job(job.host, job.todo[n..], KeysOf(ws[..n]), []) by { AdvanceIs(now1); }
    }
  }

  lemma AdvanceIs(job: Job)
    requires job.todo != []
    ensures Advance(job) == Job(job.host, job.todo[1..], job.acks + [KeyOf(job.todo[0].w)], job.pushes)
  {
  }

  lemma ServedNothing(f: FlatJar, site: Site, now: int)
    ensures ServedAll(f, site, [], now) == Served(f, [], false)
  {
  }

  // After a prefix there is still room, and no panic.
  lemma PrefixServes(f: FlatJar, site: Site, ws: seq<WireEntry>, n: nat, now: int)
    requires SoundEntries(ws) && DistinctKeys(ws) && AllInTime(ws, AllAt(|ws|, now)) && n <= |ws|
    requires |f| + |ws| <= site.maxSize
    ensures var r := ServedAll(f, site, ws[..n], now); !r.panicked && |r.jar| <= |f| + n
  {
    hide KeyOf, Sound, Serve;
    var init := ws[..n];
    assert forall i :: 0 <= i < n ==> init[i] == ws[i] && AllAt(|ws|, now)[i] == AllAt(n, now)[i] == now;
    ServeAppliesAll(f, site, init, AllAt(n, now), NoVictims(n));
  }

  // ----- from every reachable state -----

  lemma PayloadWires(t: State, order: seq<string>)
    ensures var p := Payload(t, order);
            |p| == |LookUp(t.client.jar, order)| && forall i :: 0 <= i < |p| ==> p[i].w == LookUp(t.client.jar, order)[i]
  {
    hide KeyOf, LookUp;
  }

  // Send and accept.
  lemma RoundOpens(t: State, site: Site, order: seq<string>) returns (steps: seq<Step>, u: State)
    requires multiset(order) == multiset(t.client.dirty)
    ensures Run(t, site, steps, u) && u.client == t.client && u.server == t.server
    ensures Started(Request(site.host, Payload(t, order))) in u.jobs
  {
    hide KeyOf, Run, Payload, Started;
    var request := Request(site.host, Payload(t, order));
    var send, m := Send(order, site.host), Next(t, site, Send(order, site.host));
    RunNothing(t, site);
    RunMore(t, site, [], t, send);
    RunMore(t, site, [] + [send], m, Accept(request));
    steps, u := [] + [send] + [Accept(request)], Next(m, site, Accept(request));
  }

  // Reply and deliver.
  lemma RoundCloses(t: State, site: Site, keys: seq<string>) returns (steps: seq<Step>, u: State)
    requires Job(site.host, [], keys, []) in t.jobs
    ensures Run(t, site, steps, u) && u.server == t.server && u.client == Ack(t.client, SplitAck(JoinAck(keys)))
  {
    hide Run, JoinAck, SplitAck, Ack, AfterDeliver;
    var done, p := Job(site.host, [], keys, []), Response(JoinAck(keys), []);
    RunNothing(t, site);
    ReplyMore(t, site, [], t, done);
    var m := t.(jobs := t.jobs - multiset{done}, responses := t.responses + multiset{p});
    DeliverMore(t, site, [] + [Reply(done)], m, p);
    NothingToPush(m, p);
    steps, u := [] + [Reply(done)] + [Deliver(p)], AfterDeliver(m, p);
  }

  // The round, step by step: send, accept, apply, reply, deliver.
  lemma RoundRun(t: State, site: Site, order: seq<string>, ws: seq<WireEntry>, now: int) returns (steps: seq<Step>, u: State)
    requires multiset(order) == multiset(t.client.dirty) && ws == LookUp(t.client.jar, order)
    requires SoundEntries(ws) && DistinctKeys(ws) && AllInTime(ws, AllAt(|ws|, now))
    requires |t.server| + |ws| <= site.maxSize
    ensures Run(t, site, steps, u)
    ensures u.server == ServedAll(t.server, site, ws, now).jar
    ensures u.client == Ack(t.client, SplitAck(JoinAck(KeysOf(ws))))
  {
    hide KeyOf, Sound, Run, LookUp, DistinctKeys, Payload, Serve, KeysOf, JoinAck, SplitAck, Ack;
    PayloadWires(t, order);
    var opens, m := RoundOpens(t, site, order);
    var job := Started(Request(site.host, Payload(t, order)));
    var applies, n := ApplyRun(m, site, job, ws, |ws|, now);
    assert ws[..|ws|] == ws && job.todo[|ws|..] == [];
    var closes;
    closes, u := RoundCloses(n, site, KeysOf(ws));
    RunAppend(t, site, opens, m, applies, n);
    RunAppend(t, site, opens + applies, n, closes, u);
    steps := opens + applies + closes;
  }

  lemma NothingToPush(s: State, p: Response)
    requires p.push == []
    ensures AfterDeliver(s, p).client == Ack(s.client, SplitAck(p.ack)) && AfterDeliver(s, p).server == s.server
  {
    hide SplitAck, Ack;
  }

  /**
    Convergence: from every state a disciplined run can reach, whatever was lost, repeated or left
    unanswered on the way, if the jar has room for the dirty keys and none of their entries has
    expired, some disciplined run empties the dirty set and leaves every key that was dirty held
    alike by the page and the server, touched or not.
   */
  lemma Converges(s: State, site: Site, steps: seq<Step>, t: State, order: seq<string>, now: int) returns (more: seq<Step>, u: State)
    requires Start(s, site) && Run(s, site, steps, t) && multiset(order) == multiset(t.client.dirty)
    requires |t.server| + |t.client.dirty| <= site.maxSize
    requires forall k :: k in t.client.dirty && k in t.client.jar ==> !TooLate(t.client.jar[k], now)
    ensures Run(t, site, more, u)
    ensures Completed(t.client, t.server, site, Served(u.server, order, false), u.client)
  {
    hide Start, Run, KeyOf, Sound, LookUp, Completed, Serve, Ack, JoinAck, SplitAck, SoundJar, Valid, KeysOf;
    var ws := LookUp(t.client.jar, order);
    RunKeepsSound(s, site, steps, t);
    DirtyPayload(t.client, order, now);
    more, u := RoundRun(t, site, order, ws, now);
    LosslessRound(t.client, t.server, site, site, order, ws, AllAt(|ws|, now), NoVictims(|ws|));
    ServedKeys(t.server, site, ws, now);
    CompletedWithout(t.client, t.server, site, ServedAll(t.server, site, ws, now), Served(u.server, order, false), u.client);
  }

  lemma CompletedWithout(c: Client, f: FlatJar, site: Site, served: Served, other: Served, after: Client)
    requires Completed(c, f, site, served, after) && other.jar == served.jar && !other.panicked
    ensures Completed(c, f, site, other, after)
  {
  }

  lemma ServedKeys(f: FlatJar, site: Site, ws: seq<WireEntry>, now: int)
    requires SoundEntries(ws) && DistinctKeys(ws) && AllInTime(ws, AllAt(|ws|, now)) && |f| + |ws| <= site.maxSize
    ensures ServedAll(f, site, ws, now).keys == KeysOf(ws)
  {
    hide KeyOf, Sound, Serve;
    ServeAppliesAll(f, site, ws, AllAt(|ws|, now), NoVictims(|ws|));
  }

  // Soundness needs no cookie to look at; any will do.
  lemma RunKeepsSound(s: State, site: Site, steps: seq<Step>, t: State)
    requires Start(s, site) && Run(s, site, steps, t)
    ensures Valid(t.client) && SoundJar(t.client.jar)
  {
    hide Start, Run;
    var x := WireEntry("a", "", "/", 0, false, false);
    assert Sound(x) by { assert KeyOf(x) == "a|/"; }
    RunKeepsInv(s, site, steps, t, x);
  }

  lemma DirtyPayload(c: Client, order: seq<string>, now: int)
    requires Valid(c) && SoundJar(c.jar) && multiset(order) == multiset(c.dirty)
    requires forall k :: k in c.dirty && k in c.jar ==> !TooLate(c.jar[k], now)
    ensures var ws := LookUp(c.jar, order);
            && IsPayload(c, order, ws) && SoundEntries(ws) && DistinctKeys(ws) && |ws| == |c.dirty|
            && AllInTime(ws, AllAt(|ws|, now))
  {
    hide KeyOf, LookUp;
    var ws := LookUp(c.jar, order);
    PayloadIsSoundAndDistinct(c, order, ws);
    PayloadCoversDirty(c, order, ws);
    EnumerationOnce(order, c.dirty);
    assert |order| == |multiset(order)| == |c.dirty|;
  }
}
