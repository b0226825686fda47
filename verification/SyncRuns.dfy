/**
  Runs of the synchronisation protocol that leave the two sides different: a write lost to an old
  acknowledgement, or to one handled twice, a write that went to another host, an old value that
  outlives its replacement, and a value pushed by another host.
 */
module SyncRuns {
  import opened Clock
  import opened Matching
  import opened Cookies
  import opened JarModel
  import opened Wire
  import opened ShadowJar
  import opened SyncProtocol
  import opened SyncSafety
  import opened SyncLoss
  import opened SyncRound
  import opened Wrappers

  // ----- a page with nothing under way -----

  // A page that has not written anything, and the jar it was loaded from.
  function Idle(client: Client, server: FlatJar): State {
    State(client, server, multiset{}, multiset{}, multiset{}, History(map[], {}, {}, {}, {}))
  }

  const EMPTY := Idle(Client(map[], {}), map[])

  lemma EmptyStarts(site: Site)
    ensures Start(EMPTY, site)
  {
  }

  // A page that was given one cookie, a session cookie the jar holds.
  function OneCookie(site: Site, x: WireEntry): State {
    Idle(Client(map[KeyOf(x) := x], {}), map[SlotOfWire(site, x) := NewEntry(DecodeEntry(x), site.host, 0)])
  }

  lemma OneCookieStarts(site: Site, x: WireEntry)
    requires Sound(x) && !IsTombstone(x)
    ensures Start(OneCookie(site, x), site)
  {
    hide KeyOf, SlotOfWire, NewEntry, DecodeEntry, Sound, Wanted, IsTombstone;
    var s := OneCookie(site, x);
    assert SoundState(s) by { assert IsTombstone(x) ==> false; }
    forall y | Sound(y) ensures Agree(s, CaseOf(site, y)) {
      CaseInjective(site, x, y);
      StoredViewIsWanted(x, site.host, 0, NewEntry(DecodeEntry(x), site.host, 0));
    }
  }

  // ----- one request and its answer -----

  // A page whose only message is a request with one entry.
  ghost predicate Asking(s: State, request: Request, w: WireEntry) {
    && request.entries == [Stamped(w, 1)] && Ackable(KeyOf(w))
    && s.requests == multiset{request} && s.jobs == multiset{} && s.responses == multiset{}
  }

  // The jar after the one entry of the request.
  ghost function Answered(s: State, site: Site, request: Request, w: WireEntry, now: int): AddResult {
    AddTo(s.server, DecodeEntry(w), request.host, now, site.maxSize, ("", ""))
  }

  // The server accepts, applies and replies; then the page has the acknowledgement to come.
  lemma Answer(s: State, site: Site, request: Request, w: WireEntry, now: int) returns (steps: seq<Step>, t: State, p: Response)
    requires Asking(s, request, w)
    requires !Evicts(s.server, DecodeEntry(w), request.host, now, site.maxSize)
    requires Answered(s, site, request, w, now).outcome != Panicked
    ensures Run(s, site, steps, t)
    ensures SplitAck(p.ack) == [KeyOf(w)] && p.push == []
    ensures t.requests == multiset{} && t.jobs == multiset{} && t.responses == multiset{p}
    ensures t.client == s.client && t.history.version == s.history.version
    ensures t.server == Answered(s, site, request, w, now).jar
    ensures !AtHome(site, request.host) ==> t.history.applied == s.history.applied && t.history.late == s.history.late
    ensures t.history.replaced == s.history.replaced
  {
    hide KeyOf, AddTo, Evicts, DecodeEntry, SlotOfWire, Run, SplitAck, AfterApply, AtHome;
    var job, done := Started(request), Job(request.host, [], [KeyOf(w)], []);
    var apply := Apply(job, now, ("", ""));
    var s1 := Next(s, site, Accept(request));
    assert s1.jobs == multiset{job} && s1.requests == multiset{};
    assert Advance(job) == done;
    var s2 := Next(s1, site, apply);
    OnlyJobAdvances(s1, site, job, now, done);
    var rest;
    rest, t, p := AnswerEnds(s2, site, done, KeyOf(w));
    RunFirst(s1, site, apply, rest, t);
    RunFirst(s, site, Accept(request), [apply] + rest, t);
    steps := [Accept(request)] + ([apply] + rest);
  }

  lemma AnswerEnds(s: State, site: Site, done: Job, k: string) returns (steps: seq<Step>, t: State, p: Response)
    requires s.jobs == multiset{done} && s.responses == multiset{} && done.todo == [] && done.acks == [k] && done.pushes == []
    requires Ackable(k)
    ensures Run(s, site, steps, t) && SplitAck(p.ack) == [k] && p.push == []
    ensures t == s.(jobs := multiset{}, responses := multiset{p})
  {
    hide Run, SplitAck;
    t := Next(s, site, Reply(done));
    p := Response(JoinAck(done.acks), done.pushes);
    AckRoundTrip([k]);
    RunNothing(t, site);
    RunFirst(s, site, Reply(done), [], t);
    steps := [Reply(done)] + [];
  }

  lemma OnlyJobAdvances(s: State, site: Site, job: Job, now: int, done: Job)
    requires s.jobs == multiset{job} && job.todo != [] && done == Advance(job)
    requires Enabled(s, site, Apply(job, now, ("", "")))
    requires AddTo(s.server, DecodeEntry(job.todo[0].w), job.host, now, site.maxSize, ("", "")).outcome != Panicked
    ensures var t := Next(s, site, Apply(job, now, ("", "")));
            && t.jobs == multiset{done} && t.requests == s.requests && t.responses == s.responses && t.client == s.client
            && t.history.version == s.history.version && t.history.replaced == s.history.replaced
            && (!AtHome(site, job.host) ==> t.history.applied == s.history.applied && t.history.late == s.history.late)
            && t.server == AddTo(s.server, DecodeEntry(job.todo[0].w), job.host, now, site.maxSize, ("", "")).jar
  {
    hide KeyOf, AddTo, Evicts, DecodeEntry, SlotOfWire, Advance, Evicted, AtHome;
    assert s.jobs - multiset{job} == multiset{};
  }

  // ----- from a page with one write to a request with it -----

  // Writing w on an idle page, and putting it into a request.
  function Sent(s: State, w: WireEntry, now: int, host: string): State {
    State(SetCookie(s.client, w, now), s.server, multiset{Request(host, [Stamped(SetCookie(s.client, w, now).jar[KeyOf(w)], 1)])},
      multiset{}, multiset{}, s.history.(version := map[KeyOf(w) := 1]))
  }

  function Wrote(s: State, w: WireEntry, now: int): State {
    s.(client := SetCookie(s.client, w, now), history := s.history.(version := map[KeyOf(w) := 1]))
  }

  lemma WriteIsWrote(s: State, site: Site, w: WireEntry, now: int)
    requires s == Idle(s.client, s.server)
    ensures Next(s, site, Write(w, now)) == Wrote(s, w, now) && !Exposed(s, KeyOf(w))
  {
    hide KeyOf, SetCookie;
    assert Bump(s.history, s, {KeyOf(w)}).version == map[KeyOf(w) := 1];
  }

  lemma SendIsSent(s: State, site: Site, w: WireEntry, now: int, host: string)
    requires s == Idle(s.client, s.server) && s.client.dirty == {} && Valid(s.client)
    ensures var t, k := Wrote(s, w, now), KeyOf(w);
            k in t.client.dirty && Enabled(t, site, Send([k], host)) && Next(t, site, Send([k], host)) == Sent(s, w, now, host)
  {
    hide KeyOf, SetCookie, Valid, LookUp;
    var t, k := Wrote(s, w, now), KeyOf(w);
    SetCookieKey(s.client, w, now);
    assert multiset([k]) == multiset({k});
    LookUpOne(t.client.jar, k);
    assert Payload(t, [k]) == [Stamped(t.client.jar[k], 1)];
  }

  lemma WriteAndSend(s: State, site: Site, w: WireEntry, now: int, host: string) returns (t: State)
    requires s == Idle(s.client, s.server) && s.client.dirty == {} && Valid(s.client) && Sound(w)
    ensures Run(s, site, [Write(w, now)], t)
    ensures KeyOf(w) in t.client.dirty && t == Next(s, site, Write(w, now))
    ensures Enabled(t, site, Send([KeyOf(w)], host)) && Next(t, site, Send([KeyOf(w)], host)) == Sent(s, w, now, host)
  {
    hide KeyOf, Sound, Run, SetCookie, Valid, Idle, Wrote, Sent, Exposed;
    RunNothing(s, site);
    WriteIsWrote(s, site, w, now);
    RunMore(s, site, [], s, Write(w, now));
    assert [] + [Write(w, now)] == [Write(w, now)];
    SendIsSent(s, site, w, now, host);
    t := Wrote(s, w, now);
  }

  // The same for a request to the page's own host.
  lemma SentRun(s: State, site: Site, w: WireEntry, now: int) returns (steps: seq<Step>)
    requires s == Idle(s.client, s.server) && s.client.dirty == {} && Valid(s.client) && Sound(w)
    ensures Run(s, site, steps, Sent(s, w, now, site.host))
  {
    hide KeyOf, Sound, Run, SetCookie, Valid, Idle, Sent;
    var m := WriteAndSend(s, site, w, now, site.host);
    RunMore(s, site, [Write(w, now)], m, Send([KeyOf(w)], site.host));
    steps := [Write(w, now)] + [Send([KeyOf(w)], site.host)];
  }

  lemma LookUpOne(jar: map<string, WireEntry>, k: string)
    requires k in jar
    ensures LookUp(jar, [k]) == [jar[k]]
  {
    assert [k][..0] == [];
  }

  lemma SetCookieKey(c: Client, w: WireEntry, now: int)
    requires Valid(c) && c.dirty == {}
    ensures var d, k := SetCookie(c, w, now), KeyOf(w);
            d.dirty == {k} && k in d.jar && KeyOf(d.jar[k]) == k
  {
  }

  // The page handles an acknowledgement of one key.
  lemma HandleOne(s: State, p: Response, k: string)
    requires SplitAck(p.ack) == [k] && p.push == []
    ensures AfterHandle(s, p) == s.(client := AckKey(s.client, k))
  {
    hide SplitAck, AckKey;
    assert [k][..0] == [];
    assert Ack(s.client, [k]) == AckKey(s.client, k);
    var pushed := set w | w in p.push :: (KeyOf(w), s.Version(KeyOf(w)));
    assert pushed == {};
    assert s.history.(replaced := s.history.replaced + pushed) == s.history;
  }

  // For the last time, when there is no other message.
  lemma DeliverOne(s: State, p: Response, k: string)
    requires s.responses == multiset{p} && SplitAck(p.ack) == [k] && p.push == []
    ensures AfterDeliver(s, p) == s.(client := AckKey(s.client, k), responses := multiset{})
  {
    hide SplitAck, AckKey, AfterHandle;
    HandleOne(s, p, k);
  }

  ghost predicate Silent(s: State) {
    s.requests == multiset{} && s.jobs == multiset{} && s.responses == multiset{}
  }

  // ----- lost to an old acknowledgement -----

  // The state after writing w and then delivering p.
  ghost function RewriteThenDeliver(t: State, site: Site, w: WireEntry, now: int, p: Response): State
    requires p in t.responses
  {
    Next(Next(t, site, Write(w, now)), site, Deliver(p))
  }

  lemma RewriteAt(t: State, site: Site, w: WireEntry, now: int, p: Response)
    requires p in t.responses && KeyOf(w) in SplitAck(p.ack) && !PushesKey(p.push, KeyOf(w))
    requires NoFuture(t, CaseOf(site, w))
    ensures var u := RewriteThenDeliver(t, site, w, now, p);
            && Lost(u, KeyOf(w)) && u.server == t.server
            && (!IsTombstone(w) && !HasExpired(w, now) ==> ClientView(u.client, KeyOf(w)) == Wanted(w))
  {
    hide KeyOf, SplitAck, PushesKey, AfterHandle;
    var m := Next(t, site, Write(w, now));
    AfterWrite(t, site, w, now);
    HandleAt(m, p, KeyOf(w));
    DeliveryRecordsNoWrite(m, p);
    DeliveryKeepsServer(m, p);
  }

  lemma DeliveryKeepsServer(s: State, p: Response)
    ensures AfterHandle(s, p).server == s.server
  {
  }

  /**
    From every state a disciplined run can reach, writing a key whose acknowledgement is on its
    way and then delivering it leaves the key clean, with a write that never reached the server
    and that nothing will ever send.
   */
  lemma RewriteUnderAckIsLost(s: State, site: Site, steps: seq<Step>, t: State, w: WireEntry, now: int, p: Response)
    requires Start(s, site) && Run(s, site, steps, t) && Sound(w)
    requires p in t.responses && KeyOf(w) in SplitAck(p.ack) && !PushesKey(p.push, KeyOf(w))
    ensures !Disciplined(t, site, Write(w, now))
    ensures var u := RewriteThenDeliver(t, site, w, now, p);
            && Lost(u, KeyOf(w)) && u.server == t.server
            && (!IsTombstone(w) && !HasExpired(w, now) ==> ClientView(u.client, KeyOf(w)) == Wanted(w))
  {
    hide Start, Run, KeyOf, Sound, SplitAck, PushesKey, Next;
    RunKeepsInv(s, site, steps, t, w);
    RewriteAt(t, site, w, now, p);
  }

  // Deleting a cookie on the empty page, up to the acknowledgement.
  lemma DeleteAnswered(site: Site, gone: WireEntry, now: int, arrived: int) returns (steps: seq<Step>, t: State, p: Response)
    requires Sound(gone) && IsTombstone(gone)
    ensures Run(EMPTY, site, steps, t) && SplitAck(p.ack) == [KeyOf(gone)] && p.push == []
    ensures t.requests == multiset{} && t.jobs == multiset{} && t.responses == multiset{p}
    ensures t.client == Client(map[KeyOf(gone) := TombstoneOf(gone)], {KeyOf(gone)}) && t.server == map[]
  {
    var k, w := KeyOf(gone), TombstoneOf(gone);
    var first := SentRun(EMPTY, site, gone, now);
    var s := Sent(EMPTY, gone, now, site.host);
    assert AddTo(map[], DecodeEntry(w), site.host, arrived, site.maxSize, ("", "")) == AddResult(map[], Deleted);
    hide Run, Sound, SplitAck, Start, AddTo, DecodeEntry;
    assert KeyOf(w) == k;
    hide KeyOf;
    var more;
    more, t, p := Answer(s, site, Request(site.host, [Stamped(w, 1)]), w, arrived);
    RunAppend(EMPTY, site, first, s, more, t);
    steps := first + more;
  }

  lemma NothingPushed(k: string)
    ensures !PushesKey([], k)
  {
  }

  lemma DeletionHasSameKey(w: WireEntry)
    ensures KeyOf(w.(e := TOMBSTONE)) == KeyOf(w) && (Sound(w) ==> Sound(w.(e := TOMBSTONE)))
  {
  }

  // Both sides differ, and nothing will repair it.
  ghost predicate LostForGood(u: State, w: WireEntry) {
    && Lost(u, KeyOf(w)) && u.client.dirty == {} && Silent(u)
    && ClientView(u.client, KeyOf(w)) == Wanted(w) && Wanted(w).Some?
    && u.server == map[]
  }

  /**
    A lost write, from the empty page: delete a cookie, and set it again while the answer to the
    deletion is on its way. The page then shows the cookie and has nothing dirty; the server does
    not have it, and nothing is under way.
   */
  lemma LostWrite(site: Site, w: WireEntry, now: int, arrived: int) returns (steps: seq<Step>, t: State, p: Response)
    requires Sound(w) && !IsTombstone(w) && !HasExpired(w, now)
    ensures Start(EMPTY, site) && Run(EMPTY, site, steps, t) && p in t.responses
    ensures LostForGood(RewriteThenDeliver(t, site, w, now, p), w)
  {
    hide KeyOf, Run, Sound, SplitAck, Start, PushesKey, Lost;
    var k := KeyOf(w);
    DeletionHasSameKey(w);
    EmptyStarts(site);
    steps, t, p := DeleteAnswered(site, w.(e := TOMBSTONE), now, arrived);
    NothingPushed(k);
    RunKeepsInv(EMPTY, site, steps, t, w);
    RewriteAt(t, site, w, now, p);
    DeliverOne(Next(t, site, Write(w, now)), p, k);
  }

  // The answer to a deletion, handled once and to be handled again.
  lemma DeleteHandled(site: Site, gone: WireEntry, now: int, arrived: int) returns (steps: seq<Step>, t: State, p: Response)
    requires Sound(gone) && IsTombstone(gone)
    ensures Run(EMPTY, site, steps, t) && steps != [] && steps[|steps| - 1] == Again(p)
    ensures SplitAck(p.ack) == [KeyOf(gone)] && p.push == []
    ensures t.requests == multiset{} && t.jobs == multiset{} && t.responses == multiset{p}
    ensures t.client == Client(map[], {}) && t.server == map[]
  {
    hide KeyOf, Run, Sound, SplitAck, AckKey, AfterHandle, IsTombstone;
    var first, m;
    first, m, p := DeleteAnswered(site, gone, now, arrived);
    HandleOne(m, p, KeyOf(gone));
    AckedTombstoneGoes(gone);
    RunMore(EMPTY, site, first, m, Again(p));
    steps, t := first + [Again(p)], AfterHandle(m, p);
  }

  /**
    The same on a reused XMLHttpRequest: the page handles the answer to the deletion, which leaves
    it with nothing dirty, and sets the cookie again before the second listener handles the answer
    once more.
   */
  lemma HandledTwice(site: Site, w: WireEntry, now: int, arrived: int) returns (steps: seq<Step>, t: State, p: Response)
    requires Sound(w) && !IsTombstone(w) && !HasExpired(w, now)
    ensures Start(EMPTY, site) && Run(EMPTY, site, steps, t) && p in t.responses
    ensures steps != [] && steps[|steps| - 1] == Again(p) && t.client == Client(map[], {})
    ensures LostForGood(RewriteThenDeliver(t, site, w, now, p), w)
  {
    hide KeyOf, Run, Sound, SplitAck, Start, PushesKey, Lost, AckKey;
    var k := KeyOf(w);
    DeletionHasSameKey(w);
    EmptyStarts(site);
    steps, t, p := DeleteHandled(site, w.(e := TOMBSTONE), now, arrived);
    RunKeepsInv(EMPTY, site, steps, t, w);
    NothingPushed(k);
    RewriteAt(t, site, w, now, p);
    DeliverOne(Next(t, site, Write(w, now)), p, k);
    AckedIsClean(SetCookie(t.client, w, now), k);
  }

  lemma AckedIsClean(c: Client, k: string)
    ensures AckKey(c, k).dirty == c.dirty - {k}
  {
  }

  lemma AckedTombstoneGoes(w: WireEntry)
    ensures AckKey(Client(map[KeyOf(w) := TombstoneOf(w)], {KeyOf(w)}), KeyOf(w)) == Client(map[], {})
  {
    hide KeyOf;
  }

  // ----- sent to another host -----

  // A session cookie, or one that has not expired by then, goes into an empty jar, for whatever host.
  lemma EmptyJarStores(w: WireEntry, host: string, now: int, maxSize: int)
    requires maxSize > 0 && !IsTombstone(w) && !TooLate(w, now)
    ensures var r, slot := AddTo(map[], DecodeEntry(w), host, now, maxSize, ("", "")), (CanonicalDomain(host), EntryKey(w.n, PathOrRoot(w.p)));
            && !Evicts(map[], DecodeEntry(w), host, now, maxSize) && r.outcome == Stored
            && r.jar.Keys == {slot} && ServerView(r.jar, slot) == Wanted(w)
  {
    StoredViewIsWanted(w, host, now, NewEntry(DecodeEntry(w), host, now));
  }

  /**
    A write that goes abroad, from the empty page: set a cookie, and make a request to another
    origin. The cookie lands among the other host's, its acknowledgement cleans the key, and the
    page's own slot never gets it.
   */
  lemma LostAbroad(site: Site, host: string, w: WireEntry, now: int, arrived: int) returns (t: State, more: seq<Step>, v: State)
    requires Sound(w) && !IsTombstone(w) && !HasExpired(w, now) && !TooLate(w, arrived) && site.maxSize > 0
    requires !AtHome(site, host)
    ensures Start(EMPTY, site) && Run(EMPTY, site, [Write(w, now)], t)
    ensures var send := Send([KeyOf(w)], host);
            Enabled(t, site, send) && !Disciplined(t, site, send) && Run(Next(t, site, send), site, more, v)
    ensures Lost(v, KeyOf(w)) && v.client.dirty == {} && Silent(v)
    ensures ClientView(v.client, KeyOf(w)) == Wanted(w) && Wanted(w).Some?
    ensures ServerView(v.server, SlotOfWire(site, w)) == None
    ensures ServerView(v.server, SlotOfWire(At(site, host), w)) == Wanted(w)
  {
    hide KeyOf, Run, Sound, SplitAck, Start, AddTo, DecodeEntry, Evicts, EntryKey, CanonicalDomain, ServerView;
    var k := KeyOf(w);
    EmptyStarts(site);
    t := WriteAndSend(EMPTY, site, w, now, host);
    EmptyJarStores(w, host, arrived, site.maxSize);
    var p;
    more, v, p := AnswerAbroad(site, host, w, now, arrived);
    NoEntryNoView(v.server, SlotOfWire(site, w));
  }

  lemma NoEntryNoView(f: FlatJar, slot: Slot)
    ensures slot !in f ==> ServerView(f, slot) == None
  {
  }

  lemma SoundIsAckable(w: WireEntry)
    requires Sound(w)
    ensures Ackable(KeyOf(w))
  {
  }

  // From the request on.
  lemma AnswerAbroad(site: Site, host: string, w: WireEntry, now: int, arrived: int) returns (more: seq<Step>, v: State, p: Response)
    requires Sound(w) && !IsTombstone(w) && !HasExpired(w, now) && !TooLate(w, arrived) && site.maxSize > 0
    requires !AtHome(site, host)
    ensures Run(Sent(EMPTY, w, now, host), site, more, v) && Lost(v, KeyOf(w)) && v.client.dirty == {} && Silent(v)
    ensures v.client.jar == map[KeyOf(w) := w]
    ensures v.server == AddTo(map[], DecodeEntry(w), host, arrived, site.maxSize, ("", "")).jar
  {
    hide KeyOf, Run, SplitAck, AddTo, DecodeEntry, Evicts, Sound, AtHome;
    var s := Sent(EMPTY, w, now, host);
    SoundIsAckable(w);
    EmptyJarStores(w, host, arrived, site.maxSize);
    var first, t;
    first, t, p := Answer(s, site, Request(host, [Stamped(w, 1)]), w, arrived);
    DeliverOne(t, p, KeyOf(w));
    v := Next(t, site, Deliver(p));
    RunMore(s, site, first, t, Deliver(p));
    more := first + [Deliver(p)];
  }

  // ----- the old value that outlives its replacement -----

  lemma CleanMore(s: State, site: Site, steps: seq<Step>, m: State, now: int)
    requires Run(s, site, steps, m)
    ensures Run(s, site, steps + [Clean(now)], AfterClean(m, site, now))
  {
    hide Run, AfterClean;
    RunMore(s, site, steps, m, Clean(now));
  }

  lemma SentOverCookie(site: Site, x: WireEntry, w: WireEntry, now: int)
    requires Sound(w) && KeyOf(w) == KeyOf(x) && w.e > 0 && now <= w.e * 1000
    ensures var s := Sent(OneCookie(site, x), w, now, site.host);
            && Asking(s, Request(site.host, [Stamped(w, 1)]), w)
            && s.client == Client(map[KeyOf(w) := w], {KeyOf(w)}) && s.server == OneCookie(site, x).server
            && s.history.version == map[KeyOf(w) := 1]
  {
    hide KeyOf, SlotOfWire, NewEntry, DecodeEntry;
    SoundIsAckable(w);
  }

  // Everything up to the request, with the entry expiring on the way; the page notices first.
  lemma ReplaceAndExpire(site: Site, x: WireEntry, w: WireEntry, wrote: int, noticed: int) returns (steps: seq<Step>, s: State)
    requires Sound(x) && !IsTombstone(x) && Sound(w) && KeyOf(w) == KeyOf(x)
    requires w.e > 0 && wrote <= w.e * 1000 < noticed
    ensures Run(OneCookie(site, x), site, steps, s) && Asking(s, Request(site.host, [Stamped(w, 1)]), w)
    ensures s.client == Client(map[KeyOf(w) := TombstoneOf(w)], {KeyOf(w)}) && s.server == OneCookie(site, x).server
  {
    OneCookieStarts(site, x);
    var start := OneCookie(site, x);
    assert start == Idle(start.client, start.server) && start.client.dirty == {};
    hide KeyOf, Run, Sound, Start, AfterClean, OneCookie, Sent, Idle, Mentions;
    var first := SentRun(start, site, w, wrote);
    var sent := Sent(start, w, wrote, site.host);
    SentOverCookie(site, x, w, wrote);
    CleanMore(start, site, first, sent, noticed);
    steps := first + [Clean(noticed)];
    s := AfterClean(sent, site, noticed);
    CleanKeepsMessages(sent, site, noticed);
    OneMention(Request(site.host, [Stamped(w, 1)]), w);
    SweepOne(sent, site, KeyOf(w), w, noticed);
  }

  lemma OneMention(request: Request, w: WireEntry)
    requires request.entries == [Stamped(w, 1)]
    ensures Mentions(request.entries, KeyOf(w))
  {
    assert KeyOf(request.entries[0].w) == KeyOf(w);
  }

  lemma SweepOne(s: State, site: Site, k: string, w: WireEntry, now: int)
    requires s.client == Client(map[k := w], {k}) && HasExpired(w, now)
    requires exists r :: r in s.requests && Mentions(r.entries, k)
    requires s.history.version == map[k := 1]
    ensures AfterClean(s, site, now).client == Client(map[k := TombstoneOf(w)], {k})
    ensures AfterClean(s, site, now).history.version == map[k := 1]
  {
    hide KeyOf, SlotOfWire;
    assert ExpiredKeys(s.client, now) == {k};
    assert Exposed(s, k);
    assert (set x | x in {k} && Exposed(s, x)) == {k};
  }

  lemma LateIsIgnored(f: FlatJar, w: WireEntry, host: string, now: int, maxSize: int)
    requires TooLate(w, now)
    ensures !Evicts(f, DecodeEntry(w), host, now, maxSize)
    ensures AddTo(f, DecodeEntry(w), host, now, maxSize, ("", "")) == AddResult(f, Ignored)
  {
  }

  /**
    A late write, in a disciplined run: the page replaces a session cookie by one that expires
    while the request is on its way. The server ignores the new value and acknowledges it all the
    same, so the old value stays in the jar for good, while the page holds nothing and has nothing
    dirty.
   */
  lemma OldValueSurvives(site: Site, x: WireEntry, w: WireEntry, wrote: int, noticed: int, arrived: int)
      returns (steps: seq<Step>, t: State)
    requires Sound(x) && !IsTombstone(x) && Sound(w) && KeyOf(w) == KeyOf(x)
    requires w.e > 0 && wrote <= w.e * 1000 < noticed && w.e * SECOND < arrived
    ensures Start(OneCookie(site, x), site) && Run(OneCookie(site, x), site, steps, t)
    ensures t.client == Client(map[], {}) && Silent(t)
    ensures ServerView(t.server, SlotOfWire(site, x)) == Wanted(x) && Wanted(x).Some?
  {
    OneCookieStarts(site, x);
    OneCookieKept(site, x);
    hide KeyOf, Run, Sound, Start, SplitAck, SlotOfWire, AddTo, DecodeEntry, Evicts, Wanted, OneCookie, AfterDeliver, ServerView, Asking, AckKey;
    var start := OneCookie(site, x);
    var first, s := ReplaceAndExpire(site, x, w, wrote, noticed);
    LateIsIgnored(s.server, w, site.host, arrived, site.maxSize);
    var more, m, p := Answer(s, site, Request(site.host, [Stamped(w, 1)]), w, arrived);
    DeliverOne(m, p, KeyOf(w));
    AckedTombstoneGoes(w);
    t := AfterDeliver(m, p);
    RunAppend(start, site, first, s, more, m);
    DeliverMore(start, site, first + more, m, p);
    steps := first + more + [Deliver(p)];
  }

  lemma OneCookieKept(site: Site, x: WireEntry)
    requires !IsTombstone(x)
    ensures ServerView(OneCookie(site, x).server, SlotOfWire(site, x)) == Wanted(x) && Wanted(x).Some?
  {
    StoredViewIsWanted(x, site.host, 0, NewEntry(DecodeEntry(x), site.host, 0));
  }

  // ----- pushed by another host -----

  // A deletion, a session cookie, or a live one with a whole-second expiry: what the wire carries as it is.
  predicate Conveyed(c: HttpCookie, now: int) {
    || c.maxAge < 0
    || (c.maxAge == 0 && (c.expires == ZERO_TIME || (c.expires > 0 && c.expires % SECOND == 0 && now <= c.expires)))
  }

  lemma ConveyedViewIsWanted(c: HttpCookie, host: string, now: int, e: CookieEntry)
    requires Conveyed(c, now) && c.maxAge == 0 && e == NewEntry(c, host, now)
    ensures Some(View(e.value, e.secure, e.httpOnly, e.expires, e.maxAge)) == Wanted(EncodePush(c)) && !e.IsExpired(now)
  {
    assert c.expires > 0 ==> UnixSeconds(c.expires) * SECOND == c.expires && UnixSeconds(c.expires) > 0;
  }

  lemma SetCookieEffect(f: FlatJar, site: Site, host: string, cookie: HttpCookie, now: int)
    requires Conveyed(cookie, now) && cookie.domain == "" && |f| < site.maxSize
    ensures var r, w := AddTo(f, cookie, host, now, site.maxSize, ("", "")), EncodePush(cookie);
            && !Evicts(f, cookie, host, now, site.maxSize) && r.outcome != Panicked
            && ServerView(r.jar, SlotOfWire(At(site, host), w)) == Wanted(w)
            && (forall s :: s != SlotOfWire(At(site, host), w) ==> ServerView(r.jar, s) == ServerView(f, s))
            && |r.jar| <= |f| + 1
  {
    var r, w := AddTo(f, cookie, host, now, site.maxSize, ("", "")), EncodePush(cookie);
    AddFrame(f, cookie, host, now, site.maxSize, ("", ""));
    assert SlotFor(cookie, host) == SlotOfWire(At(site, host), w);
    assert cookie.maxAge < 0 ==> r.outcome == Deleted && Wanted(w) == None;
    AddSize(f, cookie, host, now, site.maxSize, ("", ""));
    if cookie.maxAge == 0 {
      ConveyedViewIsWanted(cookie, host, now, NewEntry(cookie, host, now));
      assert r.outcome == Stored;
    }
    hide AddTo, NewEntry, SlotFor, SlotOfWire, EncodePush, Wanted, Conveyed;
  }

  // Cookies an origin sets, one after the other, for its own host.
  ghost predicate HostCookies(cookies: seq<HttpCookie>, times: seq<int>) {
    && |cookies| == |times|
    && forall i :: 0 <= i < |cookies| ==>
         cookies[i].domain == "" && Conveyed(cookies[i], times[i]) && Sound(EncodePush(cookies[i]))
  }

  lemma {:induction false} PushedLast(c: Client, ws: seq<WireEntry>, i: int)
    requires LastOfItsKey(ws, i)
    ensures KeyOf(ws[i]) !in Push(c, ws).dirty && ClientView(Push(c, ws), KeyOf(ws[i])) == Wanted(ws[i])
    decreases |ws|
  {
    hide KeyOf;
    var n := |ws| - 1;
    if i < n {
      assert ws[..n][i] == ws[i];
      assert LastOfItsKey(ws[..n], i) by { assert forall j :: i < j < n ==> ws[..n][j] == ws[j]; }
      PushedLast(c, ws[..n], i);
      PushOneAt(Push(c, ws[..n]), ws[n], KeyOf(ws[i]));
    }
  }

  // What the origin's cookies have made of the jar: the last for each key is there, and no other slot has changed.
  ghost predicate SetOnServer(f: FlatJar, g: FlatJar, there: Site, ws: seq<WireEntry>) {
    && |g| <= |f| + |ws|
    && (forall i :: LastOfItsKey(ws, i) ==> ServerView(g, SlotOfWire(there, ws[i])) == Wanted(ws[i]))
    && (forall s :: (forall i :: 0 <= i < |ws| ==> s != SlotOfWire(there, ws[i])) ==> ServerView(g, s) == ServerView(f, s))
  }

  lemma SetOneMore(f: FlatJar, g: FlatJar, h: FlatJar, there: Site, ws: seq<WireEntry>, w: WireEntry)
    requires SetOnServer(f, g, there, ws) && |h| <= |g| + 1
    requires SoundEntries(ws) && Sound(w)
    requires ServerView(h, SlotOfWire(there, w)) == Wanted(w)
    requires forall s :: s != SlotOfWire(there, w) ==> ServerView(h, s) == ServerView(g, s)
    ensures SetOnServer(f, h, there, ws + [w])
  {
    hide KeyOf, SlotOfWire, ServerView, Wanted, Sound;
    var all := ws + [w];
    forall i | LastOfItsKey(all, i) ensures ServerView(h, SlotOfWire(there, all[i])) == Wanted(all[i]) {
      if i < |ws| {
        assert all[|ws|] == w;
        assert LastOfItsKey(ws, i) by { assert forall j :: i < j < |ws| ==> all[j] == ws[j]; }
        CaseInjective(there, ws[i], w);
      }
    }
    forall s | forall i :: 0 <= i < |all| ==> s != SlotOfWire(there, all[i]) ensures ServerView(h, s) == ServerView(f, s) {
      assert all[|ws|] == w;
      assert forall i :: 0 <= i < |ws| ==> all[i] == ws[i];
    }
  }

  lemma PushesGrow(cookies: seq<HttpCookie>)
    requires cookies != []
    ensures var n := |cookies| - 1; EncodePushAll(cookies) == EncodePushAll(cookies[..n]) + [EncodePush(cookies[n])]
  {
  }

  // A handler with no entries left sets the origin's cookies.
  lemma {:induction false} OriginsRun(t: State, site: Site, job: Job, cookies: seq<HttpCookie>, times: seq<int>)
      returns (steps: seq<Step>, u: State)
    requires job in t.jobs && job.todo == [] && job.pushes == []
    requires HostCookies(cookies, times) && |t.server| + |cookies| <= site.maxSize
    ensures Run(t, site, steps, u) && u.client == t.client
    ensures job.(pushes := EncodePushAll(cookies)) in u.jobs && SoundEntries(EncodePushAll(cookies))
    ensures SetOnServer(t.server, u.server, At(site, job.host), EncodePushAll(cookies))
    decreases |cookies|
  {
    hide KeyOf, AddTo, EncodePush, SlotOfWire, Evicts, Sound, Differences, Run, ServerView, Wanted, Conveyed, SetOnServer, Next, Enabled;
    if cookies == [] {
      RunNothing(t, site);
      assert EncodePushAll(cookies) == [] && job.(pushes := []) == job;
      NothingSet(t.server, At(site, job.host));
      steps, u := [], t;
    } else {
      var n := |cookies| - 1;
      var c, now, w := cookies[n], times[n], EncodePush(cookies[n]);
      var first, m := OriginsRun(t, site, job, cookies[..n], times[..n]);
      var so := job.(pushes := EncodePushAll(cookies[..n]));
      SetSize(t.server, m.server, At(site, job.host), EncodePushAll(cookies[..n]));
      SetCookieEffect(m.server, site, job.host, c, now);
      var origin := Origin(so, c, now, ("", ""));
      OriginOne(m, site, so, c, now);
      RunMore(t, site, first, m, origin);
      steps, u := first + [origin], Next(m, site, origin);
      PushesGrow(cookies);
      SetOneMore(t.server, m.server, u.server, At(site, job.host), EncodePushAll(cookies[..n]), w);
    }
  }

  lemma OriginOne(m: State, site: Site, so: Job, c: HttpCookie, now: int)
    requires so in m.jobs && so.todo == [] && !Evicts(m.server, c, so.host, now, site.maxSize)
    requires AddTo(m.server, c, so.host, now, site.maxSize, ("", "")).outcome != Panicked
    ensures var origin := Origin(so, c, now, ("", ""));
            && Enabled(m, site, origin)
            && so.(pushes := so.pushes + [EncodePush(c)]) in Next(m, site, origin).jobs
            && Next(m, site, origin).client == m.client
            && Next(m, site, origin).server == AddTo(m.server, c, so.host, now, site.maxSize, ("", "")).jar
  {
    hide KeyOf, AddTo, EncodePush, SlotOfWire, Evicts, Differences;
  }

  lemma NothingSet(f: FlatJar, there: Site)
    ensures SetOnServer(f, f, there, [])
  {
  }

  lemma SetSize(f: FlatJar, g: FlatJar, there: Site, ws: seq<WireEntry>)
    requires SetOnServer(f, g, there, ws)
    ensures |g| <= |f| + |ws|
  {
  }

  // The page holds the pushed value for clean; it is what the server holds if the origin is of the
  // page's domain, or if the server held it before.
  ghost predicate TakenFrom(t: State, u: State, site: Site, host: string, w: WireEntry) {
    && KeyOf(w) !in u.client.dirty && ClientView(u.client, KeyOf(w)) == Wanted(w)
    && (Agree(u, CaseOf(site, w))
        <==> CanonicalDomain(host) == CanonicalDomain(site.host) || ServerView(t.server, SlotOfWire(site, w)) == Wanted(w))
  }

  /**
    When an origin sets cookies and the page takes the response, what the page then holds for each
    of them is what the server holds for it exactly when that origin is of the page's own domain,
    or the page's slot held just that value before. Of several cookies with one key the last counts.
   */
  lemma PushAgreesIff(t: State, site: Site, job: Job, cookies: seq<HttpCookie>, times: seq<int>) returns (steps: seq<Step>, u: State)
    requires job in t.jobs && job.todo == [] && job.pushes == []
    requires HostCookies(cookies, times) && |t.server| + |cookies| <= site.maxSize
    ensures Run(t, site, steps, u)
    ensures forall i :: LastOfItsKey(EncodePushAll(cookies), i) ==> TakenFrom(t, u, site, job.host, EncodePushAll(cookies)[i])
  {
    hide KeyOf, EncodePush, ServerView, Wanted, AfterHandle, JoinAck, CanonicalDomain, SlotOfWire, SetOnServer, Run, Sound, HostCookies;
    var ws := EncodePushAll(cookies);
    var done, p := job.(pushes := ws), Response(JoinAck(job.acks), ws);
    var first, m := OriginsRun(t, site, job, cookies, times);
    var n := Next(m, site, Reply(done));
    RunMore(t, site, first, m, Reply(done));
    DeliverMore(t, site, first + [Reply(done)], n, p);
    steps, u := first + [Reply(done)] + [Deliver(p)], AfterDeliver(n, p);
    HandleEffect(n, p);
    forall i | LastOfItsKey(ws, i) ensures TakenFrom(t, u, site, job.host, ws[i]) {
      PushedLast(Ack(t.client, SplitAck(p.ack)), ws, i);
      SetInPagesSlot(t.server, u.server, site, job.host, ws, i);
    }
  }

  lemma SetInPagesSlot(f: FlatJar, g: FlatJar, site: Site, host: string, ws: seq<WireEntry>, i: int)
    requires SetOnServer(f, g, At(site, host), ws) && LastOfItsKey(ws, i)
    ensures ServerView(g, SlotOfWire(site, ws[i])) == Wanted(ws[i])
       <==> CanonicalDomain(host) == CanonicalDomain(site.host) || ServerView(f, SlotOfWire(site, ws[i])) == Wanted(ws[i])
  {
    hide KeyOf, ServerView, Wanted, CanonicalDomain, EntryKey;
    var slot := SlotOfWire(site, ws[i]);
    if CanonicalDomain(host) != CanonicalDomain(site.host) {
      assert forall j :: 0 <= j < |ws| ==> slot != SlotOfWire(At(site, host), ws[j]);
    } else {
      assert slot == SlotOfWire(At(site, host), ws[i]);
    }
  }

  lemma HandleEffect(s: State, p: Response)
    ensures AfterHandle(s, p).client == Push(Ack(s.client, SplitAck(p.ack)), p.push) && AfterHandle(s, p).server == s.server
  {
  }

  // A request without a sync header reaches another origin.
  lemma AskAbroad(site: Site, host: string) returns (steps: seq<Step>, t: State)
    ensures Run(EMPTY, site, steps, t) && Job(host, [], [], []) in t.jobs && t.server == map[]
  {
    hide Run;
    var request := Request(host, []);
    RunNothing(EMPTY, site);
    assert Payload(EMPTY, []) == [];
    RunMore(EMPTY, site, [], EMPTY, Send([], host));
    var m := Next(EMPTY, site, Send([], host));
    RunMore(EMPTY, site, [] + [Send([], host)], m, Accept(request));
    steps, t := [] + [Send([], host)] + [Accept(request)], Next(m, site, Accept(request));
  }

  /**
    A cookie from abroad, in a disciplined run from the empty page: a request to another origin,
    which sets a cookie for itself. The page shows it as its own; the server has nothing for it in
    the page's slot.
   */
  lemma PushedAbroad(site: Site, host: string, cookie: HttpCookie, now: int) returns (steps: seq<Step>, u: State)
    requires HostCookies([cookie], [now]) && cookie.maxAge >= 0 && site.maxSize > 0 && !AtHome(site, host)
    ensures Start(EMPTY, site) && Run(EMPTY, site, steps, u)
    ensures var w := EncodePush(cookie);
            && KeyOf(w) !in u.client.dirty && ClientView(u.client, KeyOf(w)) == Wanted(w) && Wanted(w).Some?
            && ServerView(u.server, SlotOfWire(site, w)) != Wanted(w)
  {
    EmptyStarts(site);
    var first, t := AskAbroad(site, host);
    var w := EncodePush(cookie);
    assert Wanted(w).Some? by { ConveyedIsLive(cookie, now); }
    assert ServerView(map[], SlotOfWire(site, w)) == None;
    hide KeyOf, Wanted, ServerView, ClientView, Run, EncodePush, Start, CanonicalDomain, SlotOfWire, HostCookies;
    var more;
    more, u := PushAgreesIff(t, site, Job(host, [], [], []), [cookie], [now]);
    assert EncodePushAll([cookie]) == [w];
    assert LastOfItsKey([w], 0);
    RunAppend(EMPTY, site, first, t, more, u);
    steps := first + more;
  }

  lemma ConveyedIsLive(c: HttpCookie, now: int)
    requires Conveyed(c, now) && c.maxAge >= 0
    ensures !IsTombstone(EncodePush(c))
  {
  }
}
