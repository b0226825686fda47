/**
  The cookie synchronisation protocol as a step system: a page's store, the server's jar, and
  bags of requests, running handlers and responses that can be lost, delayed and reordered.

  The handlers run one AddCookie at a time, interleaved with each other and with anything else
  that changes the jar. Write versions, and the sets that record what became of them, are
  history: no step reads them.
 */
module SyncProtocol {
  import opened Clock
  import opened Text
  import opened Matching
  import opened Cookies
  import opened JarModel
  import opened Wire
  import opened ShadowJar
  import opened Wrappers

  // ----- state -----

  // A dirty entry on its way to the server, with the version of the write it carries.
  datatype Stamped = Stamped(w: WireEntry, version: nat)

  // A request to the proxy, for the origin `host`; without entries it has no sync header.
  datatype Request = Request(host: string, entries: seq<Stamped>)

  // A handler: the origin it serves, entries still to apply, keys applied so far, and origin
  // cookies to push.
  datatype Job = Job(host: string, todo: seq<Stamped>, acks: seq<string>, pushes: seq<WireEntry>)

  datatype Response = Response(ack: string, push: seq<WireEntry>)

  type Written = (string, nat)

  datatype History = History(
    version: map<string, nat>,   // how often the page has written each key
    applied: set<Written>,       // writes the jar has taken over, in the page's own slots
    late: set<Written>,          // writes that had expired when they reached the jar
    replaced: set<Written>,      // writes the page gave up for a pushed value
    touched: set<Slot>)          // slots changed, on either side, by anything but this page's effective writes

  datatype State = State(
    client: Client,
    server: FlatJar,
    requests: multiset<Request>,
    jobs: multiset<Job>,
    responses: multiset<Response>,
    history: History)
  {
    function Version(key: string): nat {
      if key in history.version then history.version[key] else 0
    }

    predicate Settled(key: string) {
      (key, Version(key)) in history.applied || (key, Version(key)) in history.late
    }

    // What became of the latest write is on record; what was loaded with the page needs no record.
    predicate Recorded(key: string) {
      Version(key) == 0 || Settled(key) || (key, Version(key)) in history.replaced
    }
  }

  /** The page's own host and the capacity of its session's jar. */
  datatype Site = Site(host: string, maxSize: int)

  // The same jar seen from a request for another origin.
  function At(site: Site, host: string): Site {
    site.(host := host)
  }

  // Whether a request for `host` reaches the slots of the page's own cookies.
  predicate AtHome(site: Site, host: string) {
    CanonicalDomain(host) == CanonicalDomain(site.host)
  }

  datatype Step =
    | Write(w: WireEntry, now: int)                                  // document.cookie = ...
    | Clean(now: int)                                                // expired entries become tombstones
    | Send(order: seq<string>, host: string)                         // a request for any origin, with the sync header
    | Accept(request: Request)                                       // it reaches the server
    | Apply(job: Job, now: int, victim: Slot)                        // one AddCookie of a handler
    | Origin(job: Job, cookie: HttpCookie, now: int, victim: Slot)   // one Set-Cookie of the origin
    | Elsewhere(server: FlatJar)                                     // another tab, the API, cleanup
    | Reply(job: Job)                                                // a response with its headers
    | ReplyBare(job: Job)                                            // a response without any, as from the cache
    | Lose(request: Request)
    | Abort(job: Job)
    | Drop(response: Response)
    | Again(response: Response)                                      // the page handles a response, and will once more
    | Deliver(response: Response)                                    // it handles it for the last time

  // ----- messages on their way -----

  predicate Mentions(ms: seq<Stamped>, key: string) {
    exists i :: 0 <= i < |ms| && KeyOf(ms[i].w) == key
  }

  predicate PushesKey(ws: seq<WireEntry>, key: string) {
    exists i :: 0 <= i < |ws| && KeyOf(ws[i]) == key
  }

  /** Some message on its way can acknowledge `key`, and will not replace its value as well. */
  ghost predicate Exposed(s: State, key: string) {
    || (exists r :: r in s.requests && Mentions(r.entries, key))
    || (exists j :: j in s.jobs && (Mentions(j.todo, key) || key in j.acks) && !PushesKey(j.pushes, key))
    || (exists p :: p in s.responses && key in SplitAck(p.ack) && !PushesKey(p.push, key))
  }

  // ----- steps -----

  function SlotOfWire(site: Site, w: WireEntry): Slot {
    (CanonicalDomain(site.host), EntryKey(w.n, PathOrRoot(w.p)))
  }

  function SlotsOf(site: Site, jar: map<string, WireEntry>, keys: set<string>): set<Slot> {
    set k | k in keys && k in jar :: SlotOfWire(site, jar[k])
  }

  function Payload(s: State, order: seq<string>): seq<Stamped> {
    var entries := LookUp(s.client.jar, order);
    seq(|entries|, i requires 0 <= i < |entries| => Stamped(entries[i], s.Version(KeyOf(entries[i]))))
  }

  // The slots at which two jars differ.
  ghost function Differences(f: FlatJar, g: FlatJar): set<Slot> {
    set s | s in f.Keys + g.Keys && !(s in f && s in g && f[s] == g[s])
  }

  function Evicted(f: FlatJar, c: HttpCookie, site: Site, now: int, victim: Slot): set<Slot> {
    if Evicts(f, c, site.host, now, site.maxSize) then {victim} else {}
  }

  ghost predicate Enabled(s: State, site: Site, step: Step) {
    match step
    case Write(_, _) => true
    case Clean(_) => true
    case Send(order, _) => multiset(order) == multiset(s.client.dirty)
    case Accept(request) => request in s.requests
    case Apply(job, now, victim) =>
      && job in s.jobs && job.todo != []
      && (Evicts(s.server, DecodeEntry(job.todo[0].w), job.host, now, site.maxSize) ==> IsVictim(s.server, victim))
    case Origin(job, cookie, now, victim) =>
      && job in s.jobs && job.todo == []
      && (Evicts(s.server, cookie, job.host, now, site.maxSize) ==> IsVictim(s.server, victim))
    case Elsewhere(_) => true
    case Reply(job) => job in s.jobs && job.todo == []
    case ReplyBare(job) => job in s.jobs && job.todo == []
    case Lose(request) => request in s.requests
    case Abort(job) => job in s.jobs
    case Drop(response) => response in s.responses
    case Again(response) => response in s.responses
    case Deliver(response) => response in s.responses
  }

  function Bump(h: History, s: State, keys: set<string>): History {
    h.(version := map k | k in h.version.Keys + keys :: if k in keys then s.Version(k) + 1 else h.version[k])
  }

  function Handle(c: Client, r: Response): Client {
    Push(Ack(c, SplitAck(r.ack)), r.push)
  }

  // The handler after one more of its entries.
  function Advance(job: Job): Job
    requires job.todo != []
  {
    job.(todo := job.todo[1..], acks := job.acks + [KeyOf(job.todo[0].w)])
  }

  // The handler for a request that has reached the server.
  function Started(request: Request): Job {
    Job(request.host, request.entries, [], [])
  }

  // The effect of AddCookie's result `r` for the entry a handler is at; a panic ends the handler.
  // Only in the page's own slot does it settle the write.
  function AfterApply(s: State, home: bool, job: Job, slot: Slot, r: AddResult, evicted: set<Slot>): State
    requires job.todo != []
  {
    var write := (KeyOf(job.todo[0].w), job.todo[0].version);
    var h := s.history.(touched := s.history.touched + evicted);
    var rest := s.jobs - multiset{job};
    match r.outcome
    case Panicked => s.(server := r.jar, jobs := rest, history := h)
    case Ignored => s.(server := r.jar, jobs := rest + multiset{Advance(job)},
                       history := if home then h.(late := h.late + {write}, touched := h.touched + {slot}) else h)
    case _ => s.(server := r.jar, jobs := rest + multiset{Advance(job)},
                 history := if home then h.(applied := h.applied + {write}) else h)
  }

  function WithPush(job: Job, w: WireEntry): Job {
    job.(pushes := job.pushes + [w])
  }

  // `slot` is the page's own slot for what is pushed, whichever host the cookie is from.
  ghost function AfterOrigin(s: State, job: Job, w: WireEntry, slot: Slot, r: AddResult): State {
    var rest := s.jobs - multiset{job};
    s.(server := r.jar,
       jobs := if r.outcome == Panicked then rest else rest + multiset{WithPush(job, w)},
       history := s.history.(touched := s.history.touched + Differences(s.server, r.jar) + {slot}))
  }

  // Expired entries turn into tombstones. That is a change the server has to learn of, unless a
  // message for the key is still on its way: the answer to that one will end the tombstone too.
  ghost function AfterClean(s: State, site: Site, now: int): State {
    var gone := ExpiredKeys(s.client, now);
    var underway := set k | k in gone && Exposed(s, k);
    s.(client := Sweep(s.client, now),
       history := Bump(s.history, s, gone - underway).(touched := s.history.touched + SlotsOf(site, s.client.jar, underway)))
  }

  // The page handles a response; pushed values replace whatever it last wrote. Every `open` of an
  // XMLHttpRequest adds a listener, so on a reused one a response is handled several times, with
  // the page's own listeners in between; it stays under way until the last of them has run.
  function AfterHandle(s: State, response: Response): State {
    var pushed := set w | w in response.push :: (KeyOf(w), s.Version(KeyOf(w)));
    s.(client := Handle(s.client, response), history := s.history.(replaced := s.history.replaced + pushed))
  }

  function AfterDeliver(s: State, response: Response): State {
    AfterHandle(s, response).(responses := s.responses - multiset{response})
  }

  ghost function Next(s: State, site: Site, step: Step): State
    requires Enabled(s, site, step)
  {
    match step
    case Write(w, now) =>
      s.(client := SetCookie(s.client, w, now), history := Bump(s.history, s, {KeyOf(w)}))
    case Clean(now) => AfterClean(s, site, now)
    case Send(order, host) =>
      s.(requests := s.requests + multiset{Request(host, Payload(s, order))})
    case Accept(request) =>
      s.(requests := s.requests - multiset{request}, jobs := s.jobs + multiset{Started(request)})
    case Apply(job, now, victim) =>
      var w, target := job.todo[0].w, At(site, job.host);
      AfterApply(s, AtHome(site, job.host), job, SlotOfWire(target, w),
        AddTo(s.server, DecodeEntry(w), job.host, now, site.maxSize, victim),
        Evicted(s.server, DecodeEntry(w), target, now, victim))
    case Origin(job, cookie, now, victim) =>
      var w := EncodePush(cookie);
      AfterOrigin(s, job, w, SlotOfWire(site, w), AddTo(s.server, cookie, job.host, now, site.maxSize, victim))
    case Elsewhere(server) =>
      s.(server := server, history := s.history.(touched := s.history.touched + Differences(s.server, server)))
    case Reply(job) =>
      s.(jobs := s.jobs - multiset{job}, responses := s.responses + multiset{Response(JoinAck(job.acks), job.pushes)})
    case ReplyBare(job) =>
      s.(jobs := s.jobs - multiset{job}, responses := s.responses + multiset{Response("", [])})
    case Lose(request) => s.(requests := s.requests - multiset{request})
    case Abort(job) => s.(jobs := s.jobs - multiset{job})
    case Drop(response) => s.(responses := s.responses - multiset{response})
    case Again(response) => AfterHandle(s, response)
    case Deliver(response) => AfterDeliver(s, response)
  }

  // ----- the discipline -----

  // Names and keys that survive the separators: '|' and NUL in keys, ',' and blanks in the ACK.
  predicate Sound(w: WireEntry) {
    '|' !in w.n && NUL !in w.n && w.p != "" && Ackable(KeyOf(w))
  }

  /**
    Per-key stop and wait: no key is written while a message can still acknowledge it. And dirty
    keys are sent home: a request that carries any is for an origin with the page's own domain.
   */
  ghost predicate Disciplined(s: State, site: Site, step: Step) {
    match step
    case Write(w, _) => Sound(w) && !Exposed(s, KeyOf(w))
    case Send(order, host) => order == [] || AtHome(site, host)
    case Origin(_, cookie, _, _) => Sound(EncodePush(cookie))
    case _ => true
  }

  // ----- what the two sides hold for a cookie -----

  datatype View = View(value: string, secure: bool, httpOnly: bool, expires: int, maxAge: int)

  // What the page wants the server to hold; a tombstone asks for nothing.
  function Wanted(w: WireEntry): Option<View> {
    if IsTombstone(w) then None
    else Some(View(w.v, w.s, w.h, if w.e > 0 then w.e * SECOND else ZERO_TIME, 0))
  }

  function ClientView(c: Client, key: string): Option<View> {
    if key in c.jar then Wanted(c.jar[key]) else None
  }

  ghost function ServerView(f: FlatJar, slot: Slot): Option<View> {
    if slot in f then Some(View(f[slot].value, f[slot].secure, f[slot].httpOnly, f[slot].expires, f[slot].maxAge)) else None
  }

  // ----- the invariant, cookie by cookie -----

  // A cookie under study: any entry with its name and path.
  ghost predicate SoundEntries(ws: seq<WireEntry>) {
    forall i :: 0 <= i < |ws| ==> Sound(ws[i])
  }

  ghost predicate SoundMessages(ms: seq<Stamped>) {
    forall i :: 0 <= i < |ms| ==> Sound(ms[i].w)
  }

  ghost predicate SoundKeys(keys: seq<string>) {
    forall i :: 0 <= i < |keys| ==> Ackable(keys[i])
  }

  ghost predicate SoundJar(jar: map<string, WireEntry>) {
    forall k :: k in jar ==> Sound(jar[k])
  }

  ghost predicate SoundJob(j: Job) {
    && SoundMessages(j.todo) && SoundKeys(j.acks) && SoundEntries(j.pushes)
    && (j.pushes != [] ==> j.todo == [])
  }

  ghost predicate SoundState(s: State) {
    && Valid(s.client)
    && SoundJar(s.client.jar)
    && (forall r :: r in s.requests ==> SoundMessages(r.entries))
    && (forall j :: j in s.jobs ==> SoundJob(j))
    && (forall p :: p in s.responses ==> SoundEntries(p.push))
  }

  // Whatever carries or acknowledges the page's keys is for its own host.
  ghost predicate SentHome(s: State, site: Site) {
    && (forall r :: r in s.requests && r.entries != [] ==> AtHome(site, r.host))
    && (forall j :: j in s.jobs && (j.todo != [] || j.acks != []) ==> AtHome(site, j.host))
  }

  // What holds of one cookie, given its key, its slot, and what both sides hold for it.
  datatype Case = Case(key: string, slot: Slot)

  ghost predicate Agree(s: State, c: Case) {
    ServerView(s.server, c.slot) == ClientView(s.client, c.key)
  }

  ghost predicate Untouched(s: State, c: Case) {
    c.slot !in s.history.touched
  }

  // Messages carry the current version, and the current entry.
  ghost predicate CarriesCurrent(s: State, c: Case, ms: seq<Stamped>) {
    forall i :: 0 <= i < |ms| && KeyOf(ms[i].w) == c.key ==>
      && ms[i].version == s.Version(c.key)
      && (Untouched(s, c) ==> Wanted(ms[i].w) == ClientView(s.client, c.key))
  }

  ghost predicate Confirmed(s: State, c: Case) {
    s.Settled(c.key) && (Untouched(s, c) ==> Agree(s, c))
  }

  ghost predicate NoPush(s: State, c: Case, ws: seq<WireEntry>) {
    PushesKey(ws, c.key) ==> !Untouched(s, c)
  }

  ghost predicate JobInv(s: State, c: Case, j: Job) {
    && CarriesCurrent(s, c, j.todo)
    && (c.key in j.acks && !PushesKey(j.pushes, c.key) ==> Confirmed(s, c))
    && NoPush(s, c, j.pushes)
  }

  ghost predicate ResponseInv(s: State, c: Case, p: Response) {
    && (c.key in SplitAck(p.ack) && !PushesKey(p.push, c.key) ==> Confirmed(s, c))
    && NoPush(s, c, p.push)
  }

  ghost predicate CleanInv(s: State, c: Case) {
    c.key !in s.client.dirty ==>
      && (Untouched(s, c) ==> Agree(s, c))
      && s.Recorded(c.key)
  }

  // No record speaks of a write that has not been made.
  ghost predicate NoFuture(s: State, c: Case) {
    forall v: nat :: v > s.Version(c.key) ==>
      (c.key, v) !in s.history.applied && (c.key, v) !in s.history.late && (c.key, v) !in s.history.replaced
  }

  ghost predicate Inv(s: State, c: Case) {
    && NoFuture(s, c)
    && (forall r :: r in s.requests ==> CarriesCurrent(s, c, r.entries))
    && (forall j :: j in s.jobs ==> JobInv(s, c, j))
    && (forall p :: p in s.responses ==> ResponseInv(s, c, p))
    && CleanInv(s, c)
  }

  // The key and slot of a sound name and path.
  function CaseOf(site: Site, w: WireEntry): Case {
    Case(KeyOf(w), SlotOfWire(site, w))
  }

  /** For sound entries, key and slot determine each other. */
  lemma CaseInjective(site: Site, w: WireEntry, x: WireEntry)
    requires Sound(w) && Sound(x)
    ensures KeyOf(w) == KeyOf(x) <==> SlotOfWire(site, w) == SlotOfWire(site, x)
  {
    if KeyOf(w) == KeyOf(x) { CookieKeyInjective(w.n, w.p, x.n, x.p); }
    if SlotOfWire(site, w) == SlotOfWire(site, x) { EntryKeyInjective(w.n, PathOrRoot(w.p), x.n, PathOrRoot(x.p)); }
  }

  // ----- runs -----

  /** A page just loaded: nothing under way, nothing dirty, and untouched slots agree. */
  ghost predicate Start(s: State, site: Site) {
    && SoundState(s)
    && s.requests == multiset{} && s.jobs == multiset{} && s.responses == multiset{}
    && s.client.dirty == {}
    && s.history == History(map[], {}, {}, {}, s.history.touched)
    && (forall x :: Sound(x) && Untouched(s, CaseOf(site, x)) ==> Agree(s, CaseOf(site, x)))
  }

  /** A disciplined run of steps from s to t. */
  ghost predicate Run(s: State, site: Site, steps: seq<Step>, t: State)
    decreases |steps|
  {
    if steps == [] then s == t
    else
      var last := steps[|steps| - 1];
      exists m :: Run(s, site, steps[..|steps| - 1], m) && Enabled(m, site, last) && Disciplined(m, site, last) && t == Next(m, site, last)
  }

  // ----- how a page starts -----

  // The slots a freshly loaded page does not track: those the server holds and the page was not
  // given, or was given in a form that lost something.
  ghost function Untracked(site: Site, client: Client, server: FlatJar): set<Slot> {
    (server.Keys + SlotsOf(site, client.jar, client.jar.Keys))
      - (set k | k in client.jar && ServerView(server, SlotOfWire(site, client.jar[k])) == Wanted(client.jar[k])
           :: SlotOfWire(site, client.jar[k]))
  }

  /** A page loaded with sound, live cookies starts a run, tracking every cookie it was given faithfully. */
  lemma LoadedPageStarts(site: Site, ws: seq<WireEntry>, server: FlatJar)
    requires forall i :: 0 <= i < |ws| ==> Sound(ws[i]) && !IsTombstone(ws[i])
    ensures var touched := Untracked(site, Load(ws), server);
            && Start(State(Load(ws), server, multiset{}, multiset{}, multiset{}, History(map[], {}, {}, {}, touched)), site)
            && (forall i :: LastOfItsKey(ws, i) && ServerView(server, SlotOfWire(site, ws[i])) == Wanted(ws[i]) ==>
                  SlotOfWire(site, ws[i]) !in touched)
            && (forall slot :: slot !in server && (forall i :: 0 <= i < |ws| ==> SlotOfWire(site, ws[i]) != slot) ==> slot !in touched)
    ensures LoadedFrom(Load(ws), ws)
  {
    LoadKeepsAll(ws);
    LoadTracks(site, ws, server);
    var c := Load(ws);
    var s := State(c, server, multiset{}, multiset{}, multiset{}, History(map[], {}, {}, {}, Untracked(site, c, server)));
    LoadIsValid(ws);
    LoadIsSound(ws);
    forall x | Sound(x) && Untouched(s, CaseOf(site, x)) ensures Agree(s, CaseOf(site, x)) {
      LoadedAgrees(site, c, server, x);
    }
  }

  lemma SameSlot(site: Site, x: WireEntry, w: WireEntry)
    requires IsWithPath(x, w)
    ensures SlotOfWire(site, x) == SlotOfWire(site, w) && Wanted(x) == Wanted(w)
  {
  }

  lemma LoadTracks(site: Site, ws: seq<WireEntry>, server: FlatJar)
    requires LoadedFrom(Load(ws), ws)
    ensures forall i :: LastOfItsKey(ws, i) && ServerView(server, SlotOfWire(site, ws[i])) == Wanted(ws[i]) ==>
        SlotOfWire(site, ws[i]) !in Untracked(site, Load(ws), server)
    ensures forall slot :: slot !in server && (forall i :: 0 <= i < |ws| ==> SlotOfWire(site, ws[i]) != slot) ==>
        slot !in Untracked(site, Load(ws), server)
  {
    hide KeyOf, SlotOfWire, Wanted, ServerView, IsWithPath;
    var jar := Load(ws).jar;
    forall i | LastOfItsKey(ws, i) ensures KeyOf(ws[i]) in jar && SlotOfWire(site, jar[KeyOf(ws[i])]) == SlotOfWire(site, ws[i])
      && Wanted(jar[KeyOf(ws[i])]) == Wanted(ws[i])
    {
      SameSlot(site, jar[KeyOf(ws[i])], ws[i]);
    }
    forall k | k in jar ensures exists i :: 0 <= i < |ws| && SlotOfWire(site, jar[k]) == SlotOfWire(site, ws[i]) {
      var i :| LastOfItsKey(ws, i) && KeyOf(ws[i]) == k;
    }
  }

  lemma {:induction false} LoadIsSound(ws: seq<WireEntry>)
    requires forall i :: 0 <= i < |ws| ==> Sound(ws[i])
    ensures SoundJar(Load(ws).jar) && Load(ws).dirty == {}
    decreases |ws|
  {
    if ws != [] {
      LoadIsSound(ws[..|ws| - 1]);
      assert Sound(ws[|ws| - 1]);
    }
  }

  lemma LoadedAgrees(site: Site, c: Client, server: FlatJar, x: WireEntry)
    requires Valid(c) && SoundJar(c.jar) && Sound(x)
    requires SlotOfWire(site, x) !in Untracked(site, c, server)
    ensures ServerView(server, SlotOfWire(site, x)) == ClientView(c, KeyOf(x))
  {
    hide SlotOfWire, KeyOf, Wanted, Sound;
    var slot, key := SlotOfWire(site, x), KeyOf(x);
    if key in c.jar {
      CaseInjective(site, x, c.jar[key]);
    }
    if k :| k in c.jar && SlotOfWire(site, c.jar[k]) == slot && ServerView(server, slot) == Wanted(c.jar[k]) {
      CaseInjective(site, x, c.jar[k]);
    } else {
      assert slot !in server.Keys + SlotsOf(site, c.jar, c.jar.Keys);
    }
  }

  /**
    A live host-only cookie whose expiry is whole seconds, and no Max-Age, is given faithfully: under
    its own key and slot, with all that the page can hold of it.
   */
  lemma InjectedIsFaithful(site: Site, e: CookieEntry, now: int)
    requires now >= 0 && !e.IsExpired(now) && e.maxAge == 0 && e.path != ""
    requires e.expires == ZERO_TIME || (e.expires > 0 && e.expires % SECOND == 0)
    ensures var w := EncodeInjected(e.ToHttp());
            && w.n == e.name && w.v == e.value && w.p == e.path && w.s == e.secure && w.h == e.httpOnly
            && KeyOf(w) == e.name + "|" + e.path
            && (e.domain == CanonicalDomain(site.host) ==> SlotOfWire(site, w) == SlotOf(e))
    ensures Wanted(EncodeInjected(e.ToHttp())) == Some(View(e.value, e.secure, e.httpOnly, e.expires, e.maxAge))
  {
  }

  /**
    What a page shows to its scripts is what section 5.4 of RFC 6265 says of the server's entry for
    it: an entry the page and the jar hold alike is shown for a path, on a scheme, at a time, exactly
    when the RFC would send the stored cookie with such a request, and it is not for HTTP only.
   */
  lemma ShownExactlyAsRfc(w: WireEntry, e: CookieEntry, host: string, path: string, secure: bool, now: int)
    requires Wanted(w) == Some(View(e.value, e.secure, e.httpOnly, e.expires, e.maxAge)) && e.path == w.p
    requires e.hostOnly && e.domain == ToLower(host)
    ensures Shown(w, path, secure, now)
       <==> RfcApplies(e.domain, e, ToLower(host), path, now * 1_000_000, Transport(false, secure)) && !e.httpOnly
  {
    BrowserPathMatchIsRfc(path, w.p);
    hide BrowserPathMatch, RfcPathMatch, ToLower;
  }
}
