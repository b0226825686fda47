/**
  The browser's cookie store: a map of entries by key and the set of keys whose last change the
  server has not acknowledged. Deletions stay in the map as tombstones until acknowledged.
 */
module ShadowJar {
  import opened Clock
  import opened Matching
  import opened Cookies
  import opened NestedMap
  import opened Wire

  datatype Client = Client(jar: map<string, WireEntry>, dirty: set<string>)

  function KeyOf(w: WireEntry): string {
    CookieKey(w.n, w.p)
  }

  predicate IsTombstone(w: WireEntry) {
    w.e == TOMBSTONE
  }

  function TombstoneOf(w: WireEntry): WireEntry {
    WireEntry(w.n, "", w.p, TOMBSTONE, false, false)
  }

  // `now` is Date.now(), in milliseconds.
  predicate HasExpired(w: WireEntry, now: int) {
    w.e > 0 && w.e * 1000 < now
  }

  // ----- what each operation does -----

  /** The document.cookie setter, after parsing. */
  function SetCookie(c: Client, w: WireEntry, now: int): Client {
    var key := KeyOf(w);
    if IsTombstone(w) || HasExpired(w, now) then
      var named := if key in c.jar then c.jar[key] else w;
      Client(c.jar[key := TombstoneOf(named)], c.dirty + {key})
    else Client(c.jar[key := w], c.dirty + {key})
  }

  function ExpiredKeys(c: Client, now: int): set<string> {
    set k | k in c.jar && HasExpired(c.jar[k], now)
  }

  /** Expired entries become dirty tombstones. */
  function Sweep(c: Client, now: int): Client {
    var gone := ExpiredKeys(c, now);
    Client(map k | k in c.jar :: if k in gone then TombstoneOf(c.jar[k]) else c.jar[k], c.dirty + gone)
  }

  /** One acknowledged key: clean, and gone if it was a tombstone. */
  function AckKey(c: Client, key: string): Client {
    Client(if key in c.jar && IsTombstone(c.jar[key]) then c.jar - {key} else c.jar, c.dirty - {key})
  }

  function Ack(c: Client, keys: seq<string>): Client
    decreases |keys|
  {
    if keys == [] then c else AckKey(Ack(c, keys[..|keys| - 1]), keys[|keys| - 1])
  }

  function WithPath(w: WireEntry): WireEntry {
    w.(p := PathOrRoot(w.p))
  }

  /** One pushed entry: the server's word, so never dirty. */
  function PushOne(c: Client, w: WireEntry): Client {
    var key := KeyOf(w);
    Client(if IsTombstone(w) then c.jar - {key} else c.jar[key := WithPath(w)], c.dirty - {key})
  }

  function Push(c: Client, ws: seq<WireEntry>): Client
    decreases |ws|
  {
    if ws == [] then c else PushOne(Push(c, ws[..|ws| - 1]), ws[|ws| - 1])
  }

  /** The store built from the cookies injected into the page. */
  function Load(ws: seq<WireEntry>): Client
    decreases |ws|
  {
    if ws == [] then Client(map[], {})
    else
      var c := Load(ws[..|ws| - 1]);
      var w := ws[|ws| - 1];
      Client(c.jar[KeyOf(w) := WithPath(w)], {})
  }

  // No later entry of the list has the same name and path.
  ghost predicate LastOfItsKey(ws: seq<WireEntry>, i: int) {
    0 <= i < |ws| && forall j :: i < j < |ws| ==> KeyOf(ws[j]) != KeyOf(ws[i])
  }

  // Entry x is w, with an empty path turned into "/".
  predicate IsWithPath(x: WireEntry, w: WireEntry) {
    x.n == w.n && x.v == w.v && x.p == (if w.p == "" then "/" else w.p) && x.e == w.e && x.s == w.s && x.h == w.h
  }

  // The store has what it was given and nothing else: the last entry for each key, none of them dirty.
  ghost predicate LoadedFrom(c: Client, ws: seq<WireEntry>) {
    && c.dirty == {}
    && (forall i :: LastOfItsKey(ws, i) ==> KeyOf(ws[i]) in c.jar && IsWithPath(c.jar[KeyOf(ws[i])], ws[i]))
    && (forall k :: k in c.jar ==> exists i :: LastOfItsKey(ws, i) && KeyOf(ws[i]) == k)
  }

  lemma LastInPrefix(ws: seq<WireEntry>, i: int)
    requires 0 <= i < |ws| - 1
    ensures LastOfItsKey(ws, i) <==> LastOfItsKey(ws[..|ws| - 1], i) && KeyOf(ws[i]) != KeyOf(ws[|ws| - 1])
  {
    hide KeyOf;
    var init := ws[..|ws| - 1];
    assert forall j :: 0 <= j < |init| ==> init[j] == ws[j];
    if LastOfItsKey(init, i) && KeyOf(ws[i]) != KeyOf(ws[|ws| - 1]) {
      forall j | i < j < |ws| ensures KeyOf(ws[j]) != KeyOf(ws[i]) {
        if j < |init| { assert KeyOf(init[j]) != KeyOf(init[i]); }
      }
    }
    if LastOfItsKey(ws, i) {
      forall j | i < j < |init| ensures KeyOf(init[j]) != KeyOf(init[i]) {
        assert KeyOf(ws[j]) != KeyOf(ws[i]);
      }
    }
  }

  lemma LoadStep(ws: seq<WireEntry>)
    requires ws != []
    ensures var n := |ws| - 1;
            && Load(ws).jar == Load(ws[..n]).jar[KeyOf(ws[n]) := WithPath(ws[n])]
            && IsWithPath(WithPath(ws[n]), ws[n]) && LastOfItsKey(ws, n)
  {
    hide KeyOf;
  }

  lemma {:induction false} LoadHolds(ws: seq<WireEntry>, i: int)
    requires LastOfItsKey(ws, i)
    ensures KeyOf(ws[i]) in Load(ws).jar && IsWithPath(Load(ws).jar[KeyOf(ws[i])], ws[i])
    decreases |ws|
  {
    LoadStep(ws);
    if i < |ws| - 1 {
      hide KeyOf, IsWithPath, Load;
      LastInPrefix(ws, i);
      LoadHolds(ws[..|ws| - 1], i);
      assert ws[..|ws| - 1][i] == ws[i];
    }
  }

  lemma {:induction false} LoadOnly(ws: seq<WireEntry>, k: string) returns (i: int)
    requires k in Load(ws).jar
    ensures LastOfItsKey(ws, i) && KeyOf(ws[i]) == k
    decreases |ws|
  {
    LoadStep(ws);
    hide KeyOf, IsWithPath, Load;
    i := |ws| - 1;
    if k != KeyOf(ws[i]) {
      i := LoadOnly(ws[..|ws| - 1], k);
      LastInRange(ws[..|ws| - 1], i);
      assert ws[..|ws| - 1][i] == ws[i];
      LastInPrefix(ws, i);
    }
  }

  /** Loading a page keeps exactly the cookies it is given, the last for each name and path. */
  lemma LoadKeepsAll(ws: seq<WireEntry>)
    ensures LoadedFrom(Load(ws), ws)
  {
    assert Load(ws).dirty == {};
    hide KeyOf, IsWithPath, Load, LastOfItsKey;
    forall i | LastOfItsKey(ws, i) ensures 0 <= i < |ws| && KeyOf(ws[i]) in Load(ws).jar && IsWithPath(Load(ws).jar[KeyOf(ws[i])], ws[i]) {
      LastInRange(ws, i);
      LoadHolds(ws, i);
    }
    forall k | k in Load(ws).jar ensures exists i :: LastOfItsKey(ws, i) && 0 <= i < |ws| && KeyOf(ws[i]) == k {
      var i := LoadOnly(ws, k);
      LastInRange(ws, i);
    }
  }

  lemma LastInRange(ws: seq<WireEntry>, i: int)
    requires LastOfItsKey(ws, i)
    ensures 0 <= i < |ws|
  {
  }

  // The entries of the keys in `order` that are in the jar, in that order.
  function LookUp(jar: map<string, WireEntry>, order: seq<string>): seq<WireEntry>
    decreases |order|
  {
    if order == [] then []
    else
      var init, k := LookUp(jar, order[..|order| - 1]), order[|order| - 1];
      if k in jar then init + [jar[k]] else init
  }

  // ----- what every reachable store satisfies -----

  ghost predicate Valid(c: Client) {
    && c.dirty <= c.jar.Keys
    && (forall k :: k in c.jar ==> KeyOf(c.jar[k]) == k)
    && (forall k :: k in c.jar && IsTombstone(c.jar[k]) ==> k in c.dirty)
  }

  datatype ClientOp =
    | Assign(w: WireEntry, now: int)
    | Expire(now: int)
    | Confirm(keys: seq<string>)
    | Absorb(ws: seq<WireEntry>)

  function Do(c: Client, op: ClientOp): Client {
    match op
    case Assign(w, now) => SetCookie(c, w, now)
    case Expire(now) => Sweep(c, now)
    case Confirm(keys) => Ack(c, keys)
    case Absorb(ws) => Push(c, ws)
  }

  function DoAll(c: Client, ops: seq<ClientOp>): Client
    decreases |ops|
  {
    if ops == [] then c else Do(DoAll(c, ops[..|ops| - 1]), ops[|ops| - 1])
  }

  lemma {:induction false} AckKeepsValid(c: Client, keys: seq<string>)
    requires Valid(c)
    ensures Valid(Ack(c, keys))
    decreases |keys|
  {
    if keys != [] { AckKeepsValid(c, keys[..|keys| - 1]); }
  }

  lemma PushOneKeepsValid(c: Client, w: WireEntry)
    requires Valid(c)
    ensures Valid(PushOne(c, w))
  {
    assert KeyOf(WithPath(w)) == KeyOf(w);
  }

  lemma {:induction false} PushKeepsValid(c: Client, ws: seq<WireEntry>)
    requires Valid(c)
    ensures Valid(Push(c, ws))
    decreases |ws|
  {
    if ws != [] {
      PushKeepsValid(c, ws[..|ws| - 1]);
      PushOneKeepsValid(Push(c, ws[..|ws| - 1]), ws[|ws| - 1]);
    }
  }

  lemma SetCookieKeepsValid(c: Client, w: WireEntry, now: int)
    requires Valid(c)
    ensures Valid(SetCookie(c, w, now))
  {
    var key := KeyOf(w);
    assert KeyOf(TombstoneOf(w)) == key;
    if key in c.jar { assert KeyOf(TombstoneOf(c.jar[key])) == key; }
  }

  lemma SweepKeepsValid(c: Client, now: int)
    requires Valid(c)
    ensures Valid(Sweep(c, now))
  {
    forall k | k in c.jar ensures KeyOf(TombstoneOf(c.jar[k])) == k {
    }
  }

  lemma DoKeepsValid(c: Client, op: ClientOp)
    requires Valid(c)
    ensures Valid(Do(c, op))
  {
    match op
    case Assign(w, now) => SetCookieKeepsValid(c, w, now);
    case Expire(now) => SweepKeepsValid(c, now);
    case Confirm(keys) => AckKeepsValid(c, keys);
    case Absorb(ws) => PushKeepsValid(c, ws);
  }

  /** A page that loads no tombstone starts out valid; the server never injects one for a live cookie. */
  lemma {:induction false} LoadIsValid(ws: seq<WireEntry>)
    requires forall w :: w in ws ==> !IsTombstone(w)
    ensures Valid(Load(ws)) && forall k :: k in Load(ws).jar ==> !IsTombstone(Load(ws).jar[k])
    decreases |ws|
  {
    if ws != [] {
      var init, w := ws[..|ws| - 1], ws[|ws| - 1];
      assert w in ws && forall x :: x in init ==> x in ws;
      LoadIsValid(init);
      assert KeyOf(WithPath(w)) == KeyOf(w);
    }
  }

  lemma InjectedIsNoTombstone(e: CookieEntry, now: int)
    requires now >= 0 && !e.IsExpired(now) && (e.maxAge > 0 ==> e.expires == ZERO_TIME)
    ensures !IsTombstone(EncodeInjected(e.ToHttp()))
  {
  }

  /** Every store a page can reach keeps its dirty keys and its tombstones together. */
  lemma {:induction false} ReachableIsValid(ws: seq<WireEntry>, ops: seq<ClientOp>)
    requires forall w :: w in ws ==> !IsTombstone(w)
    ensures Valid(DoAll(Load(ws), ops))
    decreases |ops|
  {
    if ops == [] {
      LoadIsValid(ws);
    } else {
      ReachableIsValid(ws, ops[..|ops| - 1]);
      DoKeepsValid(DoAll(Load(ws), ops[..|ops| - 1]), ops[|ops| - 1]);
    }
  }

  // ----- the sync payload -----

  // `order` lists the dirty keys once each, `payload` their entries.
  ghost predicate IsPayload(c: Client, order: seq<string>, payload: seq<WireEntry>) {
    multiset(order) == multiset(c.dirty) && payload == LookUp(c.jar, order)
  }

  lemma {:induction false} LookUpAligned(jar: map<string, WireEntry>, order: seq<string>)
    requires forall k :: k in order ==> k in jar
    ensures |LookUp(jar, order)| == |order|
    ensures forall i :: 0 <= i < |order| ==> LookUp(jar, order)[i] == jar[order[i]]
    decreases |order|
  {
    if order != [] {
      assert order[|order| - 1] in order;
      LookUpAligned(jar, order[..|order| - 1]);
    }
  }

  lemma OrderListsDirty<T>(order: seq<T>, dirty: set<T>)
    requires multiset(order) == multiset(dirty)
    ensures forall k :: k in order <==> k in dirty
    ensures |order| == |dirty|
  {
    assert forall k :: k in order <==> k in multiset(order);
    assert |multiset(order)| == |order| && |multiset(dirty)| == |dirty|;
  }

  /**
    The payload of a valid store has one entry for each dirty key, stored under that key; in
    particular it is empty only when nothing is dirty, so the branch that would clear a
    non-empty dirty set is never taken.
   */
  lemma PayloadCoversDirty(c: Client, order: seq<string>, payload: seq<WireEntry>)
    requires Valid(c) && IsPayload(c, order, payload)
    ensures |payload| == |c.dirty| == |order|
    ensures forall i :: 0 <= i < |order| ==> order[i] in c.dirty && payload[i] == c.jar[order[i]] && KeyOf(payload[i]) == order[i]
    ensures forall k :: k in c.dirty <==> exists i :: 0 <= i < |payload| && KeyOf(payload[i]) == k
  {
    OrderListsDirty(order, c.dirty);
    LookUpAligned(c.jar, order);
    assert forall i :: 0 <= i < |order| ==> order[i] in order;
    forall k | k in c.dirty ensures exists i :: 0 <= i < |payload| && KeyOf(payload[i]) == k {
      var i :| 0 <= i < |order| && order[i] == k;
      assert KeyOf(payload[i]) == k;
    }
  }

  // ----- what the page reads -----

  // The entry is shown to a script at this path: not deleted, not expired, matching, allowed on this
  // scheme, and not for HTTP only.
  predicate Shown(w: WireEntry, path: string, secure: bool, now: int) {
    && w.e != -1 && !(w.e > 0 && w.e * 1000 < now)
    && BrowserPathMatch(path, w.p) && (w.s ==> secure) && !w.h
  }

  // The keys document.cookie shows.
  function Visible(c: Client, path: string, secure: bool, now: int): set<string> {
    set k | k in c.jar && Shown(c.jar[k], path, secure, now)
  }

  /**
    A page reads what it wrote: after the setter the cookie is shown as it was written when it is to
    be shown at all, and is a tombstone when it was a deletion or had expired; every other cookie is
    shown as before.
   */
  lemma ReadYourWrites(c: Client, w: WireEntry, now: int, path: string, secure: bool)
    ensures var d, k := SetCookie(c, w, now), KeyOf(w);
            && Visible(d, path, secure, now) - {k} == Visible(c, path, secure, now) - {k}
            && (forall x :: x != k ==> (x in d.jar <==> x in c.jar) && (x in c.jar ==> d.jar[x] == c.jar[x]))
            && (k in Visible(d, path, secure, now) <==> Shown(w, path, secure, now))
            && k in d.jar && d.dirty == c.dirty + {k}
            && (if w.e == -1 || (w.e > 0 && w.e * 1000 < now) then d.jar[k].e == -1 && d.jar[k].v == "" else d.jar[k] == w)
  {
    hide KeyOf;
  }

  /**
    Sweeping is invisible: from then on the page reads what it would have read. It takes exactly the
    expired entries, as dirty tombstones of the same name and path.
   */
  lemma SweepIsInvisible(c: Client, now: int, path: string, secure: bool, later: int)
    requires now <= later
    ensures var d := Sweep(c, now);
            && Visible(d, path, secure, later) == Visible(c, path, secure, later)
            && d.jar.Keys == c.jar.Keys
            && (forall k :: k in c.jar ==>
                  if c.jar[k].e > 0 && c.jar[k].e * 1000 < now
                  then k in d.dirty && d.jar[k] == WireEntry(c.jar[k].n, "", c.jar[k].p, -1, false, false)
                  else (k in d.dirty <==> k in c.dirty) && d.jar[k] == c.jar[k])
  {
    hide BrowserPathMatch;
  }

  lemma VisibleAreUnswept(c: Client, now: int, path: string, secure: bool, order: seq<string>)
    requires multiset(order) == multiset(Visible(c, path, secure, now))
    ensures forall i :: 0 <= i < |order| ==> order[i] in c.jar && order[i] in Sweep(c, now).jar && Sweep(c, now).jar[order[i]] == c.jar[order[i]]
  {
    hide BrowserPathMatch;
    forall i | 0 <= i < |order| ensures order[i] in Visible(c, path, secure, now) {
      assert order[i] in multiset(order);
    }
  }

  lemma NothingVisited(c: Client, path: string, secure: bool, now: int)
    ensures Visible(c, path, secure, now) - c.jar.Keys == {}
  {
  }

  // One more key of a walk over the store.
  lemma VisitOne(c: Client, path: string, secure: bool, now: int, todo: set<string>, key: string, order: seq<string>)
    requires key in todo && todo <= c.jar.Keys && multiset(order) == multiset(Visible(c, path, secure, now) - todo)
    ensures var order := if Shown(c.jar[key], path, secure, now) then order + [key] else order;
            multiset(order) == multiset(Visible(c, path, secure, now) - (todo - {key}))
  {
    hide BrowserPathMatch;
    var seen := Visible(c, path, secure, now) - todo;
    if Shown(c.jar[key], path, secure, now) {
      EnumerateStep(order, seen, key);
      assert Visible(c, path, secure, now) - (todo - {key}) == seen + {key};
    } else {
      assert Visible(c, path, secure, now) - (todo - {key}) == seen;
    }
  }

  /** So is an acknowledgement, whatever keys it has. */
  lemma {:induction false} AckIsInvisible(c: Client, keys: seq<string>, path: string, secure: bool, now: int)
    ensures Visible(Ack(c, keys), path, secure, now) == Visible(c, path, secure, now)
    ensures forall k :: k in Visible(c, path, secure, now) ==> k in Ack(c, keys).jar && Ack(c, keys).jar[k] == c.jar[k]
    decreases |keys|
  {
    if keys != [] {
      hide BrowserPathMatch;
      AckIsInvisible(c, keys[..|keys| - 1], path, secure, now);
      AckKeyIsInvisible(Ack(c, keys[..|keys| - 1]), keys[|keys| - 1], path, secure, now);
    }
  }

  lemma AckKeyIsInvisible(c: Client, key: string, path: string, secure: bool, now: int)
    ensures Visible(AckKey(c, key), path, secure, now) == Visible(c, path, secure, now)
    ensures forall k :: k in Visible(c, path, secure, now) ==> k in AckKey(c, key).jar && AckKey(c, key).jar[k] == c.jar[k]
  {
    hide BrowserPathMatch;
  }

  // ----- deletion by expiry -----

  /**
    Writing a cookie whose Expires lies in the past deletes it exactly when that instant is
    at least a second after the epoch, or in the last second before it. In particular the usual
    "Thu, 01 Jan 1970 00:00:00 GMT" stores a session cookie instead.
   */
  lemma PastExpiryDeletes(c: Client, w: WireEntry, expires: int, now: int)
    requires expires < now && w.e == expires / 1000
    ensures IsTombstone(SetCookie(c, w, now).jar[KeyOf(w)]) <==> expires >= 1000 || -1000 <= expires < 0
    ensures expires == 0 ==> SetCookie(c, w, now).jar[KeyOf(w)] == w
  {
    assert expires / 1000 * 1000 <= expires;
  }

  // ----- the module's state -----

  class ShadowStore {
    var jar: map<string, WireEntry>
    var dirty: set<string>

    ghost function State(): Client
      reads this
    {
      Client(jar, dirty)
    }

    constructor ()
      ensures State() == Client(map[], {})
    {
      jar, dirty := map[], {};
    }

    method Set(entry: WireEntry, now: int)
      modifies this
      ensures State() == SetCookie(old(State()), entry, now)
    {
      var key := KeyOf(entry);
      if entry.e == TOMBSTONE || (entry.e > 0 && entry.e * 1000 < now) {
        if key in jar {
          var existing := jar[key];
          jar := jar[key := WireEntry(existing.n, "", existing.p, TOMBSTONE, false, false)];
        } else {
          jar := jar[key := WireEntry(entry.n, "", entry.p, TOMBSTONE, false, false)];
        }
        dirty := dirty + {key};
        return;
      }
      jar := jar[key := entry];
      dirty := dirty + {key};
    }

    method CleanExpired(now: int)
      modifies this
      ensures State() == Sweep(old(State()), now)
    {
      ghost var c := State();
      var todo := jar.Keys;
      while todo != {}
        invariant todo <= c.jar.Keys && jar.Keys == c.jar.Keys
        invariant forall k :: k in c.jar ==>
            jar[k] == if k !in todo && HasExpired(c.jar[k], now) then TombstoneOf(c.jar[k]) else c.jar[k]
        invariant dirty == c.dirty + (ExpiredKeys(c, now) - todo)
        decreases todo
      {
        var key :| key in todo;
        todo := todo - {key};
        var entry := jar[key];
        if entry.e > 0 && entry.e * 1000 < now {
          jar := jar[key := WireEntry(entry.n, "", entry.p, TOMBSTONE, false, false)];
          dirty := dirty + {key};
        }
      }
      assert jar == Sweep(c, now).jar;
    }

    method InitServerCookies(cookies: seq<WireEntry>)
      modifies this
      ensures State() == Load(cookies) && LoadedFrom(State(), cookies)
    {
      LoadKeepsAll(cookies);
      hide LoadedFrom;
      jar := map[];
      for i := 0 to |cookies|
        invariant jar == Load(cookies[..i]).jar
      {
        var c := cookies[i];
        if c.p == "" {
          c := c.(p := "/");
        }
        assert cookies[..i + 1][..i] == cookies[..i];
        jar := jar[CookieKey(c.n, c.p) := c];
      }
      assert cookies[..|cookies|] == cookies;
      dirty := {};
    }

    /** The sync header: None when there is nothing to send. */
    method GetCookieSyncHeader() returns (payload: seq<WireEntry>, ghost order: seq<string>)
      modifies this
      ensures IsPayload(old(State()), order, payload)
      ensures State() == if payload == [] then old(State()).(dirty := {}) else old(State())
      ensures old(Valid(State())) ==> State() == old(State())
    {
      payload, order := [], [];
      ghost var c := State();
      if dirty == {} {
        return;
      }
      var todo := dirty;
      while todo != {}
        invariant todo <= dirty && State() == c
        invariant multiset(order) == multiset(dirty - todo)
        invariant payload == LookUp(jar, order)
        decreases todo
      {
        var key :| key in todo;
        EnumerateStep(order, dirty - todo, key);
        assert dirty - (todo - {key}) == (dirty - todo) + {key};
        assert (order + [key])[..|order|] == order;
        todo := todo - {key};
        order := order + [key];
        if key in jar {
          payload := payload + [jar[key]];
        }
      }
      assert dirty - todo == dirty;
      if payload == [] {
        if Valid(c) { PayloadCoversDirty(c, order, payload); }
        dirty := {};
      }
    }

    /** The entries to show, in some order, each once; HttpOnly ones are left out where the text is built. */
    method GetMatchingCookies(path: string, secure: bool, now: int) returns (entries: seq<WireEntry>, ghost order: seq<string>)
      ensures multiset(order) == multiset(Visible(State(), path, secure, now))
      ensures |entries| == |order| && forall i :: 0 <= i < |order| ==> order[i] in jar && entries[i] == jar[order[i]]
    {
      hide BrowserPathMatch, Visible;
      entries, order := [], [];
      var todo := jar.Keys;
      NothingVisited(State(), path, secure, now);
      while todo != {}
        invariant todo <= jar.Keys
        invariant multiset(order) == multiset(Visible(State(), path, secure, now) - todo)
        invariant |entries| == |order| && forall i :: 0 <= i < |order| ==> order[i] in jar && entries[i] == jar[order[i]]
        decreases todo
      {
        var key :| key in todo;
        VisitOne(State(), path, secure, now, todo, key, order);
        todo := todo - {key};
        var c := jar[key];
        if c.e == TOMBSTONE {
          continue;
        }
        if c.e > 0 && c.e * 1000 < now {
          continue;
        }
        if !BrowserPathMatch(path, c.p) {
          continue;
        }
        if c.s && !secure {
          continue;
        }
        if c.h {
          continue;
        }
        entries, order := entries + [c], order + [key];
      }
      assert Visible(State(), path, secure, now) - {} == Visible(State(), path, secure, now);
    }

    /** The getter of document.cookie, up to the order and the text of what it returns. */
    method GetDocumentCookie(path: string, secure: bool, now: int) returns (entries: seq<WireEntry>, ghost order: seq<string>)
      modifies this
      ensures State() == Sweep(old(State()), now)
      ensures multiset(order) == multiset(Visible(old(State()), path, secure, now))
      ensures |entries| == |order| && forall i :: 0 <= i < |order| ==> order[i] in old(jar) && entries[i] == old(jar)[order[i]]
    {
      ghost var c := State();
      SweepIsInvisible(c, now, path, secure, now);
      CleanExpired(now);
      hide Sweep, Visible;
      entries, order := GetMatchingCookies(path, secure, now);
      VisibleAreUnswept(c, now, path, secure, order);
    }

    method ProcessCookieAck(ack: string)
      modifies this
      ensures State() == Ack(old(State()), SplitAck(ack))
    {
      var confirmed := SplitAck(ack);
      for i := 0 to |confirmed|
        invariant State() == Ack(old(State()), confirmed[..i])
      {
        var key := confirmed[i];
        assert confirmed[..i + 1][..i] == confirmed[..i];
        dirty := dirty - {key};
        if key in jar && jar[key].e == TOMBSTONE {
          jar := jar - {key};
        }
      }
      assert confirmed[..|confirmed|] == confirmed;
    }

    method ProcessCookiePush(entries: seq<WireEntry>)
      modifies this
      ensures State() == Push(old(State()), entries)
    {
      for i := 0 to |entries|
        invariant State() == Push(old(State()), entries[..i])
      {
        var entry := entries[i];
        if entry.p == "" {
          entry := entry.(p := "/");
        }
        assert entries[..i + 1][..i] == entries[..i];
        var key := CookieKey(entry.n, entry.p);
        if entry.e == TOMBSTONE {
          jar := jar - {key};
          dirty := dirty - {key};
        } else {
          jar := jar[key := entry];
          dirty := dirty - {key};
        }
      }
      assert entries[..|entries|] == entries;
    }
  }
}
