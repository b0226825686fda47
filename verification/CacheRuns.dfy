/**
  The cache under concurrency: callers that queue writes, one writer, readers, and any number of
  Resize calls, interleaved wherever the lock allows. Resize publishes its bound before it takes
  the lock, so the writer can have read a bound that is no longer current.
 */
module CacheRuns {
  import opened Wrappers
  import opened LruModel
  import opened ResponseCache

  // The writer inside the lock: it has removed the old entry and read the bound.
  datatype Holder<K, P> = Holder(w: Write<K, P>, bound: int)

  // A write that was carried out, and when.
  datatype Committed<K, P> = Committed(w: Write<K, P>, at: int)

  // `latest` is the last Resize call to have stored its bound, `last` the write applied last for
  // each key; no step reads either.
  datatype Shared<K, P> = Shared(
    q: seq<Entry<K, P>>,
    maxSize: int,
    trims: map<nat, int>,              // Resize calls that have stored their bound, not yet trimmed
    holder: Option<Holder<K, P>>,
    queue: seq<Write<K, P>>,
    latest: Option<nat>,
    last: map<K, Committed<K, P>>)

  datatype Action<K, P> =
    | Submit(w: Write<K, P>)
    | Skip                              // the writer rejects the next queued write
    | Begin                             // the writer locks, removes the old entry, loads the bound
    | Commit(now: int)                  // it evicts, reads the clock, stores, unlocks
    | Publish(call: nat, bound: int)    // a Resize call stores its bound
    | Trim(call: nat)                   // it locks, evicts, unlocks
    | Read(key: K, now: int)

  predicate CanAct<K(==), P>(s: Shared<K, P>, a: Action<K, P>) {
    match a
    case Submit(_) => true
    case Skip => s.holder.None? && s.queue != [] && !s.queue[0].Stores()
    case Begin => s.holder.None? && s.queue != [] && s.queue[0].Stores()
    case Commit(_) => s.holder.Some?
    case Publish(call, bound) => bound > 0 && call !in s.trims
    case Trim(call) => s.holder.None? && call in s.trims
    case Read(_, _) => s.holder.None?
  }

  function Act<K(==), P>(s: Shared<K, P>, a: Action<K, P>): Shared<K, P>
    requires CanAct(s, a)
  {
    match a
    case Submit(w) =>
      if w.bodySize > 0 && |s.queue| < WRITE_CAPACITY then s.(queue := s.queue + [w]) else s
    case Skip => s.(queue := s.queue[1..])
    case Begin =>
      var w := s.queue[0];
      s.(queue := s.queue[1..], q := Without(s.q, w.key), holder := Some(Holder(w, s.maxSize)))
    case Commit(now) =>
      var e, bound := s.holder.value.w.EntryAt(now), s.holder.value.bound;
      s.(q := [e] + Fit(s.q, bound - e.size), holder := None,
        last := s.last[e.key := Committed(s.holder.value.w, now)])
    case Publish(call, bound) => s.(maxSize := bound, trims := s.trims[call := bound], latest := Some(call))
    case Trim(call) => s.(q := Fit(s.q, s.trims[call]), trims := s.trims - {call})
    case Read(key, now) => s.(q := Look(s.q, key, now).0)
  }

  /** The latest Resize call has finished its trim. */
  predicate LatestDone<K, P>(s: Shared<K, P>) {
    s.latest.Some? ==> s.latest.value !in s.trims
  }

  predicate Bounded<K, P>(s: Shared<K, P>) {
    Total(s.q) <= s.maxSize || |s.q| == 1
  }

  // The write c is where entry e comes from.
  ghost predicate Backs<K, P>(c: Committed<K, P>, e: Entry<K, P>) {
    c.w.bodySize > 0 && c.w.ttl >= 0 && Holds(e, c.w, c.at)
  }

  ghost predicate Backed<K, P>(s: Shared<K, P>) {
    forall i :: 0 <= i < |s.q| ==> s.q[i].key in s.last && Backs(s.last[s.q[i].key], s.q[i])
  }

  ghost predicate Sized<K, P>(s: Shared<K, P>) {
    && (forall i :: 0 <= i < |s.q| ==> s.q[i].size >= 1)
    && (s.holder.Some? ==> s.holder.value.w.Stores() && Lacks(s.q, s.holder.value.w.key))
  }

  // What holds of the list and its entries, whatever the bound.
  ghost predicate ListInv<K, P>(s: Shared<K, P>) {
    Distinct(s.q) && Sized(s) && Backed(s)
  }

  // What holds of the bound.
  ghost predicate BoundInv<K, P>(s: Shared<K, P>) {
    && s.maxSize > 0
    && (s.latest.Some? && s.latest.value in s.trims ==> s.trims[s.latest.value] == s.maxSize)
    && (LatestDone(s) ==> Bounded(s))
    && (LatestDone(s) && s.holder.Some? ==> s.holder.value.bound == s.maxSize)
  }

  ghost predicate Inv<K, P>(s: Shared<K, P>) {
    ListInv(s) && BoundInv(s)
  }

  lemma SizesSum<K, P>(q: seq<Entry<K, P>>)
    requires forall i :: 0 <= i < |q| ==> q[i].size >= 1
    ensures NonNegative(q) && Total(q) >= |q|
  {
    TotalNonNegative(q);
  }

  lemma WithinKeepsFacts<K, P>(s: Shared<K, P>, r: seq<Entry<K, P>>)
    requires Within(r, s.q) && Sized(s) && Backed(s)
    ensures forall i :: 0 <= i < |r| ==> r[i].size >= 1 && r[i].key in s.last && Backs(s.last[r[i].key], r[i])
    ensures s.holder.Some? ==> Lacks(r, s.holder.value.w.key)
  {
  }

  // Keeping a part of the list keeps it bounded.
  lemma FitKeepsBounded<K, P>(q: seq<Entry<K, P>>, budget: int, maxSize: int)
    requires (Total(q) <= maxSize || |q| == 1) && maxSize > 0
    requires forall i :: 0 <= i < |q| ==> q[i].size >= 1
    ensures Total(Fit(q, budget)) <= maxSize || |Fit(q, budget)| == 1
  {
    FitIsLongest(q, budget);
    SizesSum(q);
    PrefixKeeps(Fit(q, budget), q);
  }

  lemma WithoutKeepsBounded<K, P>(q: seq<Entry<K, P>>, k: K, maxSize: int)
    requires (Total(q) <= maxSize || |q| == 1) && maxSize > 0
    requires forall i :: 0 <= i < |q| ==> q[i].size >= 1
    ensures Total(Without(q, k)) <= maxSize || |Without(q, k)| == 1
  {
    WithoutTotal(q, k);
    if HasKey(q, k) { EntryOfAt(q, k); }
  }

  lemma BeginKeepsInv<K, P>(s: Shared<K, P>)
    requires Inv(s) && CanAct(s, Begin)
    ensures Inv(Act(s, Begin))
  {
    var k := s.queue[0].key;
    WithoutMembers(s.q, k);
    WithinKeepsFacts(s, Without(s.q, k));
    if LatestDone(s) { WithoutKeepsBounded(s.q, k, s.maxSize); }
  }

  lemma CommitKeepsList<K, P>(s: Shared<K, P>, now: int)
    requires ListInv(s) && CanAct(s, Commit(now))
    ensures ListInv(Act(s, Commit(now)))
  {
    hide Distinct, Backed, Lacks, Fit;
    var h := s.holder.value;
    var e := h.w.EntryAt(now);
    FitKeepsList(s, h.bound - e.size);
    var c := Committed(h.w, now);
    PushKeepsList(s.(q := Fit(s.q, h.bound - e.size)), e, c);
    ListOnly(Pushed(s.(q := Fit(s.q, h.bound - e.size)), e, c), Act(s, Commit(now)));
  }

  // An entry put in front, as the write applied last for its key.
  function Pushed<K(==), P>(s: Shared<K, P>, e: Entry<K, P>, c: Committed<K, P>): Shared<K, P> {
    s.(q := [e] + s.q, holder := None, last := s.last[e.key := c])
  }

  lemma PushKeepsList<K, P>(s: Shared<K, P>, e: Entry<K, P>, c: Committed<K, P>)
    requires ListInv(s) && s.holder.Some? && c.w == s.holder.value.w && Backs(c, e)
    ensures ListInv(Pushed(s, e, c))
  {
    hide Distinct;
    FrontDistinct(e, s.q);
  }

  lemma CommitKeepsBound<K, P>(s: Shared<K, P>, now: int)
    requires BoundInv(s) && CanAct(s, Commit(now))
    ensures BoundInv(Act(s, Commit(now)))
  {
    var h := s.holder.value;
    var e := h.w.EntryAt(now);
    FitIsLongest(s.q, h.bound - e.size);
    var kept := Fit(s.q, h.bound - e.size);
    TotalAppend([e], kept);
    assert Total([e]) == e.size;
    assert kept == [] ==> [e] + kept == [e];
  }

  lemma TrimKeepsInv<K, P>(s: Shared<K, P>, call: nat)
    requires Inv(s) && CanAct(s, Trim(call))
    ensures Inv(Act(s, Trim(call)))
  {
    hide Distinct, Sized, Backed, Fit;
    var kept := Fit(s.q, s.trims[call]);
    FitKeepsList(s, s.trims[call]);
    ListOnly(s.(q := kept), Act(s, Trim(call)));
    if LatestDone(s) {
      TrimKeepsBounded(s, s.trims[call]);
    } else if LatestDone(Act(s, Trim(call))) {
      TrimFits(s, s.trims[call]);
    }
  }

  lemma FitKeepsList<K, P>(s: Shared<K, P>, budget: int)
    requires ListInv(s)
    ensures ListInv(s.(q := Fit(s.q, budget)))
  {
    FitIsLongest(s.q, budget);
    PrefixKeeps(Fit(s.q, budget), s.q);
    WithinKeepsFacts(s, Fit(s.q, budget));
  }

  // The bound and the trims have no part in what holds of the list.
  lemma ListOnly<K, P>(s: Shared<K, P>, t: Shared<K, P>)
    requires ListInv(s) && t.q == s.q && t.holder == s.holder && t.last == s.last
    ensures ListInv(t)
  {
  }

  lemma TrimKeepsBounded<K, P>(s: Shared<K, P>, budget: int)
    requires Sized(s) && Bounded(s) && s.maxSize > 0
    ensures Bounded(s.(q := Fit(s.q, budget)))
  {
    FitKeepsBounded(s.q, budget, s.maxSize);
  }

  lemma TrimFits<K, P>(s: Shared<K, P>, budget: int)
    requires budget == s.maxSize > 0
    ensures Bounded(s.(q := Fit(s.q, budget)))
  {
    FitIsLongest(s.q, budget);
  }

  // Replacing the list by another arrangement of some of its entries.
  lemma RearrangeKeepsInv<K, P>(s: Shared<K, P>, r: seq<Entry<K, P>>)
    requires Inv(s) && Within(r, s.q) && Distinct(r)
    requires Bounded(s) ==> Bounded(s.(q := r))
    ensures Inv(s.(q := r))
  {
    WithinKeepsFacts(s, r);
  }

  lemma ReadKeepsInv<K, P>(s: Shared<K, P>, key: K, now: int)
    requires Inv(s) && CanAct(s, Read(key, now))
    ensures Inv(Act(s, Read(key, now)))
  {
    hide HasKey, Without, MoveToFront, Within, Sized, Backed, Distinct;
    if HasKey(s.q, key) {
      WithoutMembers(s.q, key);
      MoveToFrontKeeps(s.q, key);
      if Bounded(s) { ReadKeepsBounded(s, key); }
      RearrangeKeepsInv(s, Look(s.q, key, now).0);
    }
  }

  lemma ReadKeepsBounded<K, P>(s: Shared<K, P>, key: K)
    requires Sized(s) && Bounded(s) && s.maxSize > 0
    ensures Bounded(s.(q := Without(s.q, key)))
  {
    WithoutKeepsBounded(s.q, key, s.maxSize);
  }

  lemma ActKeepsInv<K, P>(s: Shared<K, P>, a: Action<K, P>)
    requires Inv(s) && CanAct(s, a)
    ensures Inv(Act(s, a))
  {
    match a {
      case Begin => BeginKeepsInv(s);
      case Commit(now) =>
        CommitKeepsList(s, now);
        CommitKeepsBound(s, now);
      case Trim(call) => TrimKeepsInv(s, call);
      case Read(key, now) => ReadKeepsInv(s, key, now);
      case _ =>
    }
  }

  /** A write with nothing in between is the cache's SetLocked. */
  lemma UninterruptedWrite<K, P>(s: Shared<K, P>, now: int)
    requires CanAct(s, Begin)
    ensures Act(Act(s, Begin), Commit(now)).q == DoWrite(s.q, s.queue[0], s.maxSize, now)
  {
  }

  // ----- over every run -----

  function Fresh<K, P>(maxSize: int): Shared<K, P> {
    Shared([], maxSize, map[], None, [], None, map[])
  }

  ghost predicate Run<K(!new), P(!new)>(maxSize: int, actions: seq<Action<K, P>>, s: Shared<K, P>)
    decreases |actions|
  {
    if actions == [] then s == Fresh(maxSize)
    else
      var a := actions[|actions| - 1];
      exists m :: Run(maxSize, actions[..|actions| - 1], m) && CanAct(m, a) && s == Act(m, a)
  }

  lemma {:induction false} RunKeepsInv<K(!new), P(!new)>(maxSize: int, actions: seq<Action<K, P>>, s: Shared<K, P>)
    requires maxSize > 0 && Run(maxSize, actions, s)
    ensures Inv(s)
    decreases |actions|
  {
    if actions != [] {
      var init, a := actions[..|actions| - 1], actions[|actions| - 1];
      var m :| Run(maxSize, init, m) && CanAct(m, a) && s == Act(m, a);
      RunKeepsInv(maxSize, init, m);
      ActKeepsInv(m, a);
    }
  }

  /**
    Whenever the latest Resize call has finished its trim, the cache fits the current bound or
    holds a single entry, whatever was interleaved; so it never holds more than max(1, maxSize).
   */
  lemma ResizeTakesEffect<K(!new), P(!new)>(maxSize: int, actions: seq<Action<K, P>>, s: Shared<K, P>)
    requires maxSize > 0 && Run(maxSize, actions, s) && LatestDone(s)
    ensures Total(s.q) <= s.maxSize || |s.q| == 1
    ensures |s.q| <= s.maxSize || |s.q| == 1
  {
    RunKeepsInv(maxSize, actions, s);
    SizesSum(s.q);
  }

  lemma RunMore<K(!new), P(!new)>(maxSize: int, actions: seq<Action<K, P>>, m: Shared<K, P>, a: Action<K, P>)
    requires Run(maxSize, actions, m) && CanAct(m, a)
    ensures Run(maxSize, actions + [a], Act(m, a))
  {
    hide CanAct, Act;
    var all := actions + [a];
    assert all[..|all| - 1] == actions && all[|all| - 1] == a;
    assert Run(maxSize, all[..|all| - 1], m);
  }

  // The writer's next write, carried out or skipped, with nothing in between.
  lemma NextWrite<K(!new), P(!new)>(maxSize: int, actions: seq<Action<K, P>>, s: Shared<K, P>, now: int)
      returns (more: seq<Action<K, P>>, t: Shared<K, P>)
    requires Run(maxSize, actions, s) && s.holder.None? && s.queue != []
    ensures Run(maxSize, more, t)
    ensures t.holder.None? && t.queue == s.queue[1..] && t.maxSize == s.maxSize && t.trims == s.trims
    ensures t.q == DoWrite(s.q, s.queue[0], s.maxSize, now)
  {
    hide Run, Without, Fit;
    if s.queue[0].Stores() {
      UninterruptedWrite(s, now);
      RunMore(maxSize, actions, s, Begin);
      RunMore(maxSize, actions + [Begin], Act(s, Begin), Commit(now));
      more, t := actions + [Begin] + [Commit(now)], Act(Act(s, Begin), Commit(now));
    } else {
      RunMore(maxSize, actions, s, Skip);
      more, t := actions + [Skip], Act(s, Skip);
    }
  }

  /**
    The cache's own Close is one of the runs: from every state the runs reach in which the writer is
    outside the lock, some run ends with what DoWrites makes of the list, the queue empty. So all
    that holds over every run holds of it.
   */
  lemma {:induction false} CloseIsARun<K(!new), P(!new)>(maxSize: int, actions: seq<Action<K, P>>, s: Shared<K, P>, times: seq<int>)
      returns (more: seq<Action<K, P>>, t: Shared<K, P>)
    requires Run(maxSize, actions, s) && s.holder.None? && |times| == |s.queue|
    ensures Run(maxSize, more, t)
    ensures t.queue == [] && t.holder.None? && t.maxSize == s.maxSize && t.trims == s.trims
    ensures t.q == DoWrites(s.q, s.queue, s.maxSize, times)
    decreases |s.queue|
  {
    hide Run, DoWrite;
    if s.queue == [] {
      more, t := actions, s;
    } else {
      var first, m := NextWrite(maxSize, actions, s, times[0]);
      more, t := CloseIsARun(maxSize, first, m, times[1..]);
    }
  }

  lemma FreshRuns<K(!new), P(!new)>(maxSize: int)
    ensures Run<K, P>(maxSize, [], Fresh(maxSize))
  {
  }

  // A write into an empty queue, up to the point where the writer has read the bound.
  lemma SubmitAndBegin<K(!new), P(!new)>(maxSize: int, actions: seq<Action<K, P>>, s: Shared<K, P>, w: Write<K, P>) returns (t: Shared<K, P>)
    requires Run(maxSize, actions, s) && s.queue == [] && s.holder.None? && w.bodySize > 0 && w.ttl >= 0
    ensures Run(maxSize, actions + [Submit(w)] + [Begin], t)
    ensures t == s.(q := Without(s.q, w.key), holder := Some(Holder(w, s.maxSize)))
  {
    RunMore(maxSize, actions, s, Submit(w));
    var s1 := Act(s, Submit(w));
    assert s1 == s.(queue := [w]);
    RunMore(maxSize, actions + [Submit(w)], s1, Begin);
    t := Act(s1, Begin);
  }

  /**
    Until the trim the bound need not hold: a writer that read the old bound before a smaller one
    was published still fills the cache up to the old one.
   */
  lemma StaleBoundOverfills<K(!new), P(!new)>(w1: Write<K, P>, w2: Write<K, P>) returns (actions: seq<Action<K, P>>, s: Shared<K, P>)
    requires w1.key != w2.key && w1.ttl >= 0 && w2.ttl >= 0
    requires w1.bodySize == w2.bodySize == 1 && w1.headerSize == w2.headerSize == 0
    ensures Run(2, actions, s)
    ensures s.maxSize == 1 && Total(s.q) == 2 && |s.q| == 2 && !LatestDone(s)
  {
    hide Run;
    var e1, e2 := w1.EntryAt(0), w2.EntryAt(0);
    var start: Shared<K, P> := Fresh(2);
    FreshRuns<K, P>(2);
    var s1 := SubmitAndBegin(2, [], start, w1);
    RunMore(2, [] + [Submit(w1)] + [Begin], s1, Commit(0));
    var s2 := Act(s1, Commit(0));
    assert s2.q == [e1];
    var s3 := SubmitAndBegin(2, [] + [Submit(w1)] + [Begin] + [Commit(0)], s2, w2);
    assert s3.q == [e1] && s3.holder == Some(Holder(w2, 2));
    actions := [] + [Submit(w1)] + [Begin] + [Commit(0)] + [Submit(w2)] + [Begin];
    RunMore(2, actions, s3, Publish(0, 1));
    var s4 := Act(s3, Publish(0, 1));
    RunMore(2, actions + [Publish(0, 1)], s4, Commit(0));
    actions := actions + [Publish(0, 1)] + [Commit(0)];
    s := Act(s4, Commit(0));
    FrontDistinct(e2, [e1]);
    assert [e1][..0] == [];
    assert Total([e1]) == 1;
    assert Fit([e1], 1) == [e1];
  }

  // ----- what backs a hit -----

  lemma {:induction false} RunIsUnique<K(!new), P(!new)>(maxSize: int, actions: seq<Action<K, P>>, s: Shared<K, P>, t: Shared<K, P>)
    requires Run(maxSize, actions, s) && Run(maxSize, actions, t)
    ensures s == t
    decreases |actions|
  {
    if actions != [] {
      hide CanAct, Act;
      var init, a := actions[..|actions| - 1], actions[|actions| - 1];
      var m :| Run(maxSize, init, m) && CanAct(m, a) && s == Act(m, a);
      var n :| Run(maxSize, init, n) && CanAct(n, a) && t == Act(n, a);
      RunIsUnique(maxSize, init, m, n);
    }
  }

  // The i-th action carries out write w.
  ghost predicate CarriesOut<K(!new), P(!new)>(maxSize: int, actions: seq<Action<K, P>>, i: nat, w: Write<K, P>) {
    && i < |actions| && actions[i].Commit?
    && exists m :: Run(maxSize, actions[..i], m) && m.holder.Some? && m.holder.value.w == w
  }

  // It is the last action to carry out a write for this key.
  ghost predicate LastFor<K(!new), P(!new)>(maxSize: int, actions: seq<Action<K, P>>, i: nat, key: K) {
    forall j: nat, w :: i < j && CarriesOut(maxSize, actions, j, w) ==> w.key != key
  }

  lemma CarriesOutPrefix<K(!new), P(!new)>(maxSize: int, actions: seq<Action<K, P>>, i: nat, w: Write<K, P>)
    requires actions != []
    ensures i < |actions| - 1 ==> (CarriesOut(maxSize, actions, i, w) <==> CarriesOut(maxSize, actions[..|actions| - 1], i, w))
  {
    if i < |actions| - 1 {
      assert actions[..|actions| - 1][..i] == actions[..i];
    }
  }

  // What the last action carries out is the write the holder before it has.
  lemma CarriedOutLast<K(!new), P(!new)>(maxSize: int, actions: seq<Action<K, P>>, m: Shared<K, P>)
    requires actions != [] && Run(maxSize, actions[..|actions| - 1], m)
    ensures forall j: nat, w :: j >= |actions| - 1 && CarriesOut(maxSize, actions, j, w) ==>
        j == |actions| - 1 && actions[j].Commit? && m.holder.Some? && m.holder.value.w == w
    ensures actions[|actions| - 1].Commit? && m.holder.Some? ==> CarriesOut(maxSize, actions, |actions| - 1, m.holder.value.w)
  {
    hide Run;
    var n := |actions| - 1;
    forall j: nat, w | j >= n && CarriesOut(maxSize, actions, j, w)
      ensures j == n && actions[j].Commit? && m.holder.Some? && m.holder.value.w == w
    {
      var o :| Run(maxSize, actions[..j], o) && o.holder.Some? && o.holder.value.w == w;
      RunIsUnique(maxSize, actions[..n], m, o);
    }
  }

  lemma CarriedOutEarlier<K(!new), P(!new)>(maxSize: int, actions: seq<Action<K, P>>, i: nat, key: K, w: Write<K, P>)
    requires actions != [] && CarriesOut(maxSize, actions[..|actions| - 1], i, w) && LastFor(maxSize, actions[..|actions| - 1], i, key)
    requires forall w :: CarriesOut(maxSize, actions, |actions| - 1, w) ==> w.key != key
    ensures CarriesOut(maxSize, actions, i, w) && LastFor(maxSize, actions, i, key)
  {
    CarriesOutPrefix(maxSize, actions, i, w);
    forall j: nat, v | i < j && CarriesOut(maxSize, actions, j, v) ensures v.key != key {
      CarriesOutPrefix(maxSize, actions, j, v);
      assert j < |actions| by { CarriesOutInRange(maxSize, actions, j, v); }
    }
  }

  lemma CarriesOutInRange<K(!new), P(!new)>(maxSize: int, actions: seq<Action<K, P>>, i: nat, w: Write<K, P>)
    requires CarriesOut(maxSize, actions, i, w)
    ensures i < |actions|
  {
  }

  /** The record of last writes is true: some action carried that write out at that time, and no later one did for the key. */
  lemma {:induction false} LastIsTrue<K(!new), P(!new)>(maxSize: int, actions: seq<Action<K, P>>, s: Shared<K, P>, key: K) returns (i: nat)
    requires Run(maxSize, actions, s) && key in s.last
    ensures CarriesOut(maxSize, actions, i, s.last[key].w) && i < |actions| && actions[i] == Commit(s.last[key].at)
    ensures s.last[key].w.key == key && LastFor(maxSize, actions, i, key)
    decreases |actions|
  {
    if actions != [] {
      hide CanAct, Act, Run, CarriesOut;
      var n := |actions| - 1;
      var m := LastStep(maxSize, actions, s);
      ActLast(m, actions[n]);
      CarriedOutLast(maxSize, actions, m);
      if actions[n].Commit? && m.holder.value.w.key == key {
        i := n;
      } else {
        i := LastIsTrue(maxSize, actions[..n], m, key);
        CarriesOutInRange(maxSize, actions[..n], i, s.last[key].w);
        CarriedOutEarlier(maxSize, actions, i, key, s.last[key].w);
      }
    }
  }

  lemma ActLast<K, P>(m: Shared<K, P>, a: Action<K, P>)
    requires CanAct(m, a)
    ensures if a.Commit? then m.holder.Some? && Act(m, a).last == m.last[m.holder.value.w.key := Committed(m.holder.value.w, a.now)]
            else Act(m, a).last == m.last
  {
  }

  lemma LastStep<K(!new), P(!new)>(maxSize: int, actions: seq<Action<K, P>>, s: Shared<K, P>) returns (m: Shared<K, P>)
    requires Run(maxSize, actions, s) && actions != []
    ensures var n := |actions| - 1; Run(maxSize, actions[..n], m) && CanAct(m, actions[n]) && s == Act(m, actions[n])
  {
    hide CanAct, Act;
    m :| Run(maxSize, actions[..|actions| - 1], m) && CanAct(m, actions[|actions| - 1]) && s == Act(m, actions[|actions| - 1]);
  }

  /**
    A key is hit exactly when it is in the list and the write carried out last for it is within the
    lifetime it asked for, five minutes if it asked for none; and the hit is what that write brought.
   */
  lemma HitIsLastWrite<K(!new), P(!new)>(maxSize: int, actions: seq<Action<K, P>>, s: Shared<K, P>, key: K, now: int)
    requires maxSize > 0 && Run(maxSize, actions, s) && CanAct(s, Read(key, now))
    ensures (exists i :: 0 <= i < |s.q| && s.q[i].key == key) ==> key in s.last
    ensures Look(s.q, key, now).1.Some? <==>
              (exists i :: 0 <= i < |s.q| && s.q[i].key == key)
              && now - s.last[key].at <= (if s.last[key].w.ttl > 0 then s.last[key].w.ttl else 300_000_000_000)
    ensures Look(s.q, key, now).1.Some? ==>
        var e, w := Look(s.q, key, now).1.value, s.last[key].w;
        && w.key == key && w.bodySize > 0 && w.ttl >= 0
        && e.key == key && e.payload == w.payload && e.size == w.bodySize + w.headerSize && e.storedAt == s.last[key].at
  {
    RunKeepsInv(maxSize, actions, s);
    HasKeyIff(s.q, key);
    if HasKey(s.q, key) { EntryOfAt(s.q, key); }
  }

  /**
    A write the cache rejects does not displace the entry it was meant to replace: the next read
    still hits the older one.
   */
  lemma RejectedWriteKeepsOld<K(!new), P(!new)>(s: Shared<K, P>, w: Write<K, P>, e: Entry<K, P>, now: int)
    requires s.queue == [w] && s.holder.None? && !w.Stores()
    requires Look(s.q, w.key, now).1 == Some(e)
    ensures CanAct(s, Skip) && Look(Act(s, Skip).q, w.key, now).1 == Some(e)
  {
  }

  /** A run in which the write submitted last for a key, a no-cache response, leaves the one before it to be hit. */
  lemma RejectedWriteServesOld<K(!new), P(!new)>(maxSize: int, w1: Write<K, P>, w2: Write<K, P>) returns (actions: seq<Action<K, P>>, s: Shared<K, P>)
    requires w1.key == w2.key && w1.Stores() && w2.bodySize > 0 && w2.ttl < 0
    ensures Run(maxSize, actions, s) && |actions| >= 2 && actions[|actions| - 2..] == [Submit(w2), Skip]
    ensures s.queue == [] && s.holder.None? && Look(s.q, w2.key, 0).1 == Some(w1.EntryAt(0))
  {
    hide Run;
    var e := w1.EntryAt(0);
    var start: Shared<K, P> := Fresh(maxSize);
    FreshRuns<K, P>(maxSize);
    var s1 := SubmitAndBegin(maxSize, [], start, w1);
    actions := [] + [Submit(w1)] + [Begin];
    assert s1.q == [];
    RunMore(maxSize, actions, s1, Commit(0));
    var s2 := Act(s1, Commit(0));
    assert s2.q == [e];
    RunMore(maxSize, actions + [Commit(0)], s2, Submit(w2));
    var s3 := Act(s2, Submit(w2));
    assert s3.queue == [w2];
    RejectedWriteKeepsOld(s3, w2, e, 0);
    RunMore(maxSize, actions + [Commit(0)] + [Submit(w2)], s3, Skip);
    s := Act(s3, Skip);
    actions := actions + [Commit(0)] + [Submit(w2)] + [Skip];
  }
}
