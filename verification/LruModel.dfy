/** The response cache as a recency list, most recently used first. */
module LruModel {
  import opened Wrappers

  /** A cached response; `payload` stands for header, body and status code. */
  datatype Entry<K, P> = Entry(key: K, payload: P, storedAt: int, ttl: int, size: int) {
    predicate IsStale(now: int) {
      ttl > 0 && now - storedAt > ttl
    }
  }

  function Total<K, P>(q: seq<Entry<K, P>>): int {
    if q == [] then 0 else Total(q[..|q| - 1]) + q[|q| - 1].size
  }

  predicate HasKey<K(==), P>(q: seq<Entry<K, P>>, k: K) {
    q != [] && (q[0].key == k || HasKey(q[1..], k))
  }

  lemma {:induction false} HasKeyIff<K, P>(q: seq<Entry<K, P>>, k: K)
    ensures HasKey(q, k) <==> exists i :: 0 <= i < |q| && q[i].key == k
  {
    if q != [] && q[0].key != k {
      var rest := q[1..];
      HasKeyIff(rest, k);
      assert forall i :: 0 <= i < |rest| ==> rest[i] == q[i + 1];
      if HasKey(rest, k) {
        var i :| 0 <= i < |rest| && rest[i].key == k;
        assert q[i + 1].key == k;
      }
      if i :| 0 <= i < |q| && q[i].key == k {
        assert rest[i - 1].key == k;
      }
    }
  }

  ghost predicate Distinct<K, P>(q: seq<Entry<K, P>>) {
    forall i, j :: 0 <= i < j < |q| ==> q[i].key != q[j].key
  }

  ghost predicate NonNegative<K, P>(q: seq<Entry<K, P>>) {
    forall i :: 0 <= i < |q| ==> q[i].size >= 0
  }

  // ----- the operations -----

  /** Drops entries from the back until the total fits, or nothing is left. */
  function Fit<K, P>(q: seq<Entry<K, P>>, budget: int): seq<Entry<K, P>>
    decreases |q|
  {
    if q == [] || Total(q) <= budget then q else Fit(q[..|q| - 1], budget)
  }

  function Without<K(==), P>(q: seq<Entry<K, P>>, k: K): seq<Entry<K, P>> {
    if q == [] then []
    else if q[0].key == k then q[1..]
    else [q[0]] + Without(q[1..], k)
  }

  function EntryOf<K(==), P>(q: seq<Entry<K, P>>, k: K): Entry<K, P>
    requires HasKey(q, k)
  {
    if q[0].key == k then q[0] else EntryOf(q[1..], k)
  }

  function MoveToFront<K(==), P>(q: seq<Entry<K, P>>, k: K): seq<Entry<K, P>>
    requires HasKey(q, k)
  {
    [EntryOf(q, k)] + Without(q, k)
  }

  /** Storing an entry under the bound `maxSize`. */
  function Put<K(==), P>(q: seq<Entry<K, P>>, e: Entry<K, P>, maxSize: int): seq<Entry<K, P>> {
    [e] + Fit(Without(q, e.key), maxSize - e.size)
  }

  /** Looking a key up: a hit moves it to the front, a stale entry is removed. */
  function Look<K(==), P>(q: seq<Entry<K, P>>, k: K, now: int): (seq<Entry<K, P>>, Option<Entry<K, P>>) {
    if !HasKey(q, k) then (q, None)
    else if EntryOf(q, k).IsStale(now) then (Without(q, k), None)
    else (MoveToFront(q, k), Some(EntryOf(q, k)))
  }

  // ----- what they keep -----

  lemma {:induction false} EntryOfAt<K, P>(q: seq<Entry<K, P>>, k: K)
    requires HasKey(q, k)
    ensures EntryOf(q, k) in q && EntryOf(q, k).key == k
  {
    if q[0].key != k { EntryOfAt(q[1..], k); }
  }

  lemma {:induction false} TotalAppend<K, P>(a: seq<Entry<K, P>>, b: seq<Entry<K, P>>)
    ensures Total(a + b) == Total(a) + Total(b)
    decreases |b|
  {
    if b == [] {
      assert a + b == a;
    } else {
      TotalAppend(a, b[..|b| - 1]);
      assert (a + b)[..|a + b| - 1] == a + b[..|b| - 1];
    }
  }

  lemma {:induction false} TotalNonNegative<K, P>(q: seq<Entry<K, P>>)
    requires NonNegative(q)
    ensures Total(q) >= 0
    ensures (forall i :: 0 <= i < |q| ==> q[i].size >= 1) ==> |q| <= Total(q)
  {
    if q != [] { TotalNonNegative(q[..|q| - 1]); }
  }

  // Every entry of r is one of q.
  ghost predicate Within<K, P>(r: seq<Entry<K, P>>, q: seq<Entry<K, P>>) {
    forall i :: 0 <= i < |r| ==> r[i] in q
  }

  ghost predicate Lacks<K, P>(q: seq<Entry<K, P>>, k: K) {
    forall i :: 0 <= i < |q| ==> q[i].key != k
  }

  lemma FrontDistinct<K, P>(e: Entry<K, P>, q: seq<Entry<K, P>>)
    requires Distinct(q) && Lacks(q, e.key)
    ensures Distinct([e] + q) && Total([e] + q) == e.size + Total(q)
  {
    TotalAppend([e], q);
    assert Total([e]) == e.size;
  }

  // Taking an entry out of a distinct list leaves exactly the entries with other keys.
  lemma {:induction false} WithoutMembers<K, P>(q: seq<Entry<K, P>>, k: K)
    requires Distinct(q)
    ensures Within(Without(q, k), q) && Lacks(Without(q, k), k) && Distinct(Without(q, k))
    ensures forall i :: 0 <= i < |q| && q[i].key != k ==> q[i] in Without(q, k)
  {
    if q != [] {
      var rest := q[1..];
      assert Distinct(rest) && q == [q[0]] + rest;
      WithoutMembers(rest, k);
      if q[0].key != k {
        var w := Without(rest, k);
        forall i | 0 <= i < |w| ensures w[i].key != q[0].key {
          var j :| 0 <= j < |rest| && rest[j] == w[i];
          assert q[j + 1] == w[i];
        }
        FrontDistinct(q[0], w);
      }
    }
  }

  lemma {:induction false} WithoutTotal<K, P>(q: seq<Entry<K, P>>, k: K)
    ensures !HasKey(q, k) ==> Without(q, k) == q
    ensures HasKey(q, k) ==> |Without(q, k)| == |q| - 1 && Total(Without(q, k)) == Total(q) - EntryOf(q, k).size
  {
    if q != [] {
      var rest := q[1..];
      assert q == [q[0]] + rest;
      TotalAppend([q[0]], rest);
      assert Total([q[0]]) == q[0].size;
      if q[0].key != k {
        WithoutTotal(rest, k);
        TotalAppend([q[0]], Without(rest, k));
      }
    }
  }

  /**
    What is kept is the longest prefix that fits: it fits or is empty, and no longer prefix does.
   */
  lemma {:induction false} FitIsLongest<K, P>(q: seq<Entry<K, P>>, budget: int)
    ensures Fit(q, budget) <= q
    ensures Fit(q, budget) == [] || Total(Fit(q, budget)) <= budget
    ensures forall n :: |Fit(q, budget)| < n <= |q| ==> Total(q[..n]) > budget
    decreases |q|
  {
    assert q[..|q|] == q;
    if q != [] && Total(q) > budget {
      var init := q[..|q| - 1];
      FitIsLongest(init, budget);
      forall n | |Fit(q, budget)| < n <= |q| ensures Total(q[..n]) > budget {
        if n < |q| { assert q[..n] == init[..n]; }
      }
    }
  }

  lemma PrefixKeeps<K, P>(p: seq<Entry<K, P>>, q: seq<Entry<K, P>>)
    requires p <= q
    ensures Distinct(q) ==> Distinct(p)
    ensures NonNegative(q) ==> NonNegative(p) && Total(p) <= Total(q)
    ensures Within(p, q) && forall k: K :: Lacks(q, k) ==> Lacks(p, k)
  {
    if NonNegative(q) {
      assert q == p + q[|p|..];
      TotalAppend(p, q[|p|..]);
      TotalNonNegative(q[|p|..]);
    }
  }

  /** Storing keeps the list distinct, and the result fits the bound or is the new entry alone. */
  lemma PutKeeps<K, P>(q: seq<Entry<K, P>>, e: Entry<K, P>, maxSize: int)
    requires Distinct(q)
    ensures Distinct(Put(q, e, maxSize))
    ensures Total(Put(q, e, maxSize)) <= maxSize || Put(q, e, maxSize) == [e]
  {
    var others := Without(q, e.key);
    var kept := Fit(others, maxSize - e.size);
    WithoutMembers(q, e.key);
    FitIsLongest(others, maxSize - e.size);
    PrefixKeeps(kept, others);
    FrontDistinct(e, kept);
  }

  lemma PutMembers<K, P>(q: seq<Entry<K, P>>, e: Entry<K, P>, maxSize: int)
    requires Distinct(q)
    ensures Within(Put(q, e, maxSize), [e] + q)
  {
    var others := Without(q, e.key);
    WithoutMembers(q, e.key);
    FitIsLongest(others, maxSize - e.size);
    PrefixKeeps(Fit(others, maxSize - e.size), others);
  }

  /** Beside the new entry it keeps the most recent others, as many as fit and no fewer. */
  lemma PutKeepsMost<K, P>(q: seq<Entry<K, P>>, e: Entry<K, P>, maxSize: int, n: nat)
    requires Distinct(q) && n <= |Without(q, e.key)|
    ensures var r, others := Put(q, e, maxSize), Without(q, e.key);
            && r[0] == e && r[1..] <= others
            && (n > |r| - 1 ==> e.size + Total(others[..n]) > maxSize)
  {
    FitIsLongest(Without(q, e.key), maxSize - e.size);
  }

  /** A hit moves exactly its own entry to the front. */
  lemma MoveToFrontKeeps<K, P>(q: seq<Entry<K, P>>, k: K)
    requires Distinct(q) && HasKey(q, k)
    ensures var r := MoveToFront(q, k);
            && Distinct(r) && r[0].key == k && r[1..] == Without(q, k)
            && |r| == |q| && Total(r) == Total(q)
            && Within(r, q) && Within(q, r)
  {
    WithoutMembers(q, k);
    WithoutTotal(q, k);
    EntryOfAt(q, k);
    FrontDistinct(EntryOf(q, k), Without(q, k));
    KeyIsUnique(q, EntryOf(q, k));
  }

  lemma KeyIsUnique<K, P>(q: seq<Entry<K, P>>, e: Entry<K, P>)
    requires Distinct(q) && e in q
    ensures forall x :: x in q && x.key == e.key ==> x == e
  {
  }

  // Entry e is for key k, and at `now` within its lifetime, if it has one.
  ghost predicate AliveFor<K, P>(e: Entry<K, P>, k: K, now: int) {
    e.key == k && (e.ttl <= 0 || now - e.storedAt <= e.ttl)
  }

  /** A lookup hits exactly when an entry for the key is within its lifetime; the hit is that entry, and in front. */
  lemma LookExactly<K, P>(q: seq<Entry<K, P>>, k: K, now: int)
    requires Distinct(q)
    ensures var (r, hit) := Look(q, k, now);
            && (hit.Some? <==> exists i :: 0 <= i < |q| && AliveFor(q[i], k, now))
            && (hit.Some? ==> hit.value in q && AliveFor(hit.value, k, now) && r != [] && r[0] == hit.value)
            && (hit.None? ==> Lacks(r, k))
  {
    HasKeyIff(q, k);
    WithoutMembers(q, k);
    if HasKey(q, k) {
      EntryOfAt(q, k);
      KeyIsUnique(q, EntryOf(q, k));
    }
  }

  /** Taking an entry out of a list leaves the others in their order. */
  lemma {:induction false} WithoutKeepsOrder<K, P>(a: seq<Entry<K, P>>, e: Entry<K, P>, b: seq<Entry<K, P>>)
    requires Lacks(a, e.key)
    ensures Without(a + [e] + b, e.key) == a + b
  {
    var q := a + [e] + b;
    if a == [] {
      assert q[1..] == b;
    } else {
      WithoutKeepsOrder(a[1..], e, b);
      assert q[0] == a[0] && q[1..] == a[1..] + [e] + b;
      assert [a[0]] + (a[1..] + b) == a + b;
    }
  }

  // ----- inclusion -----

  /** A reference: a hit moves to the front, a miss is followed by a fill. */
  function Refer<K(==), P>(q: seq<Entry<K, P>>, k: K, fill: K -> Entry<K, P>, maxSize: int): seq<Entry<K, P>> {
    if HasKey(q, k) then MoveToFront(q, k) else Put(q, fill(k), maxSize)
  }

  /** A reference is a lookup, followed by a write when it misses, as long as nothing is stale. */
  lemma ReferIsLookThenFill<K, P>(q: seq<Entry<K, P>>, k: K, fill: K -> Entry<K, P>, maxSize: int, now: int)
    requires HasKey(q, k) ==> !EntryOf(q, k).IsStale(now)
    ensures Refer(q, k, fill, maxSize)
         == if Look(q, k, now).1.Some? then Look(q, k, now).0 else Put(Look(q, k, now).0, fill(k), maxSize)
  {
  }

  function ReferAll<K(==), P>(refs: seq<K>, fill: K -> Entry<K, P>, maxSize: int): seq<Entry<K, P>>
    decreases |refs|
  {
    if refs == [] then [] else Refer(ReferAll(refs[..|refs| - 1], fill, maxSize), refs[|refs| - 1], fill, maxSize)
  }

  lemma {:induction false} WithoutPrefix<K, P>(p: seq<Entry<K, P>>, q: seq<Entry<K, P>>, k: K)
    requires p <= q
    ensures HasKey(p, k) ==> HasKey(q, k) && EntryOf(p, k) == EntryOf(q, k) && Without(p, k) <= Without(q, k)
    ensures !HasKey(p, k) ==> p <= Without(q, k)
  {
    if p != [] {
      assert p[0] == q[0] && p[1..] <= q[1..];
      WithoutPrefix(p[1..], q[1..], k);
    }
  }

  lemma FitPrefix<K, P>(p: seq<Entry<K, P>>, q: seq<Entry<K, P>>, b: int, c: int)
    requires p <= q && b <= c
    ensures Fit(p, b) <= Fit(q, c)
  {
    FitIsLongest(p, b);
    FitIsLongest(q, c);
    var n := |Fit(p, b)|;
    assert Fit(p, b) == p[..n] == q[..n];
  }

  // One reference in a smaller and in a larger cache.
  lemma ReferKeepsPrefix<K, P>(p: seq<Entry<K, P>>, q: seq<Entry<K, P>>, k: K, fill: K -> Entry<K, P>, m1: int, m2: int)
    requires p <= q && m1 <= m2 && fill(k).key == k
    ensures Refer(p, k, fill, m1) <= Refer(q, k, fill, m2) || (HasKey(q, k) && EntryOf(q, k) != fill(k))
  {
    WithoutPrefix(p, q, k);
    if !HasKey(p, k) {
      WithoutTotal(p, k);
      WithoutTotal(q, k);
      FitPrefix(p, Without(q, k), m1 - fill(k).size, m2 - fill(k).size);
      FitIsLongest(p, m1 - fill(k).size);
    }
  }

  // Whatever is cached is what a fill stored.
  ghost predicate Filled<K, P>(q: seq<Entry<K, P>>, fill: K -> Entry<K, P>) {
    forall i :: 0 <= i < |q| ==> q[i] == fill(q[i].key)
  }

  lemma ReferKeepsFilled<K, P>(q: seq<Entry<K, P>>, k: K, fill: K -> Entry<K, P>, maxSize: int)
    requires Distinct(q) && Filled(q, fill) && fill(k).key == k
    ensures Distinct(Refer(q, k, fill, maxSize)) && Filled(Refer(q, k, fill, maxSize), fill)
  {
    hide Put, MoveToFront;
    if HasKey(q, k) {
      MoveToFrontKeeps(q, k);
    } else {
      PutKeeps(q, fill(k), maxSize);
      PutMembers(q, fill(k), maxSize);
    }
  }

  lemma {:induction false} CachedIsFilled<K, P>(refs: seq<K>, fill: K -> Entry<K, P>, maxSize: int)
    requires forall k :: fill(k).key == k
    ensures Filled(ReferAll(refs, fill, maxSize), fill) && Distinct(ReferAll(refs, fill, maxSize))
    decreases |refs|
  {
    if refs != [] {
      CachedIsFilled(refs[..|refs| - 1], fill, maxSize);
      ReferKeepsFilled(ReferAll(refs[..|refs| - 1], fill, maxSize), refs[|refs| - 1], fill, maxSize);
    }
  }

  /**
    Inclusion: after any references the smaller cache's list is a prefix of the larger one's,
    entries larger than either cache included.
   */
  lemma {:induction false} Inclusion<K, P>(refs: seq<K>, fill: K -> Entry<K, P>, m1: int, m2: int)
    requires m1 <= m2 && forall k :: fill(k).key == k
    ensures ReferAll(refs, fill, m1) <= ReferAll(refs, fill, m2)
    decreases |refs|
  {
    if refs != [] {
      var init, k := refs[..|refs| - 1], refs[|refs| - 1];
      Inclusion(init, fill, m1, m2);
      CachedIsFilled(init, fill, m2);
      ReferKeepsPrefix(ReferAll(init, fill, m1), ReferAll(init, fill, m2), k, fill, m1, m2);
      if HasKey(ReferAll(init, fill, m2), k) { EntryOfAt(ReferAll(init, fill, m2), k); }
    }
  }

  /** A larger bound never turns a hit into a miss. */
  lemma LargerNeverMisses<K, P>(refs: seq<K>, i: nat, fill: K -> Entry<K, P>, m1: int, m2: int)
    requires i < |refs| && m1 <= m2 && forall k :: fill(k).key == k
    ensures HasKey(ReferAll(refs[..i], fill, m1), refs[i]) ==> HasKey(ReferAll(refs[..i], fill, m2), refs[i])
  {
    Inclusion(refs[..i], fill, m1, m2);
    WithoutPrefix(ReferAll(refs[..i], fill, m1), ReferAll(refs[..i], fill, m2), refs[i]);
  }

  // ----- inclusion for the cache itself -----

  /** A Get at time `now`, followed by a store of what the origin gives then when it misses. */
  function Access<K(==), P>(q: seq<Entry<K, P>>, k: K, fill: (K, int) -> Entry<K, P>, maxSize: int, now: int): seq<Entry<K, P>> {
    var (r, hit) := Look(q, k, now);
    if hit.Some? then r else Put(r, fill(k, now), maxSize)
  }

  function AccessAll<K(==), P>(refs: seq<(K, int)>, fill: (K, int) -> Entry<K, P>, maxSize: int): seq<Entry<K, P>>
    decreases |refs|
  {
    if refs == [] then []
    else
      var (k, now) := refs[|refs| - 1];
      Access(AccessAll(refs[..|refs| - 1], fill, maxSize), k, fill, maxSize, now)
  }

  // Each key has one size, whenever it is fetched, and nothing fetched during the accesses goes stale during them.
  ghost predicate Steady<K(!new), P(!new)>(fill: (K, int) -> Entry<K, P>, refs: seq<(K, int)>) {
    && (forall k, t, u :: fill(k, t).key == k && fill(k, t).size == fill(k, u).size)
    && (forall i, j, k :: 0 <= i < |refs| && 0 <= j < |refs| ==> !fill(k, refs[i].1).IsStale(refs[j].1))
  }

  function KeysOf<K, P>(q: seq<Entry<K, P>>): (ks: seq<K>)
    ensures |ks| == |q| && forall i :: 0 <= i < |q| ==> ks[i] == q[i].key
  {
    seq(|q|, i requires 0 <= i < |q| => q[i].key)
  }

  // One entry a key, the same at all times.
  function Timeless<K, P>(fill: (K, int) -> Entry<K, P>): K -> Entry<K, P> {
    (k: K) => fill(k, 0).(storedAt := 0, ttl := 0)
  }

  // The list with the timeless entry of each key.
  function Erase<K, P>(q: seq<Entry<K, P>>, canon: K -> Entry<K, P>): (r: seq<Entry<K, P>>)
    ensures |r| == |q| && forall i :: 0 <= i < |q| ==> r[i] == canon(q[i].key)
  {
    seq(|q|, i requires 0 <= i < |q| => canon(q[i].key))
  }

  // Entries look like their timeless ones but for payload and times.
  ghost predicate Sizes<K, P>(q: seq<Entry<K, P>>, canon: K -> Entry<K, P>) {
    forall i :: 0 <= i < |q| ==> canon(q[i].key).key == q[i].key && canon(q[i].key).size == q[i].size
  }

  lemma {:induction false} EraseTotal<K, P>(q: seq<Entry<K, P>>, canon: K -> Entry<K, P>)
    requires Sizes(q, canon)
    ensures Total(Erase(q, canon)) == Total(q)
  {
    if q != [] {
      EraseTotal(q[..|q| - 1], canon);
      assert Erase(q, canon)[..|q| - 1] == Erase(q[..|q| - 1], canon);
    }
  }

  lemma {:induction false} EraseFit<K, P>(q: seq<Entry<K, P>>, canon: K -> Entry<K, P>, budget: int)
    requires Sizes(q, canon)
    ensures Fit(Erase(q, canon), budget) == Erase(Fit(q, budget), canon) && Sizes(Fit(q, budget), canon)
    decreases |q|
  {
    EraseTotal(q, canon);
    if q != [] && Total(q) > budget {
      EraseFit(q[..|q| - 1], canon, budget);
      assert Erase(q, canon)[..|q| - 1] == Erase(q[..|q| - 1], canon);
    }
  }

  lemma {:induction false} EraseWithout<K, P>(q: seq<Entry<K, P>>, canon: K -> Entry<K, P>, k: K)
    requires Sizes(q, canon)
    ensures HasKey(Erase(q, canon), k) <==> HasKey(q, k)
    ensures Without(Erase(q, canon), k) == Erase(Without(q, k), canon) && Sizes(Without(q, k), canon)
    ensures HasKey(q, k) ==> EntryOf(Erase(q, canon), k) == canon(k)
  {
    if q != [] {
      EraseWithout(q[1..], canon, k);
      assert Erase(q, canon)[1..] == Erase(q[1..], canon);
      if q[0].key != k {
        assert Erase(Without(q, k), canon) == [canon(q[0].key)] + Erase(Without(q[1..], k), canon);
      }
    }
  }

  // Nothing in the list is stale at `now`.
  ghost predicate FreshAt<K, P>(q: seq<Entry<K, P>>, now: int) {
    forall i :: 0 <= i < |q| ==> !q[i].IsStale(now)
  }

  lemma EraseHit<K, P>(q: seq<Entry<K, P>>, k: K, canon: K -> Entry<K, P>)
    requires Sizes(q, canon) && HasKey(q, k)
    ensures Erase(MoveToFront(q, k), canon) == [canon(k)] + Erase(Without(q, k), canon) && Sizes(MoveToFront(q, k), canon)
  {
    EraseWithout(q, canon, k);
    EntryOfAt(q, k);
  }

  lemma EraseMiss<K, P>(q: seq<Entry<K, P>>, canon: K -> Entry<K, P>, e: Entry<K, P>, maxSize: int)
    requires Sizes(q, canon) && canon(e.key).key == e.key && canon(e.key).size == e.size
    ensures Erase(Put(q, e, maxSize), canon) == Put(Erase(q, canon), canon(e.key), maxSize) && Sizes(Put(q, e, maxSize), canon)
  {
    EraseWithout(q, canon, e.key);
    EraseFit(Without(q, e.key), canon, maxSize - e.size);
    assert Erase(Put(q, e, maxSize), canon) == [canon(e.key)] + Erase(Fit(Without(q, e.key), maxSize - e.size), canon);
  }

  /** Erasing times, an access is a reference. */
  lemma EraseAccess<K, P>(q: seq<Entry<K, P>>, k: K, fill: (K, int) -> Entry<K, P>, canon: K -> Entry<K, P>, maxSize: int, now: int)
    requires Sizes(q, canon) && FreshAt(q, now)
    requires fill(k, now).key == k && canon(k).key == k && canon(k).size == fill(k, now).size && canon(k).ttl == 0
    ensures Erase(Access(q, k, fill, maxSize, now), canon) == Refer(Erase(q, canon), k, canon, maxSize)
    ensures Sizes(Access(q, k, fill, maxSize, now), canon)
  {
    var c := Erase(q, canon);
    EraseWithout(q, canon, k);
    ReferIsLookThenFill(c, k, canon, maxSize, now);
    hide Without, HasKey, EntryOf, Put, Sizes;
    if HasKey(q, k) {
      EntryOfAt(q, k);
      EraseHit(q, k, canon);
    } else {
      EraseMiss(q, canon, fill(k, now), maxSize);
    }
  }

  // Everything cached was fetched at the time of some access.
  ghost predicate FetchedIn<K, P>(q: seq<Entry<K, P>>, fill: (K, int) -> Entry<K, P>, refs: seq<(K, int)>) {
    forall i :: 0 <= i < |q| ==> exists j :: 0 <= j < |refs| && q[i] == fill(q[i].key, refs[j].1)
  }

  lemma AccessKeeps<K, P>(q: seq<Entry<K, P>>, k: K, fill: (K, int) -> Entry<K, P>, maxSize: int, now: int)
    requires Distinct(q) && FreshAt(q, now) && fill(k, now).key == k
    ensures Distinct(Access(q, k, fill, maxSize, now))
    ensures Within(Access(q, k, fill, maxSize, now), [fill(k, now)] + q)
  {
    hide Put, MoveToFront;
    if HasKey(q, k) {
      EntryOfAt(q, k);
      MoveToFrontKeeps(q, k);
    } else {
      PutKeeps(q, fill(k, now), maxSize);
      PutMembers(q, fill(k, now), maxSize);
    }
  }

  // The entries fetched so far have steady sizes and are fresh at every access.
  lemma FetchedIsSteady<K(!new), P(!new)>(q: seq<Entry<K, P>>, fill: (K, int) -> Entry<K, P>, refs: seq<(K, int)>, j: nat)
    requires Steady(fill, refs) && FetchedIn(q, fill, refs) && j < |refs|
    ensures Sizes(q, Timeless(fill)) && FreshAt(q, refs[j].1)
  {
    forall i | 0 <= i < |q|
      ensures Timeless(fill)(q[i].key).key == q[i].key && Timeless(fill)(q[i].key).size == q[i].size && !q[i].IsStale(refs[j].1)
    {
      var n :| 0 <= n < |refs| && q[i] == fill(q[i].key, refs[n].1);
    }
  }

  lemma StillFetched<K, P>(q: seq<Entry<K, P>>, r: seq<Entry<K, P>>, fill: (K, int) -> Entry<K, P>, refs: seq<(K, int)>, j: nat)
    requires FetchedIn(q, fill, refs) && j < |refs| && fill(refs[j].0, refs[j].1).key == refs[j].0
    requires Within(r, [fill(refs[j].0, refs[j].1)] + q)
    ensures FetchedIn(r, fill, refs)
  {
    var e := fill(refs[j].0, refs[j].1);
    forall i | 0 <= i < |r| ensures exists n :: 0 <= n < |refs| && r[i] == fill(r[i].key, refs[n].1) {
      var m :| 0 <= m < |[e] + q| && ([e] + q)[m] == r[i];
      if m == 0 {
        assert r[i] == fill(r[i].key, refs[j].1);
      } else {
        assert q[m - 1] == r[i];
        var n :| 0 <= n < |refs| && q[m - 1] == fill(q[m - 1].key, refs[n].1);
        assert r[i] == fill(r[i].key, refs[n].1);
      }
    }
  }

  function RefKeys<K>(refs: seq<(K, int)>): seq<K> {
    seq(|refs|, i requires 0 <= i < |refs| => refs[i].0)
  }

  lemma {:induction false} AccessesErase<K(!new), P(!new)>(refs: seq<(K, int)>, n: nat, fill: (K, int) -> Entry<K, P>, maxSize: int)
    requires Steady(fill, refs) && n <= |refs|
    ensures var q := AccessAll(refs[..n], fill, maxSize);
            && Distinct(q) && FetchedIn(q, fill, refs)
            && Erase(q, Timeless(fill)) == ReferAll(RefKeys(refs[..n]), Timeless(fill), maxSize)
  {
    if n > 0 {
      AccessesErase(refs, n - 1, fill, maxSize);
      var q, k, now := AccessAll(refs[..n - 1], fill, maxSize), refs[n - 1].0, refs[n - 1].1;
      assert refs[..n][..n - 1] == refs[..n - 1] && RefKeys(refs[..n])[..n - 1] == RefKeys(refs[..n - 1]);
      FetchedIsSteady(q, fill, refs, n - 1);
      AccessKeeps(q, k, fill, maxSize, now);
      EraseAccess(q, k, fill, Timeless(fill), maxSize, now);
      StillFetched(q, Access(q, k, fill, maxSize, now), fill, refs, n - 1);
    }
  }

  /**
    Inclusion for the cache's own Get and store: entries differ in when they were fetched, so it is
    the keys of the smaller cache that are a prefix of the larger one's, in order of recency.
   */
  lemma InclusionOfAccesses<K(!new), P(!new)>(refs: seq<(K, int)>, fill: (K, int) -> Entry<K, P>, m1: int, m2: int)
    requires Steady(fill, refs) && m1 <= m2
    ensures KeysOf(AccessAll(refs, fill, m1)) <= KeysOf(AccessAll(refs, fill, m2))
  {
    hide AccessAll, ReferAll, Steady;
    var canon := Timeless(fill);
    assert refs[..|refs|] == refs;
    AccessesErase(refs, |refs|, fill, m1);
    AccessesErase(refs, |refs|, fill, m2);
    TimelessKeys(fill, refs);
    Inclusion(RefKeys(refs), canon, m1, m2);
    var p, q := AccessAll(refs, fill, m1), AccessAll(refs, fill, m2);
    assert |p| == |Erase(p, canon)| <= |Erase(q, canon)| == |q|;
    forall i | 0 <= i < |p| ensures KeysOf(p)[i] == KeysOf(q)[i] {
      assert Erase(p, canon)[i] == Erase(q, canon)[i];
    }
  }

  lemma TimelessKeys<K(!new), P(!new)>(fill: (K, int) -> Entry<K, P>, refs: seq<(K, int)>)
    requires Steady(fill, refs)
    ensures forall k :: Timeless(fill)(k).key == k
  {
  }

  lemma SteadyBefore<K(!new), P(!new)>(fill: (K, int) -> Entry<K, P>, refs: seq<(K, int)>, i: nat)
    requires Steady(fill, refs) && i <= |refs|
    ensures Steady(fill, refs[..i])
  {
  }

  /** So a larger cache answers every Get a smaller one answers. */
  lemma LargerAlwaysHits<K(!new), P(!new)>(refs: seq<(K, int)>, i: nat, fill: (K, int) -> Entry<K, P>, m1: int, m2: int)
    requires Steady(fill, refs) && m1 <= m2 && i < |refs|
    ensures var (k, now) := refs[i];
            Look(AccessAll(refs[..i], fill, m1), k, now).1.Some? ==> Look(AccessAll(refs[..i], fill, m2), k, now).1.Some?
  {
    var (k, now) := refs[i];
    SteadyBefore(fill, refs, i);
    hide AccessAll, Steady, Without, MoveToFront, ReferAll;
    var p, q := AccessAll(refs[..i], fill, m1), AccessAll(refs[..i], fill, m2);
    AccessesErase(refs, i, fill, m1);
    AccessesErase(refs, i, fill, m2);
    InclusionOfAccesses(refs[..i], fill, m1, m2);
    HasKeyIff(p, k);
    HasKeyIff(q, k);
    FetchedIsSteady(q, fill, refs, i);
    if HasKey(p, k) {
      var j :| 0 <= j < |p| && p[j].key == k;
      assert KeysOf(p)[j] == KeysOf(q)[j];
      EntryOfAt(q, k);
    }
  }

  // ----- the order of last use -----

  /** The referenced keys by last use, latest first: what an unbounded cache would hold. */
  function LastUse<K(==), P>(refs: seq<K>, fill: K -> Entry<K, P>): seq<Entry<K, P>>
    decreases |refs|
  {
    if refs == [] then []
    else
      var k := refs[|refs| - 1];
      [fill(k)] + Without(LastUse(refs[..|refs| - 1], fill), k)
  }

  // Reference i is the last one to k.
  ghost predicate LastAt<K>(refs: seq<K>, i: int, k: K) {
    0 <= i < |refs| && refs[i] == k && forall j :: i < j < |refs| ==> refs[j] != k
  }

  lemma LastAtStep<K(!new)>(refs: seq<K>, k: K)
    requires refs != []
    ensures var n := |refs| - 1;
            && LastAt(refs, n, refs[n]) && (forall i :: LastAt(refs, i, refs[n]) ==> i == n)
            && (k != refs[n] ==> forall i :: LastAt(refs, i, k) <==> LastAt(refs[..n], i, k))
  {
  }

  // In q, later last references come first.
  ghost predicate ByLastUse<K(!new), P>(q: seq<Entry<K, P>>, refs: seq<K>) {
    forall m, n, i, j :: 0 <= m < n < |q| && LastAt(refs, i, q[m].key) && LastAt(refs, j, q[n].key) ==> i > j
  }

  lemma {:induction false} CutAtKey<K, P>(q: seq<Entry<K, P>>, k: K) returns (a: seq<Entry<K, P>>, e: Entry<K, P>, b: seq<Entry<K, P>>)
    requires HasKey(q, k)
    ensures q == a + [e] + b && e.key == k && Lacks(a, k)
  {
    if q[0].key == k {
      a, e, b := [], q[0], q[1..];
    } else {
      a, e, b := CutAtKey(q[1..], k);
      a := [q[0]] + a;
    }
  }

  lemma WithoutByLastUse<K(!new), P>(q: seq<Entry<K, P>>, k: K, refs: seq<K>)
    requires ByLastUse(q, refs)
    ensures ByLastUse(Without(q, k), refs)
  {
    hide LastAt;
    if HasKey(q, k) {
      var a, e, b := CutAtKey(q, k);
      WithoutKeepsOrder(a, e, b);
      var r := a + b;
      assert forall m :: 0 <= m < |r| ==> r[m] == q[if m < |a| then m else m + 1];
      forall m, n, i, j | 0 <= m < n < |r| && LastAt(refs, i, r[m].key) && LastAt(refs, j, r[n].key) ensures i > j {
        var x, y := if m < |a| then m else m + 1, if n < |a| then n else n + 1;
        assert LastAt(refs, i, q[x].key) && LastAt(refs, j, q[y].key);
      }
    } else {
      WithoutTotal(q, k);
    }
  }

  /** The order of last use holds exactly the keys referred to, each once, latest last reference first. */
  lemma {:induction false} LastUseIsLastUse<K(!new), P>(refs: seq<K>, fill: K -> Entry<K, P>)
    requires forall k :: fill(k).key == k
    ensures Distinct(LastUse(refs, fill)) && Filled(LastUse(refs, fill), fill) && ByLastUse(LastUse(refs, fill), refs)
    ensures forall k :: HasKey(LastUse(refs, fill), k) <==> k in refs
    decreases |refs|
  {
    if refs != [] {
      var init, k := refs[..|refs| - 1], refs[|refs| - 1];
      var q := LastUse(init, fill);
      var w := Without(q, k);
      LastUseIsLastUse(init, fill);
      WithoutMembers(q, k);
      FrontDistinct(fill(k), w);
      WithoutByLastUse(q, k, init);
      forall x ensures HasKey([fill(k)] + w, x) <==> x in refs {
        LastUseKeys(q, w, fill(k), k, x);
        assert x in refs <==> x in init || x == k;
      }
      hide LastAt, Without, HasKey;
      forall m, n, i, j | 0 <= m < n < |[fill(k)] + w| && LastAt(refs, i, ([fill(k)] + w)[m].key) && LastAt(refs, j, ([fill(k)] + w)[n].key)
        ensures i > j
      {
        LastAtStep(refs, ([fill(k)] + w)[m].key);
        LastAtStep(refs, ([fill(k)] + w)[n].key);
        LastAtRange(refs, j, ([fill(k)] + w)[n].key);
      }
    }
  }

  lemma LastAtRange<K>(refs: seq<K>, i: int, k: K)
    requires LastAt(refs, i, k)
    ensures 0 <= i < |refs| && refs[i] == k
  {
  }

  lemma LastUseKeys<K, P>(q: seq<Entry<K, P>>, w: seq<Entry<K, P>>, e: Entry<K, P>, k: K, x: K)
    requires Distinct(q) && w == Without(q, k) && e.key == k && Within(w, q)
    requires forall i :: 0 <= i < |q| && q[i].key != k ==> q[i] in w
    ensures HasKey([e] + w, x) <==> HasKey(q, x) || x == k
  {
    HasKeyIff([e] + w, x);
    HasKeyIff(q, x);
    if i :| 0 <= i < |q| && q[i].key == x && x != k {
      assert q[i] in w;
      var j :| 0 <= j < |w| && w[j] == q[i];
      assert ([e] + w)[j + 1].key == x;
    }
    if i :| 0 <= i < |[e] + w| && ([e] + w)[i].key == x && x != k {
      assert ([e] + w)[i] in w;
      assert ([e] + w)[i] in q;
    }
    assert ([e] + w)[0].key == k;
  }

  // One reference against the order of last use.
  lemma ReferKeepsRecency<K, P>(q: seq<Entry<K, P>>, order: seq<Entry<K, P>>, k: K, fill: K -> Entry<K, P>, maxSize: int)
    requires q <= order && (HasKey(q, k) ==> EntryOf(q, k) == fill(k)) && fill(k).key == k
    ensures Refer(q, k, fill, maxSize) <= [fill(k)] + Without(order, k)
    ensures Refer(q, k, fill, maxSize)[0] == fill(k)
  {
    WithoutPrefix(q, order, k);
    if !HasKey(q, k) {
      WithoutTotal(q, k);
      FitIsLongest(q, maxSize - fill(k).size);
    }
  }

  /** A bounded cache holds a prefix of the order of last use, and the last reference is always in it. */
  lemma {:induction false} CacheIsRecencyPrefix<K, P>(refs: seq<K>, fill: K -> Entry<K, P>, maxSize: int)
    requires forall k :: fill(k).key == k
    ensures ReferAll(refs, fill, maxSize) <= LastUse(refs, fill)
    ensures refs != [] ==> ReferAll(refs, fill, maxSize) != [] && ReferAll(refs, fill, maxSize)[0] == fill(refs[|refs| - 1])
    decreases |refs|
  {
    if refs != [] {
      var init, k := refs[..|refs| - 1], refs[|refs| - 1];
      var q := ReferAll(init, fill, maxSize);
      CacheIsRecencyPrefix(init, fill, maxSize);
      CachedIsFilled(init, fill, maxSize);
      if HasKey(q, k) { EntryOfAt(q, k); }
      ReferKeepsRecency(q, LastUse(init, fill), k, fill, maxSize);
    }
  }
}
