/**
  The response cache: a list of elements, a map from keys to elements, and a byte counter. The
  operations are proved against the recency list of LruModel. The list is the container/list of
  the Go library, taken as the sequence of its elements; keys and payloads are not looked into.
 */
module ResponseCache {
  import opened Wrappers
  import opened LruModel

  const DEFAULT_TTL := 300_000_000_000
  const DEFAULT_MAX_SIZE := 268435456
  const WRITE_CAPACITY := 4096

  /** A write request; the body and header are represented by their sizes and the payload. */
  datatype Write<K, P> = Write(key: K, payload: P, bodySize: nat, headerSize: nat, ttl: int) {
    // Whether the write is carried out at all: empty bodies and no-cache responses are not.
    predicate Stores() {
      bodySize > 0 && ttl >= 0
    }

    function EntryAt(now: int): Entry<K, P> {
      Entry(key, payload, now, if ttl == 0 then DEFAULT_TTL else ttl, bodySize + headerSize)
    }
  }

  // Entry e holds what write w asked for, stored at time t: with the lifetime asked for, or five minutes.
  ghost predicate Holds<K, P>(e: Entry<K, P>, w: Write<K, P>, t: int) {
    && e.key == w.key && e.payload == w.payload && e.size == w.bodySize + w.headerSize
    && e.storedAt == t && e.ttl == (if w.ttl > 0 then w.ttl else 300_000_000_000)
  }

  function DoWrite<K(==), P>(q: seq<Entry<K, P>>, w: Write<K, P>, maxSize: int, now: int): seq<Entry<K, P>> {
    if w.Stores() then Put(q, w.EntryAt(now), maxSize) else q
  }

  /** The writes in order, each at its own time. */
  function DoWrites<K(==), P>(q: seq<Entry<K, P>>, ws: seq<Write<K, P>>, maxSize: int, times: seq<int>): seq<Entry<K, P>>
    requires |ws| == |times|
    decreases |ws|
  {
    if ws == [] then q else DoWrites(DoWrite(q, ws[0], maxSize, times[0]), ws[1..], maxSize, times[1..])
  }

  class Element<K, P> {
    const entry: Entry<K, P>

    constructor (entry: Entry<K, P>)
      ensures this.entry == entry
    {
      this.entry := entry;
    }
  }

  function Entries<K, P>(els: seq<Element<K, P>>): (q: seq<Entry<K, P>>)
    ensures |q| == |els| && forall i :: 0 <= i < |els| ==> q[i] == els[i].entry
  {
    seq(|els|, i requires 0 <= i < |els| => els[i].entry)
  }

  // list.Remove
  function Unlink<T(==)>(els: seq<T>, el: T): seq<T> {
    if els == [] then [] else if els[0] == el then els[1..] else [els[0]] + Unlink(els[1..], el)
  }

  lemma {:induction false} UnlinkMembers<T>(els: seq<T>, el: T)
    requires el in els
    ensures forall i :: 0 <= i < |Unlink(els, el)| ==> Unlink(els, el)[i] in els
    ensures forall i :: 0 <= i < |els| && els[i] != el ==> els[i] in Unlink(els, el)
  {
    assert els == [els[0]] + els[1..];
    if els[0] != el { UnlinkMembers(els[1..], el); }
  }

  lemma {:induction false} UnlinkEntries<K, P>(els: seq<Element<K, P>>, el: Element<K, P>)
    requires el in els && Distinct(Entries(els))
    ensures Entries(Unlink(els, el)) == Without(Entries(els), el.entry.key)
    ensures HasKey(Entries(els), el.entry.key) && EntryOf(Entries(els), el.entry.key) == el.entry
  {
    var rest := els[1..];
    assert Entries(els)[1..] == Entries(rest);
    if els[0] != el {
      assert Distinct(Entries(rest)) by {
        assert forall i :: 0 <= i < |rest| ==> Entries(rest)[i] == Entries(els)[i + 1];
      }
      UnlinkEntries(rest, el);
      var j :| 0 <= j < |els| && els[j] == el;
      assert Entries(els)[0].key != Entries(els)[j].key;
      assert Entries([els[0]] + Unlink(rest, el)) == [els[0].entry] + Entries(Unlink(rest, el));
    }
  }

  lemma {:induction false} WithoutLast<K, P>(q: seq<Entry<K, P>>)
    requires q != [] && Distinct(q)
    ensures Without(q, q[|q| - 1].key) == q[..|q| - 1]
  {
    if |q| > 1 {
      var rest := q[1..];
      assert Distinct(rest) by { assert forall i :: 0 <= i < |rest| ==> rest[i] == q[i + 1]; }
      WithoutLast(rest);
      assert q[..|q| - 1] == [q[0]] + rest[..|rest| - 1];
    }
  }

  lemma FitLacksKey<K, P>(q: seq<Entry<K, P>>, budget: int, k: K)
    requires Lacks(q, k)
    ensures !HasKey(Fit(q, budget), k)
  {
    FitIsLongest(q, budget);
    HasKeyIff(Fit(q, budget), k);
  }

  // Map keys and list elements correspond one to one.
  ghost predicate Linked<K, P>(els: seq<Element<K, P>>, items: map<K, Element<K, P>>) {
    && Distinct(Entries(els))
    && (forall k :: k in items ==> items[k] in els && items[k].entry.key == k)
    && (forall i :: 0 <= i < |els| ==> els[i].entry.key in items && items[els[i].entry.key] == els[i])
  }

  lemma LinkedIsDistinct<K, P>(els: seq<Element<K, P>>, items: map<K, Element<K, P>>)
    requires Linked(els, items)
    ensures Distinct(Entries(els))
  {
  }

  // A key is in the map exactly when its entry is in the list.
  lemma LinkedKeys<K, P>(els: seq<Element<K, P>>, items: map<K, Element<K, P>>, k: K)
    requires Linked(els, items)
    ensures k in items <==> HasKey(Entries(els), k)
    ensures k in items ==> EntryOf(Entries(els), k) == items[k].entry
  {
    HasKeyIff(Entries(els), k);
    if k in items {
      UnlinkEntries(els, items[k]);
    }
    if HasKey(Entries(els), k) {
      var i :| 0 <= i < |Entries(els)| && Entries(els)[i].key == k;
      assert els[i].entry.key in items;
    }
  }

  lemma UnlinkKeepsLinks<K, P>(els: seq<Element<K, P>>, items: map<K, Element<K, P>>, el: Element<K, P>)
    requires Linked(els, items) && el in els
    ensures Linked(Unlink(els, el), items - {el.entry.key})
    ensures Entries(Unlink(els, el)) == Without(Entries(els), el.entry.key)
    ensures Total(Entries(Unlink(els, el))) == Total(Entries(els)) - el.entry.size
  {
    UnlinkEntries(els, el);
    UnlinkMembers(els, el);
    WithoutMembers(Entries(els), el.entry.key);
    WithoutTotal(Entries(els), el.entry.key);
    var rest := Unlink(els, el);
    forall i | 0 <= i < |rest| ensures rest[i].entry.key != el.entry.key {
      assert Entries(rest)[i].key == rest[i].entry.key;
    }
  }

  lemma PushKeepsLinks<K, P>(els: seq<Element<K, P>>, items: map<K, Element<K, P>>, el: Element<K, P>)
    requires Linked(els, items) && el.entry.key !in items
    ensures Linked([el] + els, items[el.entry.key := el])
    ensures Entries([el] + els) == [el.entry] + Entries(els)
    ensures Total(Entries([el] + els)) == el.entry.size + Total(Entries(els))
  {
    assert Entries([el] + els) == [el.entry] + Entries(els);
    FrontDistinct(el.entry, Entries(els));
  }

  lemma LinkedAt<K, P>(els: seq<Element<K, P>>, items: map<K, Element<K, P>>, el: Element<K, P>)
    requires Linked(els, items) && el in els
    ensures el.entry.key in items && items[el.entry.key] == el
  {
  }

  lemma FrontKeepsLinks<K, P>(els: seq<Element<K, P>>, items: map<K, Element<K, P>>, el: Element<K, P>)
    requires Linked(els, items) && el in els
    ensures Linked([el] + Unlink(els, el), items)
    ensures HasKey(Entries(els), el.entry.key)
    ensures Entries([el] + Unlink(els, el)) == MoveToFront(Entries(els), el.entry.key)
    ensures Total(Entries([el] + Unlink(els, el))) == Total(Entries(els))
  {
    hide Linked, Distinct, Unlink, Entries, Without;
    var k := el.entry.key;
    LinkedIsDistinct(els, items);
    LinkedAt(els, items, el);
    UnlinkEntries(els, el);
    UnlinkKeepsLinks(els, items, el);
    PushKeepsLinks(Unlink(els, el), items - {k}, el);
    assert (items - {k})[k := el] == items;
  }

  class Cache<K(==), P> {
    var lru: seq<Element<K, P>>
    var items: map<K, Element<K, P>>
    var curSize: int
    var maxSize: int
    var writeCh: seq<Write<K, P>>

    ghost function Recency(): seq<Entry<K, P>>
      reads this`lru
    {
      Entries(lru)
    }

    // Keys and list elements correspond one to one, and the counter is the sum of the sizes.
    ghost predicate Valid()
      reads this`lru, this`items, this`curSize
    {
      Linked(lru, items) && curSize == Total(Recency())
    }

    constructor (configured: int)
      ensures Valid() && Recency() == [] && writeCh == []
      ensures maxSize == if configured <= 0 then 0x1000_0000 else configured
    {
      lru, items, curSize, writeCh := [], map[], 0, [];
      maxSize := if configured <= 0 then DEFAULT_MAX_SIZE else configured;
    }

    method RemoveElement(el: Element<K, P>)
      requires Valid() && el in lru
      modifies this`lru, this`items, this`curSize
      ensures Valid() && Recency() == Without(old(Recency()), el.entry.key)
    {
      hide Linked, Distinct;
      UnlinkKeepsLinks(lru, items, el);
      items := items - {el.entry.key};
      lru := Unlink(lru, el);
      curSize := curSize - el.entry.size;
    }

    // The eviction loop: from the back, while the total is over the budget.
    method Evict(budget: int)
      requires Valid()
      modifies this`lru, this`items, this`curSize
      ensures Valid() && Recency() == Fit(old(Recency()), budget)
    {
      hide Linked;
      while curSize > budget && |lru| > 0
        invariant Valid() && Fit(Recency(), budget) == Fit(old(Recency()), budget)
        decreases |lru|
      {
        var oldest := lru[|lru| - 1];
        LinkedIsDistinct(lru, items);
        WithoutLast(Recency());
        RemoveElement(oldest);
      }
    }

    /** The entry for a key, if there is one and it is not stale; it becomes the most recent. */
    method Get(key: K, now: int) returns (hit: Option<Entry<K, P>>)
      requires Valid()
      modifies this`lru, this`items, this`curSize
      ensures Valid() && (Recency(), hit) == Look(old(Recency()), key, now)
    {
      hide Distinct, Without, HasKey;
      LinkedKeys(lru, items, key);
      if key !in items {
        return None;
      }
      var el := items[key];
      if el.entry.IsStale(now) {
        RemoveElement(el);
        return None;
      }
      FrontKeepsLinks(lru, items, el);
      lru := [el] + Unlink(lru, el);
      hit := Some(el.entry);
    }

    method PushFront(e: Entry<K, P>)
      requires Valid() && e.key !in items
      modifies this`lru, this`items, this`curSize
      ensures Valid() && Recency() == [e] + old(Recency())
    {
      var el := new Element(e);
      PushKeepsLinks(lru, items, el);
      lru := [el] + lru;
      items := items[e.key := el];
      curSize := curSize + e.size;
    }

    // Removes the entry a write is about to replace, if there is one.
    method RemoveKey(key: K)
      requires Valid()
      modifies this`lru, this`items, this`curSize
      ensures Valid() && Recency() == Without(old(Recency()), key) && Lacks(Recency(), key)
    {
      LinkedKeys(lru, items, key);
      WithoutTotal(Recency(), key);
      WithoutMembers(Recency(), key);
      if key in items {
        RemoveElement(items[key]);
      }
    }

    /** Carries out one write. */
    method SetLocked(w: Write<K, P>, now: int)
      requires Valid()
      modifies this`lru, this`items, this`curSize
      ensures Valid() && Recency() == DoWrite(old(Recency()), w, maxSize, now)
      ensures w.bodySize == 0 || w.ttl < 0 ==> Recency() == old(Recency())
      ensures w.bodySize > 0 && w.ttl >= 0 ==> Recency() != [] && Holds(Recency()[0], w, now)
    {
      hide Linked, Distinct, Fit, Lacks, Without, HasKey;
      if w.bodySize == 0 {
        return;
      }
      var ttl := w.ttl;
      if ttl == 0 {
        ttl := DEFAULT_TTL;
      } else if ttl < 0 {
        return;
      }
      var entry := Entry(w.key, w.payload, now, ttl, w.bodySize + w.headerSize);
      RemoveKey(w.key);
      ghost var others := Recency();
      Evict(maxSize - entry.size);
      FitLacksKey(others, maxSize - entry.size, w.key);
      LinkedKeys(lru, items, w.key);
      PushFront(entry);
    }

    method Resize(newMaxSize: int)
      requires Valid()
      modifies this`lru, this`items, this`curSize, this`maxSize
      ensures Valid()
      ensures newMaxSize <= 0 ==> Recency() == old(Recency()) && maxSize == old(maxSize)
      ensures newMaxSize > 0 ==> Recency() == Fit(old(Recency()), newMaxSize) && maxSize == newMaxSize
    {
      if newMaxSize <= 0 {
        return;
      }
      maxSize := newMaxSize;
      Evict(newMaxSize);
    }

    /** Enqueues a write, unless its body is empty or the queue is full. */
    method SetAsync(w: Write<K, P>) returns (queued: bool)
      modifies this`writeCh
      ensures queued <==> w.bodySize > 0 && |old(writeCh)| < 4096
      ensures writeCh == if queued then old(writeCh) + [w] else old(writeCh)
    {
      queued := w.bodySize > 0 && |writeCh| < WRITE_CAPACITY;
      if queued {
        writeCh := writeCh + [w];
      }
    }

    /** The writer's loop, once the channel is closed: every queued write, in order, each at its own time. */
    method Close(times: seq<int>)
      requires Valid() && |times| == |writeCh|
      modifies this`lru, this`items, this`curSize, this`writeCh
      ensures Valid() && writeCh == []
      ensures Recency() == DoWrites(old(Recency()), old(writeCh), maxSize, times)
    {
      ghost var ws := writeCh;
      var i := 0;
      while writeCh != []
        invariant Valid() && i + |writeCh| == |ws| == |times|
        invariant writeCh == ws[i..]
        invariant DoWrites(Recency(), writeCh, maxSize, times[i..]) == DoWrites(old(Recency()), ws, maxSize, times)
        decreases |writeCh|
      {
        var w := writeCh[0];
        writeCh := writeCh[1..];
        SetLocked(w, times[i]);
        assert times[i..][1..] == times[i + 1..];
        i := i + 1;
      }
    }
  }

  /** At rest a cache whose entries all have a size holds at most max(1, maxSize) of them. */
  lemma EntryCountBound<K, P>(q: seq<Entry<K, P>>, maxSize: int)
    requires Total(q) <= maxSize || |q| == 1
    requires forall i :: 0 <= i < |q| ==> q[i].size >= 1
    ensures |q| <= if maxSize > 1 then maxSize else 1
  {
    TotalNonNegative(q);
  }
}
