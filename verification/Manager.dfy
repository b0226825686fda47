/** The manager of all jars: one jar object a key, a persistence queue, and periodic cleanup. */
module Manager {
  import opened JarModel
  import opened Jar
  import opened WriteBehind

  // ----- what a session's lookups return -----

  // All jars in memory, as flat jars.
  type Flats = map<string, FlatJar>

  // The jar GetOrCreateJar would hand out for `key` at time `now`.
  ghost function JarFor(flats: Flats, db: Store, key: string, now: int): FlatJar {
    if key in flats then flats[key]
    else if key in db then RestoreInto(map[], db[key], now)
    else map[]
  }

  // What is left in memory after a cleanup.
  ghost function CleanedFlats(flats: Flats, now: int): Flats {
    map k | k in flats && WithoutExpired(flats[k], now) != map[] :: WithoutExpired(flats[k], now)
  }

  // The record of one key is a snapshot of jar f: every lasting entry once, no record for none.
  ghost predicate SnapshotOf(db: Store, key: string, f: FlatJar, now: int) {
    if Persistent(f, now) == {} then key !in db
    else key in db && Enumerates(db[key], Persistent(f, now))
  }

  /**
    What cleanup makes of the database: the jars dropped have no record, those left have a
    snapshot, and keys without a jar in memory keep what they had. Without a database there are no
    records at all.
   */
  ghost predicate CleanedStore(persistent: bool, flats: Flats, db: Store, after: Store, now: int) {
    if !persistent then db == after == map[]
    else
      && (forall k :: k !in flats ==> (k in after <==> k in db) && (k in db ==> after[k] == db[k]))
      && (forall k :: k in flats && k !in CleanedFlats(flats, now) ==> k !in after)
      && (forall k :: k in CleanedFlats(flats, now) ==> SnapshotOf(after, k, CleanedFlats(flats, now)[k], now))
  }

  /** In plain fields: a jar is left when something in it is live, with exactly its live entries. */
  lemma CleanedInFields(flats: Flats, now: int)
    ensures forall k :: k in CleanedFlats(flats, now) <==> k in flats && exists s :: s in flats[k] && !flats[k][s].IsExpired(now)
    ensures forall k :: k in CleanedFlats(flats, now) ==>
        var g := CleanedFlats(flats, now)[k];
        (forall s :: s in g <==> s in flats[k] && !flats[k][s].IsExpired(now)) && (forall s :: s in g ==> g[s] == flats[k][s])
  {
    forall k | k in flats ensures WithoutExpired(flats[k], now) == map[] <==> !exists s :: s in flats[k] && !flats[k][s].IsExpired(now) {
      SweepInFields(flats[k], now);
      if s :| s in flats[k] && !flats[k][s].IsExpired(now) {
        assert s in WithoutExpired(flats[k], now);
      }
    }
  }

  /**
    Cleanup is invisible: every session, in memory or not, gets the same answer to every lookup
    from then on, including the sessions whose jar was dropped and has to be made again.
   */
  lemma CleanupKeepsAnswers(persistent: bool, flats: Flats, db: Store, after: Store, cleaned: int, key: string, host: string, path: string, now: int)
    requires cleaned <= now && CleanedStore(persistent, flats, db, after, cleaned)
    ensures Applicable(JarFor(CleanedFlats(flats, cleaned), after, key, now), host, path, now)
         == Applicable(JarFor(flats, db, key, now), host, path, now)
  {
    if key in flats {
      CleanupInvisible(flats[key], cleaned, host, path, now);
    }
  }

  lemma RestoreSnapshot(db: Store, key: string, f: FlatJar, t1: int, t2: int, host: string, path: string, now: int)
    requires Slotted(f) && SnapshotOf(db, key, f, t1) && t1 <= t2 <= now
    ensures Applicable(JarFor(map[], db, key, t2), host, path, now) == set e | e in Applicable(f, host, path, now) && !e.IsSession()
  {
    hide Applicable, Persistent, RestoreInto, Slotted;
    if key in db {
      RestoredLookup(f, db[key], t1, t2, host, path, now);
    } else {
      RestoredLookup(f, [], t1, t2, host, path, now);
      NothingRestored(t2);
    }
  }

  lemma CleanedKeepsSlots(f: FlatJar, now: int)
    ensures Slotted(f) ==> Slotted(WithoutExpired(f, now))
  {
  }

  /**
    Cleanup is the safety net of the queue: whatever snapshots were dropped before it, a session
    whose jar was in memory gets from a restart after the cleanup the persistent part of what that
    jar would answer. Other sessions get what the old database would have given them.
   */
  lemma RestartAfterCleanup(flats: Flats, db: Store, after: Store, cleaned: int, key: string, t2: int, host: string, path: string, now: int)
    requires CleanedStore(true, flats, db, after, cleaned) && cleaned <= t2 <= now
    requires key in flats ==> Slotted(flats[key])
    ensures Applicable(JarFor(map[], after, key, t2), host, path, now)
         == if key in flats then set e | e in Applicable(flats[key], host, path, now) && !e.IsSession()
            else Applicable(JarFor(map[], db, key, t2), host, path, now)
  {
    hide Applicable, Persistent, RestoreInto, Slotted, SnapshotOf, WithoutExpired;
    if key in flats {
      var f := flats[key];
      CleanupInvisible(f, cleaned, host, path, now);
      CleanedKeepsSlots(f, cleaned);
      if WithoutExpired(f, cleaned) == map[] {
        NoAnswer(host, path, now);
      } else {
        assert key in CleanedFlats(flats, cleaned);
        RestoreSnapshot(after, key, WithoutExpired(f, cleaned), cleaned, t2, host, path, now);
      }
    }
  }

  lemma NoAnswer(host: string, path: string, now: int)
    ensures Applicable(map[], host, path, now) == {}
  {
  }

  // ----- a sweep over all jars, one at a time -----

  ghost function Swept(flats: Flats, todo: set<string>, now: int): Flats {
    map k | k in flats :: if k in todo then flats[k] else WithoutExpired(flats[k], now)
  }

  ghost function Emptied(flats: Flats, todo: set<string>, now: int): set<string> {
    set k | k in flats && k !in todo && WithoutExpired(flats[k], now) == map[]
  }

  lemma SweptStart(flats: Flats, now: int)
    ensures Swept(flats, flats.Keys, now) == flats && Emptied(flats, flats.Keys, now) == {}
  {
  }

  lemma SweptStep(flats: Flats, todo: set<string>, k: string, now: int)
    requires k in todo && k in flats
    ensures Swept(flats, todo, now)[k] == flats[k]
    ensures Swept(flats, todo - {k}, now) == Swept(flats, todo, now)[k := WithoutExpired(flats[k], now)]
    ensures Emptied(flats, todo - {k}, now)
         == Emptied(flats, todo, now) + if WithoutExpired(flats[k], now) == map[] then {k} else {}
  {
  }

  // Removing expired entries again at the same time removes nothing more.
  lemma SweptTwice(f: FlatJar, now: int)
    ensures WithoutExpired(WithoutExpired(f, now), now) == WithoutExpired(f, now)
  {
  }

  // The database part way through cleanup: the survivors still to be written are in `todo`.
  ghost predicate PartCleaned(flats: Flats, db: Store, after: Store, todo: set<string>, now: int) {
    && (forall k :: k !in flats ==> (k in after <==> k in db) && (k in db ==> after[k] == db[k]))
    && (forall k :: k in flats && k !in CleanedFlats(flats, now) ==> k !in after)
    && (forall k :: k in CleanedFlats(flats, now) && k !in todo ==> SnapshotOf(after, k, CleanedFlats(flats, now)[k], now))
  }

  lemma DroppedIsCleaned(flats: Flats, db: Store, now: int)
    ensures Swept(flats, {}, now) - Emptied(flats, {}, now) == CleanedFlats(flats, now)
    ensures PartCleaned(flats, db, db - Emptied(flats, {}, now), CleanedFlats(flats, now).Keys, now)
  {
    hide SnapshotOf;
  }

  lemma SnapshotWritten(db: Store, task: PersistTask, f: FlatJar, now: int)
    requires Enumerates(task.entries, Persistent(f, now))
    ensures SnapshotOf(WriteTask(db, task), task.jarKey, f, now)
  {
    hide Persistent;
    var kept := Persistent(f, now);
    if task.entries == [] {
      assert forall e :: e in kept ==> e in multiset(task.entries);
      assert kept == {};
    } else {
      assert task.entries[0] in multiset(task.entries);
      assert kept != {};
      assert WriteTask(db, task)[task.jarKey] == task.entries;
    }
  }

  lemma SnapshotKeepsCleaned(flats: Flats, before: Store, db: Store, todo: set<string>, task: PersistTask, now: int)
    requires PartCleaned(flats, before, db, todo, now) && task.jarKey in CleanedFlats(flats, now)
    requires Enumerates(task.entries, Persistent(CleanedFlats(flats, now)[task.jarKey], now))
    ensures PartCleaned(flats, before, WriteTask(db, task), todo - {task.jarKey}, now)
  {
    assert task.jarKey in flats;
    hide Persistent, Enumerates, CleanedFlats;
    SnapshotWritten(db, task, CleanedFlats(flats, now)[task.jarKey], now);
  }

  /**
    Restart: after a shutdown that drained the queue, a session whose last accepted snapshot was
    taken of jar f at t1 gets, from a new manager on the same database, the persistent part of
    what f would answer.
   */
  lemma RestartKeepsPersistent(base: Store, accepted: seq<PersistTask>, i: nat, f: FlatJar, t1: int, t2: int, host: string, path: string, now: int)
    requires i < |accepted| && forall j :: i < j < |accepted| ==> accepted[j].jarKey != accepted[i].jarKey
    requires Slotted(f) && Enumerates(accepted[i].entries, Persistent(f, t1)) && t1 <= t2 <= now
    ensures Applicable(JarFor(map[], Replay(base, accepted), accepted[i].jarKey, t2), host, path, now)
         == set e | e in Applicable(f, host, path, now) && !e.IsSession()
  {
    hide Applicable, Persistent, RestoreInto;
    ReplayKeepsLast(base, accepted, i);
    RestoredLookup(f, accepted[i].entries, t1, t2, host, path, now);
    if accepted[i].entries == [] { NothingRestored(t2); }
  }

  lemma NothingRestored(now: int)
    ensures RestoreInto(map[], [], now) == map[]
  {
  }

  // A snapshot of jar f was enqueued for the key, and recorded as accepted.
  ghost predicate Enqueued(before: seq<PersistTask>, after: seq<PersistTask>, acceptedBefore: seq<PersistTask>, acceptedAfter: seq<PersistTask>,
      jarKey: string, f: FlatJar, now: int)
  {
    exists entries :: Enumerates(entries, Persistent(f, now))
      && after == before + [PersistTask(jarKey, entries)]
      && acceptedAfter == acceptedBefore + [PersistTask(jarKey, entries)]
  }

  class Manager {
    var jars: map<string, Jar>
    var db: Store                       // empty for ever when persistence is disabled
    var persistCh: seq<PersistTask>
    const persistent: bool
    const maxPerJar: int
    ghost var base: Store               // the database at start
    ghost var accepted: seq<PersistTask>

    // Jars are valid and of the manager's capacity, and no object serves two keys.
    ghost predicate ValidJars()
      reads this`jars, jars.Values
    {
      && maxPerJar > 0
      && (forall k :: k in jars ==> jars[k].Valid() && jars[k].maxSize == maxPerJar)
      && (forall k1, k2 :: k1 in jars && k2 in jars && k1 != k2 ==> jars[k1] != jars[k2])
    }

    // Replaying the queue onto the database gives the replay of everything accepted.
    ghost predicate ValidQueue()
      reads this`db, this`persistCh, this`base, this`accepted
    {
      && |persistCh| <= QUEUE_CAPACITY
      && (!persistent ==> db == map[] && persistCh == [])
      && Replay(db, persistCh) == Replay(base, accepted)
    }

    ghost function Flats(): Flats
      reads this`jars, jars.Values
    {
      map k | k in jars :: jars[k].Flat()
    }

    constructor (capacity: int, persistent: bool, stored: Store)
      ensures ValidJars() && ValidQueue() && jars == map[]
      ensures db == base == if persistent then stored else map[]
      ensures maxPerJar == if capacity <= 0 then 500 else capacity
    {
      maxPerJar := if capacity <= 0 then DEFAULT_CAPACITY else capacity;
      this.persistent := persistent;
      jars, persistCh, accepted := map[], [], [];
      db := if persistent then stored else map[];
      base := if persistent then stored else map[];
    }

    /** The jar for a key: the one in memory, one restored from the database, or a new one. */
    method GetOrCreateJar(jarKey: string, now: int) returns (jar: Jar?, isNew: bool)
      requires ValidJars()
      modifies this`jars
      ensures ValidJars()
      ensures jarKey == "" ==> jar == null && !isNew && jars == old(jars)
      ensures jarKey != "" ==>
          && jar != null && jar.Valid() && jar.maxSize == maxPerJar && jars == old(jars)[jarKey := jar]
          && (jarKey in old(jars) ==> jar == old(jars)[jarKey])
          && (jarKey !in old(jars) ==> fresh(jar))
          && jar.Flat() == JarFor(old(Flats()), db, jarKey, now)
          && (jarKey in old(jars) ==> jar.Flat() == old(Flats())[jarKey])
          && (jarKey !in old(jars) && jarKey !in db ==> jar.Flat() == map[])
          && (isNew <==> jarKey !in old(jars) && jarKey !in db)
          && Flats() == old(Flats())[jarKey := jar.Flat()]
    {
      hide Jar.Valid, Jar.Flat, WithoutExpired, Applicable, RestoreInto, Persistent;
      if jarKey == "" {
        return null, false;
      }
      if jarKey in jars {
        assert Flats()[jarKey := jars[jarKey].Flat()] == Flats();
        return jars[jarKey], false;
      }
      var made := new Jar(maxPerJar);
      isNew := true;
      if jarKey in db {
        made.RestoreCookies(db[jarKey], now);
        isNew := false;
      }
      Install(jarKey, made);
      jar := made;
    }

    // m.jars[jarKey] = jar, for a jar no other key has
    method Install(jarKey: string, jar: Jar)
      requires ValidJars() && jar.Valid() && jar.maxSize == maxPerJar && jar !in jars.Values
      modifies this`jars
      ensures ValidJars() && jars == old(jars)[jarKey := jar]
      ensures Flats() == old(Flats())[jarKey := jar.Flat()]
    {
      hide Jar.Valid, Jar.Flat, WithoutExpired, Applicable, RestoreInto, Persistent;
      jars := jars[jarKey := jar];
    }

    /** Enqueues a snapshot, or drops it when the queue is full. */
    method PersistJar(jarKey: string, jar: Jar, now: int)
      requires jar.Valid() && ValidQueue()
      modifies this`persistCh, this`accepted
      ensures ValidQueue()
      ensures !persistent || |old(persistCh)| >= QUEUE_CAPACITY ==> persistCh == old(persistCh) && accepted == old(accepted)
      ensures persistent && |old(persistCh)| < QUEUE_CAPACITY ==>
          Enqueued(old(persistCh), persistCh, old(accepted), accepted, jarKey, jar.Flat(), now)
    {
      if !persistent {
        return;
      }
      var entries := jar.AllCookies(now);
      if |persistCh| < QUEUE_CAPACITY {
        var task := PersistTask(jarKey, entries);
        ReplayOneMore(db, persistCh, task);
        ReplayOneMore(base, accepted, task);
        persistCh := persistCh + [task];
        accepted := accepted + [task];
      }
    }

    method WriteJarToDB(task: PersistTask)
      modifies this`db
      ensures db == if persistent then WriteTask(old(db), task) else old(db)
    {
      if !persistent {
        return;
      }
      if task.entries == [] {
        db := db - {task.jarKey};
      } else {
        db := db[task.jarKey := task.entries];
      }
    }

    /** One round of the worker. */
    method WorkerStep()
      requires persistent && ValidQueue() && persistCh != []
      modifies this`db, this`persistCh
      ensures ValidQueue() && persistCh == old(persistCh)[1..]
      ensures db == WriteTask(old(db), old(persistCh)[0])
    {
      var task := persistCh[0];
      ReplayFirst(db, task, persistCh[1..]);
      assert persistCh == [task] + persistCh[1..];
      persistCh := persistCh[1..];
      WriteJarToDB(task);
    }

    /** Closing drains the queue: the database becomes the replay of everything accepted. */
    method Close()
      requires ValidQueue()
      modifies this`db, this`persistCh
      ensures ValidQueue() && persistCh == [] && db == Replay(base, accepted)
    {
      while |persistCh| > 0
        invariant ValidQueue()
        decreases |persistCh|
      {
        WorkerStep();
      }
    }

    // jar.RemoveExpired and jar.IsExpired for one jar of the manager
    method SweepJar(k: string, now: int) returns (gone: bool)
      requires ValidJars() && k in jars
      modifies jars[k]
      ensures ValidJars()
      ensures Flats() == old(Flats())[k := WithoutExpired(old(Flats())[k], now)]
      ensures gone <==> WithoutExpired(old(Flats())[k], now) == map[]
    {
      hide Jar.Valid, Jar.Flat, WithoutExpired, Applicable, RestoreInto, Persistent;
      ghost var before := Flats();
      SweptTwice(jars[k].Flat(), now);
      jars[k].RemoveExpired(now);
      forall x | x in jars && x != k ensures jars[x].Flat() == before[x] && jars[x].Valid() {
        assert jars[x] != jars[k];
      }
      assert Flats() == before[k := WithoutExpired(before[k], now)];
      gone := jars[k].IsExpired(now);
    }

    /** Removes what has expired from every jar, and tells which jars have nothing left. */
    method SweepJars(now: int) returns (expired: set<string>)
      requires ValidJars()
      modifies jars.Values
      ensures ValidJars()
      ensures Flats() == Swept(old(Flats()), {}, now)
      ensures expired == Emptied(old(Flats()), {}, now)
    {
      hide Jar.Valid, Jar.Flat, WithoutExpired, Applicable, RestoreInto, Persistent;
      expired := {};
      var todo := jars.Keys;
      SweptStart(Flats(), now);
      while todo != {}
        invariant todo <= jars.Keys && ValidJars()
        invariant Flats() == Swept(old(Flats()), todo, now)
        invariant expired == Emptied(old(Flats()), todo, now)
        decreases todo
      {
        var k :| k in todo;
        SweptStep(old(Flats()), todo, k, now);
        todo := todo - {k};
        var gone := SweepJar(k, now);
        if gone {
          expired := expired + {k};
        }
      }
    }

    // Writes the snapshot of every jar left.
    method PersistSurvivors(ghost flats: Flats, ghost before: Store, now: int)
      requires persistent && ValidJars() && Flats() == CleanedFlats(flats, now)
      requires PartCleaned(flats, before, db, jars.Keys, now)
      modifies this`db
      ensures PartCleaned(flats, before, db, {}, now)
    {
      hide Jar.Valid, Jar.Flat, Persistent, CleanedFlats, PartCleaned, Enumerates;
      var survivors := jars.Keys;
      while survivors != {}
        invariant survivors <= jars.Keys && ValidJars() && Flats() == CleanedFlats(flats, now)
        invariant PartCleaned(flats, before, db, survivors, now)
        decreases survivors
      {
        var k :| k in survivors;
        var entries := jars[k].AllCookies(now);
        assert Flats()[k] == jars[k].Flat() && k in CleanedFlats(flats, now);
        SnapshotKeepsCleaned(flats, before, db, survivors, PersistTask(k, entries), now);
        survivors := survivors - {k};
        WriteJarToDB(PersistTask(k, entries));
      }
    }

    method DropJars(expired: set<string>)
      requires ValidJars()
      modifies this`jars
      ensures ValidJars() && jars == old(jars) - expired && Flats() == old(Flats()) - expired
    {
      hide Jar.Valid, Jar.Flat;
      jars := jars - expired;
    }

    // Cleanup rewrites the database behind the queue's back, so its history starts afresh.
    ghost method RestartHistory()
      requires persistCh == [] && (!persistent ==> db == map[])
      modifies this`base, this`accepted
      ensures ValidQueue()
    {
      base, accepted := db, [];
    }

    // The database half of cleanup.
    method CleanDatabase(ghost flats: Flats, expired: set<string>, now: int)
      requires ValidJars() && ValidQueue() && persistCh == []
      requires Flats() == CleanedFlats(flats, now) && expired == Emptied(flats, {}, now)
      modifies this`db, this`base, this`accepted
      ensures ValidQueue() && CleanedStore(persistent, flats, old(db), db, now)
    {
      hide Jar.Valid, Jar.Flat, WithoutExpired, CleanedFlats, PartCleaned, Emptied, Replay;
      ghost var before := db;
      DroppedIsCleaned(flats, db, now);
      if persistent {
        db := db - expired;
        assert jars.Keys == Flats().Keys;
        PersistSurvivors(flats, before, now);
        assert CleanedStore(true, flats, before, db, now) by { AllCleaned(flats, before, db, now); }
      }
      RestartHistory();
    }

    /**
      Cleanup: sweep, drop empty jars from memory and database, and write snapshots of the others.
     */
    method Cleanup(now: int)
      requires ValidJars() && ValidQueue() && persistCh == []
      modifies this`jars, this`db, this`base, this`accepted, jars.Values
      ensures ValidJars() && ValidQueue() && persistCh == []
      ensures Flats() == CleanedFlats(old(Flats()), now)
      ensures CleanedStore(persistent, old(Flats()), old(db), db, now)
    {
      hide Jar.Valid, Jar.Flat, WithoutExpired, CleanedFlats, CleanedStore, Swept, Emptied, Replay;
      ghost var flats := Flats();
      var expired := SweepJars(now);
      DroppedIsCleaned(flats, db, now);
      DropJars(expired);
      CleanDatabase(flats, expired, now);
    }
  }

  lemma AllCleaned(flats: Flats, db: Store, after: Store, now: int)
    requires PartCleaned(flats, db, after, {}, now)
    ensures CleanedStore(true, flats, db, after, now)
  {
    hide SnapshotOf, CleanedFlats;
  }
}
