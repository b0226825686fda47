/** A two-level map as a flat map from pairs, for any types of keys and values. */
module NestedMap {
  type Nested<D, K, V> = map<D, map<K, V>>

  ghost function Pairs<D(!new), K(!new), V>(b: Nested<D, K, V>, ds: set<D>): (pairs: set<(D, K)>)
    requires ds <= b.Keys
    ensures forall s :: s in pairs <==> s.0 in ds && s.1 in b[s.0]
  {
    if ds == {} then {}
    else
      var d :| d in ds;
      (set k | k in b[d] :: (d, k)) + Pairs(b, ds - {d})
  }

  ghost function Flatten<D(!new), K(!new), V>(b: Nested<D, K, V>): (f: map<(D, K), V>)
    ensures forall s :: s in f <==> s.0 in b && s.1 in b[s.0]
    ensures forall s :: s in f ==> f[s] == b[s.0][s.1]
  {
    map s | s in Pairs(b, b.Keys) :: b[s.0][s.1]
  }

  ghost predicate NoEmpty<D(!new), K(!new), V>(b: Nested<D, K, V>) {
    forall d :: d in b ==> b[d] != map[]
  }

  lemma {:induction false} RowSize<D(!new), K(!new), V>(d: D, m: map<K, V>, row: set<(D, K)>)
    requires forall s :: s in row <==> s.0 == d && s.1 in m
    ensures |row| == |m|
  {
    if m == map[] {
      assert row == {};
    } else {
      var k :| k in m;
      var rest := m - {k};
      assert rest.Keys == m.Keys - {k};
      RowSize(d, rest, row - {(d, k)});
    }
  }

  lemma FlattenSplit<D(!new), K(!new), V>(b: Nested<D, K, V>, d: D)
    requires d in b
    ensures |Flatten(b)| == |Flatten(b - {d})| + |b[d]|
  {
    var rest := Flatten(b - {d}).Keys;
    var row := Flatten(b).Keys - rest;
    assert rest <= Flatten(b).Keys;
    RowSize(d, b[d], row);
    assert |Flatten(b).Keys - rest| == |Flatten(b).Keys| - |rest|;
  }

  /** Replaces row `d`, dropping it when nothing is left in it. */
  function SetRow<D(!new), K(!new), V>(b: Nested<D, K, V>, d: D, m: map<K, V>): Nested<D, K, V> {
    if m == map[] then b - {d} else b[d := m]
  }

  lemma FlattenSetRow<D(!new), K(!new), V>(b: Nested<D, K, V>, d: D, m: map<K, V>)
    ensures var f, g := Flatten(b), Flatten(SetRow(b, d, m));
            forall s: (D, K) :: (s in g <==> if s.0 == d then s.1 in m else s in f)
                             && (s in g ==> g[s] == if s.0 == d then m[s.1] else f[s])
    ensures NoEmpty(b) ==> NoEmpty(SetRow(b, d, m))
  {
  }

  /** Deletes one entry, and its row when that was the last one. */
  function Without<D(!new), K(!new), V>(b: Nested<D, K, V>, d: D, k: K): Nested<D, K, V> {
    if d !in b then b else SetRow(b, d, b[d] - {k})
  }

  lemma FlattenWithout<D(!new), K(!new), V>(b: Nested<D, K, V>, d: D, k: K)
    ensures Flatten(Without(b, d, k)) == Flatten(b) - {(d, k)}
    ensures NoEmpty(b) ==> NoEmpty(Without(b, d, k))
  {
    if d in b {
      FlattenSetRow(b, d, b[d] - {k});
    } else {
      assert Flatten(b) - {(d, k)} == Flatten(b);
    }
  }

  /** Makes sure there is a row for `d`. */
  function Touch<D(!new), K(!new), V>(b: Nested<D, K, V>, d: D): Nested<D, K, V> {
    if d in b then b else b[d := map[]]
  }

  function Write<D(!new), K(!new), V>(b: Nested<D, K, V>, d: D, k: K, v: V): Nested<D, K, V>
    requires d in b
  {
    b[d := b[d][k := v]]
  }

  lemma FlattenTouch<D(!new), K(!new), V>(b: Nested<D, K, V>, d: D)
    ensures Flatten(Touch(b, d)) == Flatten(b)
  {
  }

  lemma FlattenWrite<D(!new), K(!new), V>(b: Nested<D, K, V>, d: D, k: K, v: V)
    requires d in b
    ensures Flatten(Write(b, d, k, v)) == Flatten(b)[(d, k) := v]
    ensures (forall x :: x in b && x != d ==> b[x] != map[]) ==> NoEmpty(Write(b, d, k, v))
  {
    var f, g := Flatten(b), Flatten(Write(b, d, k, v));
    forall s: (D, K) ensures s in g <==> s in f || s == (d, k) {
    }
  }

  ghost predicate Alone<D(!new), K(!new), V>(f: map<(D, K), V>, s: (D, K)) {
    s in f && forall t :: t in f && t.0 == s.0 ==> t == s
  }

  /** Removing entry `v` takes the row being written with it exactly when `v` is alone in that row. */
  lemma RemovalTakesRow<D(!new), K(!new), V>(b: Nested<D, K, V>, d: D, v: (D, K))
    requires NoEmpty(b) && v in Flatten(b)
    ensures var r := Without(Touch(b, d), v.0, v.1);
            && (d in r <==> !(v.0 == d && Alone(Flatten(b), v)))
            && (forall x :: x in r && x != d ==> r[x] != map[])
            && (d !in r ==> NoEmpty(r))
  {
    if v.0 == d {
      var m := b[d] - {v.1};
      assert forall s :: s in Flatten(b) && s.0 == d && s != v ==> s.1 in m;
      if m != map[] {
        var k :| k in m;
        assert (d, k) in Flatten(b) && (d, k) != v;
      }
    }
  }

  // ----- writing a list of values, each into its own slot -----

  ghost function InsertAll<K, V>(m: map<K, V>, slot: V -> K, keep: V -> bool, vs: seq<V>): map<K, V>
    decreases |vs|
  {
    if vs == [] then m
    else
      var last := vs[|vs| - 1];
      var before := InsertAll(m, slot, keep, vs[..|vs| - 1]);
      if keep(last) then before[slot(last) := last] else before
  }

  // v is the value written under k.
  ghost predicate WrittenFrom<K(!new), V>(slot: V -> K, keep: V -> bool, vs: seq<V>, k: K, v: V) {
    exists i :: 0 <= i < |vs| && vs[i] == v && slot(v) == k && keep(v)
  }

  // Whatever is written comes from the list.
  lemma {:induction false} InsertAllFrom<K(!new), V>(slot: V -> K, keep: V -> bool, vs: seq<V>)
    ensures forall k :: k in InsertAll(map[], slot, keep, vs) ==> WrittenFrom(slot, keep, vs, k, InsertAll(map[], slot, keep, vs)[k])
    decreases |vs|
  {
    if vs != [] {
      var init := vs[..|vs| - 1];
      InsertAllFrom(slot, keep, init);
      var before, g := InsertAll(map[], slot, keep, init), InsertAll(map[], slot, keep, vs);
      forall k | k in g ensures WrittenFrom(slot, keep, vs, k, g[k]) {
        if k in before && g[k] == before[k] {
          assert WrittenFrom(slot, keep, init, k, before[k]);
          var i :| 0 <= i < |init| && init[i] == before[k];
          assert vs[i] == g[k];
        } else {
          assert vs[|vs| - 1] == g[k];
        }
      }
    }
  }

  // And everything to be kept is written, when all values have different slots.
  lemma {:induction false} InsertAllKeeps<K(!new), V>(slot: V -> K, keep: V -> bool, vs: seq<V>)
    requires forall i, j :: 0 <= i < j < |vs| ==> slot(vs[i]) != slot(vs[j])
    ensures forall i :: 0 <= i < |vs| && keep(vs[i]) ==>
        slot(vs[i]) in InsertAll(map[], slot, keep, vs) && InsertAll(map[], slot, keep, vs)[slot(vs[i])] == vs[i]
    decreases |vs|
  {
    if vs != [] {
      var init := vs[..|vs| - 1];
      assert forall i :: 0 <= i < |init| ==> init[i] == vs[i];
      InsertAllKeeps(slot, keep, init);
    }
  }

  // ----- selecting values -----

  ghost function Where<K(!new), V(!new)>(f: map<K, V>, p: (K, V) -> bool): set<V> {
    set k | k in f && p(k, f[k]) :: f[k]
  }

  // Adding a value not selected so far.
  lemma WhereStep<K(!new), V(!new)>(f: map<K, V>, p: (K, V) -> bool, k: K, v: V)
    requires k !in f
    ensures Where(f[k := v], p) == Where(f, p) + if p(k, v) then {v} else {}
  {
    var g := f[k := v];
    forall x | x in Where(f, p) ensures x in Where(g, p) {
      var t :| t in f && p(t, f[t]) && f[t] == x;
      assert t in g && g[t] == x;
    }
    assert g[k] == v;
  }

  // Two maps that agree on every pair satisfying `p` select the same values.
  lemma WhereSame<K(!new), V(!new)>(f: map<K, V>, g: map<K, V>, p: (K, V) -> bool)
    requires forall k :: k in f && p(k, f[k]) ==> k in g && g[k] == f[k]
    requires forall k :: k in g && p(k, g[k]) ==> k in f && f[k] == g[k]
    ensures Where(f, p) == Where(g, p)
  {
    forall x | x in Where(f, p) ensures x in Where(g, p) {
      var t :| t in f && p(t, f[t]) && f[t] == x;
      assert g[t] == x;
    }
    forall x | x in Where(g, p) ensures x in Where(f, p) {
      var t :| t in g && p(t, g[t]) && g[t] == x;
      assert f[t] == x;
    }
  }

  lemma EnumerateStep<T>(q: seq<T>, s: set<T>, x: T)
    requires multiset(q) == multiset(s) && x !in s
    ensures multiset(q + [x]) == multiset(s + {x})
  {
    assert multiset(s + {x}) == multiset(s) + multiset{x};
  }

  lemma RepeatCountsTwice<T>(q: seq<T>, i: nat, j: nat)
    requires i < j < |q|
    ensures q[i] == q[j] ==> multiset(q)[q[i]] >= 2
  {
    assert q == q[..j] + [q[j]] + q[j + 1..];
    assert q[..j][i] == q[i];
  }

  lemma EnumerationOnce<T>(q: seq<T>, s: set<T>)
    requires multiset(q) == multiset(s)
    ensures forall i, j :: 0 <= i < j < |q| ==> q[i] != q[j]
    ensures forall x :: x in q <==> x in s
  {
    assert forall x :: x in q <==> x in multiset(q);
    forall i, j | 0 <= i < j < |q| ensures q[i] != q[j] {
      RepeatCountsTwice(q, i, j);
    }
  }

  /** Writing back, in any order, the values selected from a map, as far as they are to be kept. */
  lemma InsertEnumerated<K(!new), V(!new)>(f: map<K, V>, slot: V -> K, p: (K, V) -> bool, keep: V -> bool, vs: seq<V>)
    requires forall k :: k in f ==> slot(f[k]) == k
    requires multiset(vs) == multiset(Where(f, p))
    ensures InsertAll(map[], slot, keep, vs) == map k | k in f && p(k, f[k]) && keep(f[k]) :: f[k]
  {
    EnumerationOnce(vs, Where(f, p));
    forall i | 0 <= i < |vs| ensures slot(vs[i]) in f && f[slot(vs[i])] == vs[i] && p(slot(vs[i]), vs[i]) {
      assert vs[i] in Where(f, p);
      var k :| k in f && p(k, f[k]) && f[k] == vs[i];
    }
    InsertAllFrom(slot, keep, vs);
    InsertAllKeeps(slot, keep, vs);
    var g := InsertAll(map[], slot, keep, vs);
    forall k | k in f && p(k, f[k]) && keep(f[k]) ensures k in g && g[k] == f[k] {
      assert f[k] in Where(f, p);
      var i :| 0 <= i < |vs| && vs[i] == f[k];
    }
    forall k | k in g ensures k in f && f[k] == g[k] && p(k, f[k]) && keep(f[k]) {
      assert WrittenFrom(slot, keep, vs, k, g[k]);
      var i :| 0 <= i < |vs| && vs[i] == g[k];
    }
  }

  // ----- walking a two-level map row by row -----

  // The pairs already visited: finished rows, and the visited part of row `d`.
  ghost predicate Visited<D, K>(s: (D, K), todo: set<D>, d: D, todoKeys: set<K>) {
    s.0 !in todo && (s.0 == d ==> s.1 !in todoKeys)
  }

  // The part of the flat map visited so far.
  ghost function Seen<D(!new), K(!new), V>(b: Nested<D, K, V>, todo: set<D>): map<(D, K), V> {
    map s | s in Flatten(b) && s.0 !in todo :: Flatten(b)[s]
  }

  ghost function SeenInRow<D(!new), K(!new), V>(b: Nested<D, K, V>, todo: set<D>, d: D, todoKeys: set<K>): map<(D, K), V> {
    map s | s in Flatten(b) && Visited(s, todo, d, todoKeys) :: Flatten(b)[s]
  }

  lemma SeenSteps<D(!new), K(!new), V>(b: Nested<D, K, V>, todo: set<D>, d: D)
    requires d in todo && d in b
    ensures SeenInRow(b, todo - {d}, d, b[d].Keys) == Seen(b, todo)
    ensures SeenInRow(b, todo - {d}, d, {}) == Seen(b, todo - {d})
  {
  }

  lemma SeenEnds<D(!new), K(!new), V>(b: Nested<D, K, V>)
    ensures Seen(b, b.Keys) == map[] && Seen(b, {}) == Flatten(b)
  {
  }

  lemma SeenInRowStep<D(!new), K(!new), V>(b: Nested<D, K, V>, todo: set<D>, d: D, todoKeys: set<K>, k: K)
    requires d in b && d !in todo && k in todoKeys && k in b[d]
    ensures (d, k) !in SeenInRow(b, todo, d, todoKeys)
    ensures SeenInRow(b, todo, d, todoKeys - {k}) == SeenInRow(b, todo, d, todoKeys)[(d, k) := b[d][k]]
  {
  }

  // ----- removing a key from every row -----

  ghost function DropKey<D(!new), K(!new), V>(f: map<(D, K), V>, k: K, todo: set<D>): map<(D, K), V> {
    map s | s in f && (s.0 in todo || s.1 != k) :: f[s]
  }

  lemma DropKeySteps<D(!new), K(!new), V>(b: Nested<D, K, V>, k: K, todo: set<D>, d: D)
    ensures DropKey(Flatten(b), k, b.Keys) == Flatten(b)
    ensures d in todo ==> DropKey(Flatten(b), k, todo - {d}) == DropKey(Flatten(b), k, todo) - {(d, k)}
  {
  }

  // ----- keeping what satisfies a condition, row by row -----

  ghost function Keep<D(!new), K(!new), V>(f: map<(D, K), V>, p: V -> bool, todo: set<D>): map<(D, K), V> {
    map s | s in f && (s.0 in todo || p(f[s])) :: f[s]
  }

  ghost function KeepRow<K(!new), V>(m: map<K, V>, p: V -> bool, todoKeys: set<K>): map<K, V> {
    map k | k in m && (k in todoKeys || p(m[k])) :: m[k]
  }

  ghost predicate SameRows<D(!new), K(!new), V>(b: Nested<D, K, V>, b0: Nested<D, K, V>, ds: set<D>) {
    forall d :: d in ds ==> d in b && d in b0 && b[d] == b0[d]
  }

  lemma KeepRowStep<K(!new), V>(m: map<K, V>, p: V -> bool, todoKeys: set<K>, k: K)
    requires k in todoKeys && k in m
    ensures KeepRow(m, p, todoKeys - {k}) == if p(m[k]) then KeepRow(m, p, todoKeys) else KeepRow(m, p, todoKeys) - {k}
    ensures KeepRow(m, p, m.Keys) == m
  {
  }

  lemma SetRowSameRows<D(!new), K(!new), V>(b0: Nested<D, K, V>, b: Nested<D, K, V>, m: map<K, V>, todo: set<D>, d: D)
    requires SameRows(b, b0, todo)
    ensures SameRows(SetRow(b, d, m), b0, todo - {d})
  {
  }

  /** Sweeping one more row; `b` is the map as swept so far, `b0` the map before. */
  lemma KeepStep<D(!new), K(!new), V>(b0: Nested<D, K, V>, b: Nested<D, K, V>, p: V -> bool, todo: set<D>, d: D)
    requires d in todo && SameRows(b, b0, todo)
    requires Flatten(b) == Keep(Flatten(b0), p, todo)
    ensures var c := SetRow(b, d, KeepRow(b0[d], p, {}));
            && Flatten(c) == Keep(Flatten(b0), p, todo - {d})
            && SameRows(c, b0, todo - {d})
            && (NoEmpty(b) ==> NoEmpty(c))
  {
    var m := KeepRow(b0[d], p, {});
    SetRowSameRows(b0, b, m, todo, d);
    FlattenSetRow(b, d, m);
    KeepRowIsKeep(b0, b, p, todo, d, Flatten(SetRow(b, d, m)));
  }

  lemma KeepRowIsKeep<D(!new), K(!new), V>(b0: Nested<D, K, V>, b: Nested<D, K, V>, p: V -> bool, todo: set<D>, d: D, g: map<(D, K), V>)
    requires d in todo && d in b0
    requires Flatten(b) == Keep(Flatten(b0), p, todo)
    requires forall s: (D, K) :: s in g <==> if s.0 == d then s.1 in KeepRow(b0[d], p, {}) else s in Flatten(b)
    requires forall s: (D, K) :: s in g ==> g[s] == if s.0 == d then KeepRow(b0[d], p, {})[s.1] else Flatten(b)[s]
    ensures g == Keep(Flatten(b0), p, todo - {d})
  {
    var f := Flatten(b0);
    forall s: (D, K) ensures s in g <==> s in f && (s.0 in todo - {d} || p(f[s])) {
    }
  }

  lemma KeepAll<D(!new), K(!new), V>(b: Nested<D, K, V>, p: V -> bool)
    ensures Keep(Flatten(b), p, b.Keys) == Flatten(b)
  {
  }
}
