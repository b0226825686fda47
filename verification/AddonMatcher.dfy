/**
  Inject matching: the rules of all addons against a URL, sequentially or with one goroutine an
  addon, and the per-tenant cache of rendered resources. Pattern matching, rendering and the
  tenant resolver are functions given from outside.
 */
module AddonMatcher {
  import opened Wrappers

  type Params = map<string, string>

  datatype ActionType = Block | Replace | ReplaceContent | Inject

  /** The fixed part of a rule. `render` is None when the template fails. */
  datatype RuleSpec = RuleSpec(
    action: ActionType, placement: string,
    rawContent: string, resourceContent: string,
    matches: string -> bool, render: Params -> Option<string>)
  {
    // What a rendering without a cache would give.
    function Rendered(params: Params): string {
      if render(params).Some? then render(params).value else resourceContent
    }

    // Whether content depends on the tenant at all.
    predicate Personal(tenantId: string, params: Params) {
      rawContent != "" && params != map[] && tenantId != ""
    }

    function Content(tenantId: string, params: Params): string {
      if Personal(tenantId, params) then Rendered(params) else resourceContent
    }
  }

  type RenderCache = map<string, string>

  /** One request for a rule's content: the answer, and the cache afterwards. */
  function Answer(spec: RuleSpec, cache: RenderCache, tenantId: string, params: Params): (string, RenderCache) {
    if !spec.Personal(tenantId, params) then (spec.resourceContent, cache)
    else if tenantId in cache then (cache[tenantId], cache)
    else (spec.Rendered(params), cache[tenantId := spec.Rendered(params)])
  }

  // ----- the cache over a whole history of requests -----

  datatype Request = Request(tenantId: string, params: Params)

  function CacheAfter(spec: RuleSpec, history: seq<Request>): RenderCache
    decreases |history|
  {
    if history == [] then map[]
    else
      var last := history[|history| - 1];
      Answer(spec, CacheAfter(spec, history[..|history| - 1]), last.tenantId, last.params).1
  }

  // The first request of the history for this tenant that needed rendering.
  ghost predicate IsFirst(spec: RuleSpec, history: seq<Request>, tenantId: string, i: int) {
    && 0 <= i < |history|
    && history[i].tenantId == tenantId && spec.Personal(tenantId, history[i].params)
    && forall j :: 0 <= j < i ==> !(history[j].tenantId == tenantId && spec.Personal(tenantId, history[j].params))
  }

  /** The cache holds, for each tenant, the rendering of the first parameters it was asked for. */
  lemma {:induction false} CacheHoldsFirst(spec: RuleSpec, history: seq<Request>, tenantId: string)
    ensures tenantId in CacheAfter(spec, history) <==> exists i :: IsFirst(spec, history, tenantId, i)
    ensures forall i :: IsFirst(spec, history, tenantId, i) ==>
        tenantId in CacheAfter(spec, history) && CacheAfter(spec, history)[tenantId] == spec.Rendered(history[i].params)
    decreases |history|
  {
    if history != [] {
      var n := |history| - 1;
      var init := history[..n];
      CacheHoldsFirst(spec, init, tenantId);
      assert forall i :: 0 <= i < n ==> history[i] == init[i];
      forall i ensures IsFirst(spec, init, tenantId, i) ==> IsFirst(spec, history, tenantId, i) {
      }
      forall i ensures IsFirst(spec, history, tenantId, i) && i < n ==> IsFirst(spec, init, tenantId, i) {
      }
      if history[n].tenantId == tenantId && spec.Personal(tenantId, history[n].params) && tenantId !in CacheAfter(spec, init) {
        FirstExists(spec, init, tenantId);
        assert IsFirst(spec, history, tenantId, n);
      }
    }
  }

  // If nothing is first, nothing qualifies.
  lemma {:induction false} FirstExists(spec: RuleSpec, history: seq<Request>, tenantId: string)
    ensures (exists i :: IsFirst(spec, history, tenantId, i))
       <==> exists j :: 0 <= j < |history| && history[j].tenantId == tenantId && spec.Personal(tenantId, history[j].params)
    decreases |history|
  {
    if history != [] {
      var n := |history| - 1;
      var init := history[..n];
      FirstExists(spec, init, tenantId);
      assert forall i :: 0 <= i < n ==> history[i] == init[i];
      if i :| IsFirst(spec, init, tenantId, i) {
        assert IsFirst(spec, history, tenantId, i);
      } else if history[n].tenantId == tenantId && spec.Personal(tenantId, history[n].params) {
        assert IsFirst(spec, history, tenantId, n);
      }
    }
  }

  /**
    The cache is transparent for a request exactly when its parameters render like those of the
    tenant's first one; in particular always, when a tenant's parameters never change.
   */
  lemma CacheTransparentIff(spec: RuleSpec, history: seq<Request>, r: Request, first: int)
    requires spec.Personal(r.tenantId, r.params) && IsFirst(spec, history + [r], r.tenantId, first)
    ensures Answer(spec, CacheAfter(spec, history), r.tenantId, r.params).0 == spec.Rendered((history + [r])[first].params)
    ensures Answer(spec, CacheAfter(spec, history), r.tenantId, r.params).0 == spec.Content(r.tenantId, r.params)
       <==> spec.Rendered((history + [r])[first].params) == spec.Rendered(r.params)
  {
    CacheHoldsFirst(spec, history, r.tenantId);
    FirstExists(spec, history, r.tenantId);
    var h := history + [r];
    assert forall i :: 0 <= i < |history| ==> h[i] == history[i];
    if first < |history| {
      assert IsFirst(spec, history, r.tenantId, first);
    }
  }

  // ----- matching -----

  class Rule {
    const spec: RuleSpec
    var tenantItems: RenderCache

    constructor (spec: RuleSpec)
      ensures this.spec == spec && tenantItems == map[]
    {
      this.spec := spec;
      tenantItems := map[];
    }

    method ResourceContentFor(tenantId: string, params: Params) returns (content: string)
      modifies this
      ensures (content, tenantItems) == Answer(spec, old(tenantItems), tenantId, params)
    {
      if spec.rawContent == "" || params == map[] || tenantId == "" {
        return spec.resourceContent;
      }
      if tenantId in tenantItems {
        return tenantItems[tenantId];
      }
      var rendered := spec.resourceContent;
      var out := spec.render(params);
      if out.Some? {
        rendered := out.value;
      }
      tenantItems := tenantItems[tenantId := rendered];
      content := rendered;
    }
  }

  datatype Addon = Addon(id: string, rules: seq<Rule>)

  // What the resolver says of an addon: included or not, the tenant, and its parameters if any.
  datatype Resolution = Resolution(included: bool, tenantId: string, params: Option<Params>)

  type Resolver = Option<string -> Resolution>

  datatype InjectItem = InjectItem(addonId: string, placement: string, content: string)

  function Available(id: string, resolver: Resolver): bool {
    resolver.None? || resolver.value(id).included
  }

  // The caches of some rules at one moment.
  type Caches = map<Rule, RenderCache>

  /** The item of a rule whose cache is `cache`, and that cache afterwards. */
  function ItemFrom(id: string, spec: RuleSpec, cache: RenderCache, resolver: Resolver): (InjectItem, RenderCache) {
    if resolver.None? || resolver.value(id).params.None? then (InjectItem(id, spec.placement, spec.resourceContent), cache)
    else
      var (content, after) := Answer(spec, cache, resolver.value(id).tenantId, resolver.value(id).params.value);
      (InjectItem(id, spec.placement, content), after)
  }

  ghost function RulesOf(addons: seq<Addon>): set<Rule> {
    set i, j | 0 <= i < |addons| && 0 <= j < |addons[i].rules| :: addons[i].rules[j]
  }

  ghost function CachesOf(addons: seq<Addon>): Caches
    reads RulesOf(addons)
  {
    map r | r in RulesOf(addons) :: r.tenantItems
  }

  /** The items of the first rules of an addon, in rule order, each from the cache its rule had. */
  function RuleItems(a: Addon, url: string, resolver: Resolver, caches: Caches, n: nat): seq<InjectItem>
    requires n <= |a.rules| && forall j :: 0 <= j < |a.rules| ==> a.rules[j] in caches
  {
    if n == 0 then []
    else
      var rule := a.rules[n - 1];
      RuleItems(a, url, resolver, caches, n - 1)
        + if rule.spec.action == Inject && rule.spec.matches(url) then [ItemFrom(a.id, rule.spec, caches[rule], resolver).0] else []
  }

  ghost predicate Covers(caches: Caches, addons: seq<Addon>) {
    forall i, j :: 0 <= i < |addons| && 0 <= j < |addons[i].rules| ==> addons[i].rules[j] in caches
  }

  function AddonItems(a: Addon, url: string, resolver: Resolver, caches: Caches): seq<InjectItem>
    requires forall j :: 0 <= j < |a.rules| ==> a.rules[j] in caches
  {
    if Available(a.id, resolver) then RuleItems(a, url, resolver, caches, |a.rules|) else []
  }

  /** The items of all addons, in addon order. */
  ghost function AllItems(addons: seq<Addon>, url: string, resolver: Resolver, caches: Caches): seq<InjectItem>
    requires Covers(caches, addons)
    decreases |addons|
  {
    if addons == [] then []
    else AllItems(addons[..|addons| - 1], url, resolver, caches) + AddonItems(addons[|addons| - 1], url, resolver, caches)
  }

  lemma AllItemsStep(addons: seq<Addon>, url: string, resolver: Resolver, caches: Caches, i: nat)
    requires Covers(caches, addons) && i < |addons|
    ensures AllItems(addons[..i + 1], url, resolver, caches)
         == AllItems(addons[..i], url, resolver, caches) + AddonItems(addons[i], url, resolver, caches)
    ensures AllItems(addons[..|addons|], url, resolver, caches) == AllItems(addons, url, resolver, caches)
  {
    assert addons[..i + 1][..i] == addons[..i];
    assert addons[..|addons|] == addons;
  }

  // ----- which items there are, and in which order -----

  datatype Place = Place(addon: nat, rule: nat)

  // The rule at this place fires: the tenant has its addon, it injects, and it matches.
  predicate Fires(addons: seq<Addon>, url: string, resolver: Resolver, p: Place) {
    && p.addon < |addons| && p.rule < |addons[p.addon].rules|
    && (resolver.None? || resolver.value(addons[p.addon].id).included)
    && addons[p.addon].rules[p.rule].spec.action == Inject
    && addons[p.addon].rules[p.rule].spec.matches(url)
  }

  // The content a rule gives: its own without a tenant's parameters, else what is cached for the
  // tenant, else the rendering, or its own again when that fails.
  predicate ContentFor(content: string, spec: RuleSpec, cache: RenderCache, resolution: Option<Resolution>) {
    if resolution.None? || resolution.value.params.None? || spec.rawContent == ""
      || resolution.value.params.value == map[] || resolution.value.tenantId == "" then content == spec.resourceContent
    else if resolution.value.tenantId in cache then content == cache[resolution.value.tenantId]
    else
      var rendered := spec.render(resolution.value.params.value);
      content == if rendered.Some? then rendered.value else spec.resourceContent
  }

  predicate IsItemOf(item: InjectItem, id: string, spec: RuleSpec, cache: RenderCache, resolver: Resolver) {
    && item.addonId == id && item.placement == spec.placement
    && ContentFor(item.content, spec, cache, if resolver.None? then None else Some(resolver.value(id)))
  }

  predicate Earlier(p: Place, q: Place) {
    p.addon < q.addon || (p.addon == q.addon && p.rule < q.rule)
  }

  // The items are those of the rules at these places, one each, in order.
  ghost predicate ItemsAt(addons: seq<Addon>, url: string, resolver: Resolver, caches: Caches, items: seq<InjectItem>, at: seq<Place>)
    requires Covers(caches, addons)
  {
    && |at| == |items|
    && (forall n :: 0 <= n < |at| ==>
          && Fires(addons, url, resolver, at[n])
          && var rule := addons[at[n].addon].rules[at[n].rule];
             IsItemOf(items[n], addons[at[n].addon].id, rule.spec, caches[rule], resolver))
    && (forall m, n :: 0 <= m < n < |at| ==> Earlier(at[m], at[n]))
  }

  /**
    The items are exactly those of the rules that fire: for each of them one, ordered by addon and
    then by rule, with the addon's id, the rule's placement and its content.
   */
  ghost predicate ListsFiring(addons: seq<Addon>, url: string, resolver: Resolver, caches: Caches, items: seq<InjectItem>)
    requires Covers(caches, addons)
  {
    exists at :: ItemsAt(addons, url, resolver, caches, items, at) && forall p :: Fires(addons, url, resolver, p) ==> p in at
  }

  lemma ItemIsPlain(id: string, spec: RuleSpec, cache: RenderCache, resolver: Resolver)
    ensures IsItemOf(ItemFrom(id, spec, cache, resolver).0, id, spec, cache, resolver)
  {
  }

  lemma OnePlace(addons: seq<Addon>, url: string, resolver: Resolver, caches: Caches, p: Place)
    requires Covers(caches, addons) && Fires(addons, url, resolver, p)
    ensures var id, rule := addons[p.addon].id, addons[p.addon].rules[p.rule];
            ItemsAt(addons, url, resolver, caches, [ItemFrom(id, rule.spec, caches[rule], resolver).0], [p])
  {
    hide IsItemOf, ItemFrom;
    ItemIsPlain(addons[p.addon].id, addons[p.addon].rules[p.rule].spec, caches[addons[p.addon].rules[p.rule]], resolver);
  }

  lemma ItemsJoin(addons: seq<Addon>, url: string, resolver: Resolver, caches: Caches, items: seq<InjectItem>, at: seq<Place>,
      more: seq<InjectItem>, next: seq<Place>)
    requires Covers(caches, addons)
    requires ItemsAt(addons, url, resolver, caches, items, at) && ItemsAt(addons, url, resolver, caches, more, next)
    requires forall m, n :: 0 <= m < |at| && 0 <= n < |next| ==> Earlier(at[m], next[n])
    ensures ItemsAt(addons, url, resolver, caches, items + more, at + next)
  {
    hide IsItemOf, Fires;
    var all := at + next;
    forall m, n | 0 <= m < n < |all| ensures Earlier(all[m], all[n]) {
      if m < |at| && n >= |at| { assert all[m] == at[m] && all[n] == next[n - |at|]; }
    }
  }

  // The places of the first n rules of an addon that fire.
  lemma {:induction false} RulePlaces(addons: seq<Addon>, i: nat, url: string, resolver: Resolver, caches: Caches, n: nat) returns (at: seq<Place>)
    requires Covers(caches, addons) && i < |addons| && n <= |addons[i].rules|
    requires resolver.None? || resolver.value(addons[i].id).included
    ensures ItemsAt(addons, url, resolver, caches, RuleItems(addons[i], url, resolver, caches, n), at)
    ensures forall k :: 0 <= k < |at| ==> at[k].addon == i && at[k].rule < n
    ensures forall p :: Fires(addons, url, resolver, p) && p.addon == i && p.rule < n ==> p in at
  {
    at := [];
    if n > 0 {
      hide ItemsAt, ItemFrom;
      var rule, last := addons[i].rules[n - 1], Place(i, n - 1);
      at := RulePlaces(addons, i, url, resolver, caches, n - 1);
      assert forall p :: p in at ==> p in at + [last];
      if rule.spec.action == Inject && rule.spec.matches(url) {
        OnePlace(addons, url, resolver, caches, last);
        ItemsJoin(addons, url, resolver, caches, RuleItems(addons[i], url, resolver, caches, n - 1), at,
          [ItemFrom(addons[i].id, rule.spec, caches[rule], resolver).0], [last]);
        assert (at + [last])[|at|] == last;
        at := at + [last];
      }
    }
  }

  // Places of a prefix of the addons are places of all of them.
  lemma FiresInPrefix(addons: seq<Addon>, url: string, resolver: Resolver, n: nat)
    requires n <= |addons|
    ensures forall p: Place :: p.addon < n ==> (Fires(addons[..n], url, resolver, p) <==> Fires(addons, url, resolver, p))
  {
  }

  lemma ItemsInPrefix(addons: seq<Addon>, url: string, resolver: Resolver, caches: Caches, items: seq<InjectItem>, at: seq<Place>, n: nat)
    requires Covers(caches, addons) && n <= |addons| && Covers(caches, addons[..n])
    requires ItemsAt(addons[..n], url, resolver, caches, items, at)
    ensures ItemsAt(addons, url, resolver, caches, items, at) && forall k :: 0 <= k < |at| ==> at[k].addon < n
  {
    hide IsItemOf;
    FiresInPrefix(addons, url, resolver, n);
  }

  lemma {:induction false} AllPlaces(addons: seq<Addon>, url: string, resolver: Resolver, caches: Caches) returns (at: seq<Place>)
    requires Covers(caches, addons)
    ensures ItemsAt(addons, url, resolver, caches, AllItems(addons, url, resolver, caches), at)
    ensures forall p :: Fires(addons, url, resolver, p) ==> p in at
    decreases |addons|
  {
    at := [];
    if addons != [] {
      hide IsItemOf, RuleItems;
      var n := |addons| - 1;
      var init := AllPlaces(addons[..n], url, resolver, caches);
      ItemsInPrefix(addons, url, resolver, caches, AllItems(addons[..n], url, resolver, caches), init, n);
      FiresInPrefix(addons, url, resolver, n);
      var last: seq<Place> := [];
      if Available(addons[n].id, resolver) {
        last := RulePlaces(addons, n, url, resolver, caches, |addons[n].rules|);
      }
      ItemsJoin(addons, url, resolver, caches, AllItems(addons[..n], url, resolver, caches), init,
        AddonItems(addons[n], url, resolver, caches), last);
      at := init + last;
      forall p | Fires(addons, url, resolver, p) ensures p in at {
        if p.addon < n {
          assert p in init;
        } else {
          assert p in last;
        }
      }
    }
  }

  lemma AllItemsList(addons: seq<Addon>, url: string, resolver: Resolver, caches: Caches)
    requires Covers(caches, addons)
    ensures ListsFiring(addons, url, resolver, caches, AllItems(addons, url, resolver, caches))
  {
    hide ItemsAt, Fires, AllItems;
    var at := AllPlaces(addons, url, resolver, caches);
  }

  // No rule belongs to two addons with different ids.
  ghost predicate Owned(addons: seq<Addon>) {
    forall i, j, k, l :: 0 <= i < |addons| && 0 <= j < |addons[i].rules| && 0 <= k < |addons| && 0 <= l < |addons[k].rules| ==>
      addons[i].rules[j] == addons[k].rules[l] ==> addons[i].id == addons[k].id
  }

  // A rule's cache is as it was, or as one request of this tenant leaves it.
  ghost predicate Evolved(a: Addon, r: Rule, resolver: Resolver, cache: RenderCache)
    reads r
  {
    r.tenantItems == cache || r.tenantItems == ItemFrom(a.id, r.spec, cache, resolver).1
  }

  ghost predicate AllEvolved(addons: seq<Addon>, resolver: Resolver, caches: Caches)
    requires Covers(caches, addons)
    reads RulesOf(addons)
  {
    forall i, j :: 0 <= i < |addons| && 0 <= j < |addons[i].rules| ==>
      Evolved(addons[i], addons[i].rules[j], resolver, caches[addons[i].rules[j]])
  }

  // A second request finds what the first left.
  lemma AskedTwice(id: string, spec: RuleSpec, cache: RenderCache, resolver: Resolver)
    ensures ItemFrom(id, spec, ItemFrom(id, spec, cache, resolver).1, resolver) == ItemFrom(id, spec, cache, resolver)
  {
  }

  lemma NothingAskedYet(addons: seq<Addon>, resolver: Resolver)
    ensures Covers(CachesOf(addons), addons) && AllEvolved(addons, resolver, CachesOf(addons))
  {
  }

  /** The item of one rule is that of the cache it had; no other rule's cache changes. */
  method BuildInjectItem(addons: seq<Addon>, i: nat, j: nat, resolver: Resolver, ghost caches: Caches) returns (item: InjectItem)
    requires i < |addons| && j < |addons[i].rules|
    requires Owned(addons) && Covers(caches, addons) && AllEvolved(addons, resolver, caches)
    modifies addons[i].rules[j]
    ensures AllEvolved(addons, resolver, caches)
    ensures (item, addons[i].rules[j].tenantItems)
         == ItemFrom(addons[i].id, addons[i].rules[j].spec, caches[addons[i].rules[j]], resolver)
  {
    var id, rule := addons[i].id, addons[i].rules[j];
    var content := rule.spec.resourceContent;
    assert Evolved(addons[i], rule, resolver, caches[rule]);
    AskedTwice(id, rule.spec, caches[rule], resolver);
    if resolver.Some? {
      var resolution := resolver.value(id);
      if resolution.params.Some? {
        content := rule.ResourceContentFor(resolution.tenantId, resolution.params.value);
      }
    }
    item := InjectItem(id, rule.spec.placement, content);
    assert (item, rule.tenantItems) == ItemFrom(id, rule.spec, caches[rule], resolver);
    forall k, l | 0 <= k < |addons| && 0 <= l < |addons[k].rules|
      ensures Evolved(addons[k], addons[k].rules[l], resolver, caches[addons[k].rules[l]])
    {
      assert addons[k].rules[l] == rule ==> addons[k].id == id;
    }
  }

  // One rule of one addon: its item is appended when it injects and matches.
  method StepRule(addons: seq<Addon>, i: nat, j: nat, url: string, resolver: Resolver, ghost caches: Caches, items: seq<InjectItem>)
      returns (more: seq<InjectItem>)
    requires i < |addons| && j < |addons[i].rules|
    requires Owned(addons) && Covers(caches, addons) && AllEvolved(addons, resolver, caches)
    modifies RulesOf(addons)
    ensures AllEvolved(addons, resolver, caches)
    ensures items <= more
    ensures RuleItems(addons[i], url, resolver, caches, j + 1) == RuleItems(addons[i], url, resolver, caches, j) + more[|items|..]
  {
    hide Owned, AllEvolved, ItemFrom;
    var rule := addons[i].rules[j];
    more := items;
    if rule.spec.action == Inject && rule.spec.matches(url) {
      assert rule in RulesOf(addons);
      var item := BuildInjectItem(addons, i, j, resolver, caches);
      more := items + [item];
    }
  }

  // All rules of one addon, in order.
  method MatchAddon(addons: seq<Addon>, i: nat, url: string, resolver: Resolver, ghost caches: Caches, items: seq<InjectItem>)
      returns (more: seq<InjectItem>)
    requires i < |addons|
    requires Owned(addons) && Covers(caches, addons) && AllEvolved(addons, resolver, caches)
    modifies RulesOf(addons)
    ensures AllEvolved(addons, resolver, caches)
    ensures more == items + RuleItems(addons[i], url, resolver, caches, |addons[i].rules|)
  {
    hide Owned, AllEvolved, ItemFrom, RulesOf;
    more := items;
    for j := 0 to |addons[i].rules|
      invariant AllEvolved(addons, resolver, caches)
      invariant more == items + RuleItems(addons[i], url, resolver, caches, j)
    {
      var next := StepRule(addons, i, j, url, resolver, caches, more);
      assert next == more + next[|more|..];
      more := next;
    }
  }

  /** The items of all matching inject rules of available addons, in order, each from the cache its rule had at the start. */
  method MatchInjectSequential(addons: seq<Addon>, url: string, resolver: Resolver) returns (items: seq<InjectItem>)
    requires Owned(addons)
    modifies RulesOf(addons)
    ensures Covers(old(CachesOf(addons)), addons) && AllEvolved(addons, resolver, old(CachesOf(addons)))
    ensures items == AllItems(addons, url, resolver, old(CachesOf(addons)))
    ensures ListsFiring(addons, url, resolver, old(CachesOf(addons)), items)
  {
    hide Owned, AllEvolved, RulesOf, RuleItems, CachesOf, AddonItems, AllItems;
    ghost var caches := CachesOf(addons);
    NothingAskedYet(addons, resolver);
    items := [];
    assert items == AllItems(addons[..0], url, resolver, caches) by { NoAddonsNoItems(url, resolver, caches); }
    for i := 0 to |addons|
      invariant AllEvolved(addons, resolver, caches)
      invariant items == AllItems(addons[..i], url, resolver, caches)
    {
      AllItemsStep(addons, url, resolver, caches, i);
      AddonItemsAre(addons[i], url, resolver, caches);
      if !Available(addons[i].id, resolver) {
        continue;
      }
      items := MatchAddon(addons, i, url, resolver, caches, items);
    }
    assert addons[..|addons|] == addons;
    AllItemsList(addons, url, resolver, caches);
  }

  lemma NoAddonsNoItems(url: string, resolver: Resolver, caches: Caches)
    ensures AllItems([], url, resolver, caches) == []
  {
  }

  lemma AddonItemsAre(a: Addon, url: string, resolver: Resolver, caches: Caches)
    requires forall j :: 0 <= j < |a.rules| ==> a.rules[j] in caches
    ensures AddonItems(a, url, resolver, caches)
         == if Available(a.id, resolver) then RuleItems(a, url, resolver, caches, |a.rules|) else []
  {
  }

  // ----- one goroutine an addon -----

  // The rules the unfinished goroutines still have before them, and the goroutines themselves.
  ghost function WorkLeft(addons: seq<Addon>, at: seq<nat>, running: set<nat>, n: nat): int
    requires n <= |addons| == |at|
  {
    if n == 0 then 0
    else WorkLeft(addons, at, running, n - 1) + |addons[n - 1].rules| - at[n - 1] + if n - 1 in running then 1 else 0
  }

  lemma {:induction false} WorkLeftStep(addons: seq<Addon>, at: seq<nat>, running: set<nat>, i: nat, n: nat)
    requires i < n <= |addons| == |at|
    ensures WorkLeft(addons, at[i := at[i] + 1], running, n) == WorkLeft(addons, at, running, n) - 1
    ensures i in running ==> WorkLeft(addons, at, running - {i}, n) == WorkLeft(addons, at, running, n) - 1
  {
    if n - 1 != i {
      WorkLeftStep(addons, at, running, i, n - 1);
    } else {
      WorkLeftSame(addons, at, running, i, n - 1);
    }
  }

  lemma {:induction false} WorkLeftSame(addons: seq<Addon>, at: seq<nat>, running: set<nat>, i: nat, n: nat)
    requires n <= i < |addons| == |at|
    ensures WorkLeft(addons, at[i := at[i] + 1], running, n) == WorkLeft(addons, at, running, n)
    ensures WorkLeft(addons, at, running - {i}, n) == WorkLeft(addons, at, running, n)
  {
    if n > 0 { WorkLeftSame(addons, at, running, i, n - 1); }
  }

  // Every goroutine has the items of the rules it has passed; a finished one has all of its addon's.
  ghost predicate Progress(addons: seq<Addon>, url: string, resolver: Resolver, caches: Caches, at: seq<nat>, results: seq<seq<InjectItem>>, running: set<nat>)
    requires Covers(caches, addons)
  {
    && |at| == |results| == |addons|
    && (forall i :: i in running ==> i < |addons|)
    && (forall i :: 0 <= i < |addons| ==> at[i] <= |addons[i].rules|)
    && (forall i :: 0 <= i < |addons| && i in running ==> results[i] == RuleItems(addons[i], url, resolver, caches, at[i]))
    && (forall i :: 0 <= i < |addons| && i !in running ==> results[i] == AddonItems(addons[i], url, resolver, caches))
  }

  lemma {:induction false} WorkLeftNonNegative(addons: seq<Addon>, at: seq<nat>, running: set<nat>, n: nat)
    requires n <= |addons| == |at| && forall i :: 0 <= i < |addons| ==> at[i] <= |addons[i].rules|
    ensures WorkLeft(addons, at, running, n) >= 0
  {
    if n > 0 { WorkLeftNonNegative(addons, at, running, n - 1); }
  }

  function Indices(n: nat): (s: set<nat>)
    ensures forall i: nat :: i in s <==> i < n
  {
    if n == 0 then {}
    else
      var last: nat := n - 1;
      Indices(last) + {last}
  }

  lemma ProgressFinish(addons: seq<Addon>, url: string, resolver: Resolver, caches: Caches, at: seq<nat>, results: seq<seq<InjectItem>>, running: set<nat>, i: nat)
    requires Covers(caches, addons) && Progress(addons, url, resolver, caches, at, results, running) && i in running
    ensures !Available(addons[i].id, resolver) ==> Progress(addons, url, resolver, caches, at, results[i := []], running - {i})
    ensures Available(addons[i].id, resolver) && at[i] == |addons[i].rules| ==>
        Progress(addons, url, resolver, caches, at, results, running - {i})
  {
  }

  lemma ProgressAdvance(addons: seq<Addon>, url: string, resolver: Resolver, caches: Caches, at: seq<nat>, results: seq<seq<InjectItem>>, running: set<nat>,
      i: nat, items: seq<InjectItem>)
    requires Covers(caches, addons) && Progress(addons, url, resolver, caches, at, results, running) && i in running && at[i] < |addons[i].rules|
    requires items == RuleItems(addons[i], url, resolver, caches, at[i] + 1)
    ensures Progress(addons, url, resolver, caches, at[i := at[i] + 1], results[i := items], running)
  {
  }

  /** The goroutines advance rule by rule in any interleaving and finish in any order. */
  method RunGoroutines(addons: seq<Addon>, url: string, resolver: Resolver, ghost caches: Caches) returns (results: seq<seq<InjectItem>>)
    requires Owned(addons) && Covers(caches, addons) && AllEvolved(addons, resolver, caches)
    modifies RulesOf(addons)
    ensures AllEvolved(addons, resolver, caches)
    ensures |results| == |addons| && forall i :: 0 <= i < |addons| ==> results[i] == AddonItems(addons[i], url, resolver, caches)
  {
    hide Owned, AllEvolved, ItemFrom, RulesOf, RuleItems, AddonItems;
    var at: seq<nat> := seq(|addons|, i => 0);
    results := seq(|addons|, i => []);
    var running := Indices(|addons|);
    ProgressStart(addons, url, resolver, caches, at, results, running);
    while running != {}
      invariant AllEvolved(addons, resolver, caches)
      invariant Progress(addons, url, resolver, caches, at, results, running)
      decreases WorkLeft(addons, at, running, |addons|)
    {
      var i :| i in running;
      WorkLeftStep(addons, at, running, i, |addons|);
      WorkLeftNonNegative(addons, at, running, |addons|);
      ProgressFinish(addons, url, resolver, caches, at, results, running, i);
      if !Available(addons[i].id, resolver) {
        results := results[i := []];
        running := running - {i};
      } else if at[i] == |addons[i].rules| {
        running := running - {i};
      } else {
        var items := StepRule(addons, i, at[i], url, resolver, caches, results[i]);
        assert items == results[i] + items[|results[i]|..];
        ProgressAdvance(addons, url, resolver, caches, at, results, running, i, items);
        results := results[i := items];
        at := at[i := at[i] + 1];
      }
    }
  }

  lemma ProgressStart(addons: seq<Addon>, url: string, resolver: Resolver, caches: Caches, at: seq<nat>, results: seq<seq<InjectItem>>, running: set<nat>)
    requires Covers(caches, addons)
    requires |at| == |results| == |addons| && forall i :: 0 <= i < |addons| ==> at[i] == 0 && results[i] == []
    requires forall i: nat :: i in running <==> i < |addons|
    ensures Progress(addons, url, resolver, caches, at, results, running)
  {
  }

  /** Whatever the schedule and whatever the caches hold, the merged result is the sequential one. */
  method MatchInjectConcurrent(addons: seq<Addon>, url: string, resolver: Resolver) returns (all: seq<InjectItem>)
    requires Owned(addons)
    modifies RulesOf(addons)
    ensures Covers(old(CachesOf(addons)), addons) && AllEvolved(addons, resolver, old(CachesOf(addons)))
    ensures all == AllItems(addons, url, resolver, old(CachesOf(addons)))
    ensures ListsFiring(addons, url, resolver, old(CachesOf(addons)), all)
  {
    hide Owned, AllEvolved, RulesOf, AddonItems, CachesOf, AllItems;
    ghost var caches := CachesOf(addons);
    NothingAskedYet(addons, resolver);
    var results := RunGoroutines(addons, url, resolver, caches);
    all := [];
    assert all == AllItems(addons[..0], url, resolver, caches) by { NoAddonsNoItems(url, resolver, caches); }
    for i := 0 to |addons|
      invariant AllEvolved(addons, resolver, caches)
      invariant all == AllItems(addons[..i], url, resolver, caches)
    {
      AllItemsStep(addons, url, resolver, caches, i);
      all := all + results[i];
    }
    assert addons[..|addons|] == addons;
    AllItemsList(addons, url, resolver, caches);
  }

  method MatchInjectFor(addons: seq<Addon>, url: string, resolver: Resolver) returns (items: seq<InjectItem>)
    requires Owned(addons)
    modifies RulesOf(addons)
    ensures Covers(old(CachesOf(addons)), addons) && AllEvolved(addons, resolver, old(CachesOf(addons)))
    ensures items == AllItems(addons, url, resolver, old(CachesOf(addons)))
    ensures ListsFiring(addons, url, resolver, old(CachesOf(addons)), items)
  {
    if |addons| < 3 {
      items := MatchInjectSequential(addons, url, resolver);
    } else {
      items := MatchInjectConcurrent(addons, url, resolver);
    }
  }

  // ----- tenants whose parameters do not change -----

  // Parameters fixed for each tenant and addon, as the resolver hands them out.
  type Plan = (string, string) -> Params

  ghost predicate Follows(resolver: Resolver, plan: Plan) {
    resolver.Some? ==> forall id :: resolver.value(id).params.Some? ==>
      resolver.value(id).params.value == plan(resolver.value(id).tenantId, id)
  }

  // Whatever a rule has cached is the rendering of the tenant's parameters for its addon.
  ghost predicate Coherent(id: string, spec: RuleSpec, cache: RenderCache, plan: Plan) {
    forall t :: t in cache ==> cache[t] == spec.Rendered(plan(t, id))
  }

  ghost predicate AllCoherent(addons: seq<Addon>, caches: Caches, plan: Plan)
    requires Covers(caches, addons)
  {
    forall i, j :: 0 <= i < |addons| && 0 <= j < |addons[i].rules| ==>
      Coherent(addons[i].id, addons[i].rules[j].spec, caches[addons[i].rules[j]], plan)
  }

  // The same rules with nothing cached.
  ghost function Uncached(caches: Caches): Caches {
    map r | r in caches :: map[]
  }

  lemma CoherentItem(id: string, spec: RuleSpec, cache: RenderCache, resolver: Resolver, plan: Plan)
    requires Follows(resolver, plan) && Coherent(id, spec, cache, plan)
    ensures ItemFrom(id, spec, cache, resolver).0 == ItemFrom(id, spec, map[], resolver).0
    ensures Coherent(id, spec, ItemFrom(id, spec, cache, resolver).1, plan)
  {
  }

  lemma {:induction false} CoherentRuleItems(a: Addon, url: string, resolver: Resolver, caches: Caches, plan: Plan, n: nat)
    requires n <= |a.rules| && Follows(resolver, plan)
    requires forall j :: 0 <= j < |a.rules| ==> a.rules[j] in caches && Coherent(a.id, a.rules[j].spec, caches[a.rules[j]], plan)
    ensures RuleItems(a, url, resolver, caches, n) == RuleItems(a, url, resolver, Uncached(caches), n)
  {
    if n > 0 {
      hide ItemFrom, Coherent, Follows;
      CoherentRuleItems(a, url, resolver, caches, plan, n - 1);
      CoherentItem(a.id, a.rules[n - 1].spec, caches[a.rules[n - 1]], resolver, plan);
    }
  }

  /**
    When each tenant's parameters for an addon never change, no request can tell that there is a
    cache: the items are those of rules with nothing cached.
   */
  lemma {:induction false} FixedParamsAreTransparent(addons: seq<Addon>, url: string, resolver: Resolver, caches: Caches, plan: Plan)
    requires Follows(resolver, plan) && Covers(caches, addons) && AllCoherent(addons, caches, plan)
    ensures Covers(Uncached(caches), addons)
    ensures AllItems(addons, url, resolver, caches) == AllItems(addons, url, resolver, Uncached(caches))
    decreases |addons|
  {
    if addons != [] {
      hide Follows, Coherent, RuleItems;
      var n := |addons| - 1;
      assert AllCoherent(addons[..n], caches, plan);
      FixedParamsAreTransparent(addons[..n], url, resolver, caches, plan);
      CoherentRuleItems(addons[n], url, resolver, caches, plan, |addons[n].rules|);
    }
  }

  // The same over two moments: every cache is as it was, or as one request of this tenant leaves it.
  ghost predicate EvolvedTo(addons: seq<Addon>, resolver: Resolver, before: Caches, after: Caches)
    requires Covers(before, addons) && Covers(after, addons)
  {
    forall i, j :: 0 <= i < |addons| && 0 <= j < |addons[i].rules| ==>
      var r := addons[i].rules[j];
      after[r] == before[r] || after[r] == ItemFrom(addons[i].id, r.spec, before[r], resolver).1
  }

  // What the matching methods say of the caches is that.
  lemma EvolvedIsEvolvedTo(addons: seq<Addon>, resolver: Resolver, caches: Caches)
    requires Covers(caches, addons) && AllEvolved(addons, resolver, caches)
    ensures Covers(CachesOf(addons), addons) && EvolvedTo(addons, resolver, caches, CachesOf(addons))
  {
    hide ItemFrom;
    forall i, j | 0 <= i < |addons| && 0 <= j < |addons[i].rules|
      ensures addons[i].rules[j] in CachesOf(addons)
      ensures CachesOf(addons)[addons[i].rules[j]] == addons[i].rules[j].tenantItems
      ensures Evolved(addons[i], addons[i].rules[j], resolver, caches[addons[i].rules[j]])
    {
      assert addons[i].rules[j] in RulesOf(addons);
    }
  }

  /** Matching keeps coherent caches coherent: they hold renderings of the same parameters. */
  lemma MatchingKeepsCoherence(addons: seq<Addon>, resolver: Resolver, before: Caches, after: Caches, plan: Plan)
    requires Follows(resolver, plan) && Covers(before, addons) && AllCoherent(addons, before, plan)
    requires Covers(after, addons) && EvolvedTo(addons, resolver, before, after)
    ensures AllCoherent(addons, after, plan)
  {
    hide Follows, Coherent, ItemFrom;
    forall i, j | 0 <= i < |addons| && 0 <= j < |addons[i].rules|
      ensures Coherent(addons[i].id, addons[i].rules[j].spec, after[addons[i].rules[j]], plan)
    {
      CoherentItem(addons[i].id, addons[i].rules[j].spec, before[addons[i].rules[j]], resolver, plan);
    }
  }

  // The caches at every moment of a run of match calls by any tenants, from rules with nothing cached.
  ghost predicate CallRun(addons: seq<Addon>, calls: seq<Resolver>, moments: seq<Caches>) {
    && |moments| == |calls| + 1
    && (forall k :: 0 <= k < |moments| ==> Covers(moments[k], addons))
    && (forall i, j :: 0 <= i < |addons| && 0 <= j < |addons[i].rules| ==> moments[0][addons[i].rules[j]] == map[])
    && (forall k :: 0 <= k < |calls| ==> EvolvedTo(addons, calls[k], moments[k], moments[k + 1]))
  }

  lemma {:induction false} CallsKeepCoherence(addons: seq<Addon>, calls: seq<Resolver>, moments: seq<Caches>, plan: Plan, k: nat)
    requires CallRun(addons, calls, moments) && k < |moments|
    requires forall i :: 0 <= i < |calls| ==> Follows(calls[i], plan)
    ensures AllCoherent(addons, moments[k], plan)
  {
    if k > 0 {
      hide Follows, Coherent, EvolvedTo;
      CallsKeepCoherence(addons, calls, moments, plan, k - 1);
      MatchingKeepsCoherence(addons, calls[k - 1], moments[k - 1], moments[k], plan);
    }
  }

  /**
    Over all runs: at every moment of any run of match calls by any tenants, starting with nothing
    cached, a call gets the items it would get with nothing cached, when no tenant's parameters for
    an addon change.
   */
  lemma TransparentOverCalls(addons: seq<Addon>, calls: seq<Resolver>, moments: seq<Caches>, k: nat, url: string, resolver: Resolver, plan: Plan)
    requires CallRun(addons, calls, moments) && k < |moments|
    requires Follows(resolver, plan) && forall i :: 0 <= i < |calls| ==> Follows(calls[i], plan)
    ensures Covers(Uncached(moments[k]), addons)
    ensures AllItems(addons, url, resolver, moments[k]) == AllItems(addons, url, resolver, Uncached(moments[k]))
  {
    hide Follows, AllItems;
    CallsKeepCoherence(addons, calls, moments, plan, k);
    FixedParamsAreTransparent(addons, url, resolver, moments[k], plan);
  }
}
