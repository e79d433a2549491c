/** Grouping and export of the provider model catalogue
    (crates/abigail-hive/src/model_registry.rs). */
module ModelRegistry {
  import opened Wrappers

  datatype Model = Model(id: string, displayName: Option<string>, created: Option<int>)

  /** The cached models of one provider, which is its key in the cache. */
  datatype ProviderCache = ProviderCache(models: seq<Model>, lastFetched: string)

  type Cache = map<string, ProviderCache>

  datatype Entry = Entry(provider: string, modelId: string, displayName: string,
                         lifecycle: Option<string>, lastFetched: Option<string>)

  // ---- Loading ----

  function ModelOf(e: Entry): Model {
    Model(e.modelId, if e.displayName == "" then None else Some(e.displayName), None)
  }

  /** The models listed for `p`, in order. */
  function Listed(catalog: seq<Entry>, p: string): seq<Model> {
    if catalog == [] then []
    else
      var n := |catalog| - 1;
      Listed(catalog[..n], p) + if catalog[n].provider == p then [ModelOf(catalog[n])] else []
  }

  function Providers(catalog: seq<Entry>): set<string> {
    set e | e in catalog :: e.provider
  }

  /** The first timestamp given for `p`. */
  function FirstStamp(catalog: seq<Entry>, p: string): Option<string> {
    if catalog == [] then None
    else
      var n := |catalog| - 1;
      var before := FirstStamp(catalog[..n], p);
      if before.None? && catalog[n].provider == p then catalog[n].lastFetched else before
  }

  /** `now(p)` is what the clock reads when `p` is cached. */
  function CacheOf(catalog: seq<Entry>, p: string, now: string -> string): ProviderCache {
    var stamp := FirstStamp(catalog, p);
    ProviderCache(Listed(catalog, p), if stamp.Some? then stamp.value else now(p))
  }

  /** The cache after loading: listed providers are replaced, the others stay. */
  function Loaded(cache: Cache, catalog: seq<Entry>, now: string -> string): Cache {
    cache + map p | p in Providers(catalog) :: CacheOf(catalog, p, now)
  }

  // ---- Exporting ----

  function NameOf(m: Model): string {
    if m.displayName.Some? then m.displayName.value else m.id
  }

  function EntryOf(p: string, m: Model, lastFetched: string): Entry {
    Entry(p, m.id, NameOf(m), None, Some(lastFetched))
  }

  function EntriesOf(p: string, c: ProviderCache): seq<Entry> {
    seq(|c.models|, i requires 0 <= i < |c.models| => EntryOf(p, c.models[i], c.lastFetched))
  }

  /** The catalogue when the map yields its keys in `order`. */
  function Exported(cache: Cache, order: seq<string>): seq<Entry>
    requires forall p :: p in order ==> p in cache
  {
    if order == [] then []
    else
      var n := |order| - 1;
      assert order[n] in order;
      Exported(cache, order[..n]) + EntriesOf(order[n], cache[order[n]])
  }

  /** A catalogue the map can yield. */
  ghost predicate IsExport(cache: Cache, entries: seq<Entry>) {
    exists order :: Enumerates(order, cache.Keys) && entries == Exported(cache, order)
  }

  /** `has_model`. */
  predicate HasModelIn(cache: Cache, p: string, id: string) {
    p in cache && exists m :: m in cache[p].models && m.id == id
  }

  function TotalIn(cache: Cache, order: seq<string>): nat
    requires forall p :: p in order ==> p in cache
  {
    if order == [] then 0
    else
      var n := |order| - 1;
      assert order[n] in order;
      TotalIn(cache, order[..n]) + |cache[order[n]].models|
  }

  // ---- The registry ----

  function Pushed(grouped: map<string, seq<Model>>, p: string, m: Model): map<string, seq<Model>> {
    grouped[p := (if p in grouped then grouped[p] else []) + [m]]
  }

  ghost predicate Grouped(catalog: seq<Entry>, grouped: map<string, seq<Model>>, stamps: map<string, string>) {
    && grouped.Keys == Providers(catalog)
    && (forall p :: p in grouped ==> grouped[p] == Listed(catalog, p))
    && (forall p :: FirstStamp(catalog, p) == if p in stamps then Some(stamps[p]) else None)
  }

  lemma ListedPush(catalog: seq<Entry>, e: Entry, p: string)
    ensures Listed(catalog + [e], p) == Listed(catalog, p) + if e.provider == p then [ModelOf(e)] else []
    ensures FirstStamp(catalog + [e], p)
         == if FirstStamp(catalog, p).None? && e.provider == p then e.lastFetched else FirstStamp(catalog, p)
  {
    assert (catalog + [e])[..|catalog|] == catalog;
  }

  lemma ProvidersPush(catalog: seq<Entry>, e: Entry)
    ensures Providers(catalog + [e]) == Providers(catalog) + {e.provider}
  {
    assert e in catalog + [e];
  }

  lemma GroupedStep(catalog: seq<Entry>, n: nat, grouped: map<string, seq<Model>>, stamps: map<string, string>)
    requires n < |catalog| && Grouped(catalog[..n], grouped, stamps)
    ensures var e := catalog[n];
            Grouped(catalog[..n + 1], Pushed(grouped, e.provider, ModelOf(e)),
                    if e.lastFetched.Some? && e.provider !in stamps
                    then stamps[e.provider := e.lastFetched.value] else stamps)
  {
    hide Listed, FirstStamp, ModelOf, Providers;
    var e, done := catalog[n], catalog[..n];
    assert catalog[..n + 1] == done + [e];
    ProvidersPush(done, e);
    forall p
      ensures Listed(done + [e], p) == Listed(done, p) + if e.provider == p then [ModelOf(e)] else []
    {
      ListedPush(done, e, p);
    }
    forall p
      ensures FirstStamp(done + [e], p)
           == if FirstStamp(done, p).None? && e.provider == p then e.lastFetched else FirstStamp(done, p)
    {
      ListedPush(done, e, p);
    }
    if e.provider !in grouped {
      NotListed(done, e.provider);
    }
  }

  lemma GroupedStart()
    ensures Grouped([], map[], map[])
  {
  }

  lemma BuiltFromNone(cache: Cache, grouped: map<string, seq<Model>>, stamps: map<string, string>,
                      now: string -> string)
    ensures cache + Built(grouped, stamps, now, {}) == cache
  {
  }

  lemma {:induction false} NotListed(catalog: seq<Entry>, p: string)
    requires p !in Providers(catalog)
    ensures Listed(catalog, p) == [] && FirstStamp(catalog, p) == None
  {
    if catalog != [] {
      var n := |catalog| - 1;
      assert catalog[n] in catalog;
      NotListed(catalog[..n], p);
    }
  }

  /** The caches of the providers in `keys`, from what was grouped for them. */
  function Built(grouped: map<string, seq<Model>>, stamps: map<string, string>, now: string -> string,
                 keys: set<string>): Cache
    requires keys <= grouped.Keys
  {
    map p | p in keys :: BuiltFor(grouped, stamps, now, p)
  }

  function BuiltFor(grouped: map<string, seq<Model>>, stamps: map<string, string>, now: string -> string,
                    p: string): ProviderCache
    requires p in grouped
  {
    ProviderCache(grouped[p], if p in stamps then stamps[p] else now(p))
  }

  lemma BuiltIsLoaded(cache: Cache, catalog: seq<Entry>, grouped: map<string, seq<Model>>,
                      stamps: map<string, string>, now: string -> string)
    requires Grouped(catalog, grouped, stamps)
    ensures cache + Built(grouped, stamps, now, grouped.Keys) == Loaded(cache, catalog, now)
  {
  }

  lemma BuiltStep(cache: Cache, grouped: map<string, seq<Model>>, stamps: map<string, string>,
                  now: string -> string, keys: set<string>, p: string)
    requires keys <= grouped.Keys && p in grouped
    ensures (cache + Built(grouped, stamps, now, keys))[p := BuiltFor(grouped, stamps, now, p)]
         == cache + Built(grouped, stamps, now, keys + {p})
  {
  }

  class Registry {
    var cache: Cache

    constructor ()
      ensures cache == map[]
    {
      cache := map[];
    }

    /** The catalogue may be loaded over what is cached already; the map of groups
        yields its keys in any order. */
    method LoadFromCatalog(catalog: seq<Entry>, now: string -> string)
      modifies this
      ensures cache == Loaded(old(cache), catalog, now)
    {
      hide Grouped, Built, Loaded, Listed, FirstStamp, Pushed;
      var grouped: map<string, seq<Model>>, timestamps: map<string, string> := map[], map[];
      GroupedStart();
      for n := 0 to |catalog|
        invariant Grouped(catalog[..n], grouped, timestamps)
        invariant cache == old(cache)
      {
        GroupedStep(catalog, n, grouped, timestamps);
        var e := catalog[n];
        grouped := Pushed(grouped, e.provider, ModelOf(e));
        if e.lastFetched.Some? && e.provider !in timestamps {
          timestamps := timestamps[e.provider := e.lastFetched.value];
        }
      }
      assert catalog[..|catalog|] == catalog;
      BuiltIsLoaded(cache, catalog, grouped, timestamps, now);
      var todo := grouped.Keys;
      BuiltFromNone(cache, grouped, timestamps, now);
      ghost var done: set<string> := {};
      while todo != {}
        invariant todo <= grouped.Keys && done == grouped.Keys - todo
        invariant cache == old(cache) + Built(grouped, timestamps, now, done)
        decreases todo
      {
        var p :| p in todo;
        BuiltStep(old(cache), grouped, timestamps, now, done, p);
        todo, done := todo - {p}, done + {p};
        cache := cache[p := BuiltFor(grouped, timestamps, now, p)];
      }
      assert done == grouped.Keys;
    }

    /** The providers come in any order the map yields them. */
    method ToCatalog() returns (entries: seq<Entry>)
      ensures IsExport(cache, entries)
    {
      entries := [];
      ghost var order: seq<string> := [];
      var todo := cache.Keys;
      while todo != {}
        invariant todo <= cache.Keys && Enumerates(order, cache.Keys - todo)
        invariant entries == Exported(cache, order)
        decreases todo
      {
        var p :| p in todo;
        todo := todo - {p};
        var i, models := 0, cache[p].models;
        ghost var before := entries;
        while i < |models|
          invariant i <= |models|
          invariant entries == before + EntriesOf(p, cache[p])[..i]
        {
          entries := entries + [EntryOf(p, models[i], cache[p].lastFetched)];
          i := i + 1;
        }
        assert (order + [p])[..|order|] == order;
        order := order + [p];
      }
    }

    method TotalModels() returns (n: nat)
      ensures exists order :: Enumerates(order, cache.Keys) && n == TotalIn(cache, order)
    {
      n := 0;
      ghost var order: seq<string> := [];
      var todo := cache.Keys;
      while todo != {}
        invariant todo <= cache.Keys && Enumerates(order, cache.Keys - todo)
        invariant n == TotalIn(cache, order)
        decreases todo
      {
        var p :| p in todo;
        todo := todo - {p};
        n := n + |cache[p].models|;
        assert (order + [p])[..|order|] == order;
        order := order + [p];
      }
    }
  }

  // ---- What loading keeps ----

  lemma {:induction false} ListedIff(catalog: seq<Entry>, p: string, id: string)
    ensures (exists m :: m in Listed(catalog, p) && m.id == id)
       <==> exists e :: e in catalog && e.provider == p && e.modelId == id
  {
    if catalog != [] {
      var n := |catalog| - 1;
      ListedIff(catalog[..n], p, id);
      assert catalog == catalog[..n] + [catalog[n]];
      assert forall m :: m in Listed(catalog, p) <==>
        m in Listed(catalog[..n], p) || (catalog[n].provider == p && m == ModelOf(catalog[n]));
      if catalog[n].provider == p && catalog[n].modelId == id {
        assert ModelOf(catalog[n]) in Listed(catalog, p);
        assert catalog[n] in catalog;
      }
    }
  }

  /** A loaded registry has a model exactly when the catalogue lists the pair, or the
      catalogue does not list the provider and the model was there before. */
  lemma HasModelExactly(cache: Cache, catalog: seq<Entry>, now: string -> string, p: string, id: string)
    ensures HasModelIn(Loaded(cache, catalog, now), p, id)
       <==> (exists e :: e in catalog && e.provider == p && e.modelId == id)
            || (p !in Providers(catalog) && HasModelIn(cache, p, id))
  {
    ListedIff(catalog, p, id);
  }

  function SumListed(catalog: seq<Entry>, order: seq<string>): nat {
    if order == [] then 0
    else SumListed(catalog, order[..|order| - 1]) + |Listed(catalog, order[|order| - 1])|
  }

  lemma {:induction false} SumGrows(catalog: seq<Entry>, e: Entry, order: seq<string>)
    requires Distinct(order)
    ensures SumListed(catalog + [e], order) == SumListed(catalog, order) + if e.provider in order then 1 else 0
  {
    assert (catalog + [e])[..|catalog|] == catalog;
    if order != [] {
      var n := |order| - 1;
      SumGrows(catalog, e, order[..n]);
      assert order == order[..n] + [order[n]];
      assert order[n] !in order[..n];
    }
  }

  /** Every entry is in the list of exactly one provider. */
  lemma {:induction false} SumIsLength(catalog: seq<Entry>, order: seq<string>)
    requires Distinct(order) && forall e :: e in catalog ==> e.provider in order
    ensures SumListed(catalog, order) == |catalog|
    decreases |catalog|
  {
    if catalog == [] {
      SumOfNothing(order);
    } else {
      var n := |catalog| - 1;
      assert catalog == catalog[..n] + [catalog[n]];
      assert catalog[n] in catalog;
      SumIsLength(catalog[..n], order);
      SumGrows(catalog[..n], catalog[n], order);
    }
  }

  lemma {:induction false} SumOfNothing(order: seq<string>)
    ensures SumListed([], order) == 0
  {
    if order != [] {
      SumOfNothing(order[..|order| - 1]);
    }
  }

  lemma {:induction false} TotalIsSum(catalog: seq<Entry>, now: string -> string, order: seq<string>)
    requires forall p :: p in order ==> p in Providers(catalog)
    ensures TotalIn(Loaded(map[], catalog, now), order) == SumListed(catalog, order)
    decreases |order|
  {
    hide Loaded, Listed, Providers;
    forall p
      ensures p in Loaded(map[], catalog, now) <==> p in Providers(catalog)
    {
      LoadedAt(catalog, now, p);
    }
    if order != [] {
      var n := |order| - 1;
      assert order[n] in order;
      assert forall p :: p in order[..n] ==> p in order;
      LoadedAt(catalog, now, order[n]);
      TotalIsSum(catalog, now, order[..n]);
    }
  }

  lemma LoadedAt(catalog: seq<Entry>, now: string -> string, p: string)
    ensures p in Loaded(map[], catalog, now) <==> p in Providers(catalog)
    ensures p in Providers(catalog) ==> Loaded(map[], catalog, now)[p] == CacheOf(catalog, p, now)
  {
  }

  /** A fresh registry has as many models as the catalogue has entries, in whatever
      order its providers are counted. */
  lemma LoadingKeepsTheTotal(catalog: seq<Entry>, now: string -> string, order: seq<string>)
    requires Enumerates(order, Loaded(map[], catalog, now).Keys)
    ensures TotalIn(Loaded(map[], catalog, now), order) == |catalog|
  {
    hide TotalIn, SumListed;
    TotalIsSum(catalog, now, order);
    SumIsLength(catalog, order);
  }

  // ---- Round trips ----

  /** A model after an export and a load. */
  function Reimported(m: Model): Model {
    Model(m.id, if NameOf(m) == "" then None else Some(NameOf(m)), None)
  }

  function ReimportedAll(ms: seq<Model>): seq<Model> {
    seq(|ms|, i requires 0 <= i < |ms| => Reimported(ms[i]))
  }

  lemma {:induction false} ListedConcat(a: seq<Entry>, b: seq<Entry>, p: string)
    ensures Listed(a + b, p) == Listed(a, p) + Listed(b, p)
    ensures FirstStamp(a + b, p) == if FirstStamp(a, p).Some? then FirstStamp(a, p) else FirstStamp(b, p)
    decreases |b|
  {
    if b == [] {
      assert a + b == a;
    } else {
      var n := |b| - 1;
      assert (a + b)[..|a + b| - 1] == a + b[..n];
      ListedConcat(a, b[..n], p);
    }
  }

  lemma {:induction false} ListedOfEntries(q: string, c: ProviderCache, p: string, k: nat)
    requires k <= |c.models|
    ensures Listed(EntriesOf(q, c)[..k], p) == if p == q then ReimportedAll(c.models[..k]) else []
    ensures FirstStamp(EntriesOf(q, c)[..k], p) == if p == q && 0 < k then Some(c.lastFetched) else None
    decreases k
  {
    var es := EntriesOf(q, c)[..k];
    if k > 0 {
      assert es[..k - 1] == EntriesOf(q, c)[..k - 1];
      ListedOfEntries(q, c, p, k - 1);
      assert ReimportedAll(c.models[..k])
          == ReimportedAll(c.models[..k - 1]) + [Reimported(c.models[k - 1])];
    }
  }

  lemma ListedOfNothing(p: string)
    ensures Listed([], p) == [] && FirstStamp([], p) == None
  {
  }

  lemma ListedOfCache(q: string, c: ProviderCache, p: string)
    ensures Listed(EntriesOf(q, c), p) == if p == q then ReimportedAll(c.models) else []
    ensures FirstStamp(EntriesOf(q, c), p) == if p == q && c.models != [] then Some(c.lastFetched) else None
  {
    hide Listed, FirstStamp, ReimportedAll;
    ListedOfEntries(q, c, p, |c.models|);
    assert EntriesOf(q, c)[..|c.models|] == EntriesOf(q, c);
    assert c.models[..|c.models|] == c.models;
  }

  lemma DistinctInit(order: seq<string>)
    requires Distinct(order) && order != []
    ensures var n := |order| - 1;
            && Distinct(order[..n]) && order[n] !in order[..n] && order[n] in order
            && forall p :: p in order <==> p == order[n] || p in order[..n]
  {
    assert order == order[..|order| - 1] + [order[|order| - 1]];
  }

  lemma {:induction false} ListedOfExport(cache: Cache, order: seq<string>, p: string)
    requires Distinct(order) && forall q :: q in order ==> q in cache
    ensures p !in order ==> Listed(Exported(cache, order), p) == [] && FirstStamp(Exported(cache, order), p) == None
    ensures p in order ==>
              Listed(Exported(cache, order), p) == ReimportedAll(cache[p].models)
              && FirstStamp(Exported(cache, order), p)
                 == if cache[p].models == [] then None else Some(cache[p].lastFetched)
    decreases |order|
  {
    hide Listed, FirstStamp, ReimportedAll, EntriesOf, Distinct;
    if order == [] {
      ListedOfNothing(p);
    } else {
      var n := |order| - 1;
      DistinctInit(order);
      ListedOfExport(cache, order[..n], p);
      ListedConcat(Exported(cache, order[..n]), EntriesOf(order[n], cache[order[n]]), p);
      ListedOfCache(order[n], cache[order[n]], p);
    }
  }

  lemma ProvidersAreListed(catalog: seq<Entry>, p: string)
    ensures p in Providers(catalog) <==> Listed(catalog, p) != []
  {
  }

  lemma {:induction false} ExportHasTotal(cache: Cache, order: seq<string>)
    requires forall p :: p in order ==> p in cache
    ensures |Exported(cache, order)| == TotalIn(cache, order)
  {
    if order != [] {
      var n := |order| - 1;
      assert order[n] in order;
      ExportHasTotal(cache, order[..n]);
    }
  }

  /** The total does not depend on the order in which the providers are counted. */
  lemma TotalIgnoresOrder(cache: Cache, order: seq<string>, order': seq<string>)
    requires Enumerates(order, cache.Keys) && Enumerates(order', cache.Keys)
    ensures TotalIn(cache, order) == TotalIn(cache, order')
  {
    hide TotalIn, Exported, Listed, SumListed;
    var a, b := Exported(cache, order), Exported(cache, order');
    ExportHasTotal(cache, order);
    ExportHasTotal(cache, order');
    ExportIsOfKeys(cache, order);
    ExportIsOfKeys(cache, order');
    SumIsLength(a, order);
    SumIsLength(b, order);
    SameSums(cache, a, b, order, order, order');
  }

  lemma {:induction false} ExportIsOfKeys(cache: Cache, order: seq<string>)
    requires forall p :: p in order ==> p in cache
    ensures forall e :: e in Exported(cache, order) ==> e.provider in order
  {
    if order != [] {
      var n := |order| - 1;
      assert order[n] in order;
      ExportIsOfKeys(cache, order[..n]);
    }
  }

  lemma {:induction false} SameSums(cache: Cache, a: seq<Entry>, b: seq<Entry>, part: seq<string>,
                                    order: seq<string>, order': seq<string>)
    requires Enumerates(order, cache.Keys) && Enumerates(order', cache.Keys)
    requires a == Exported(cache, order) && b == Exported(cache, order')
    requires forall p :: p in part ==> p in cache
    ensures SumListed(a, part) == SumListed(b, part)
    decreases |part|
  {
    hide Listed, Exported;
    if part != [] {
      var n := |part| - 1;
      assert part[n] in part;
      assert forall p :: p in part[..n] ==> p in part;
      SameSums(cache, a, b, part[..n], order, order');
      ListedOfExport(cache, order, part[n]);
      ListedOfExport(cache, order', part[n]);
    }
  }

  /** One export and load into a fresh registry. */
  function Round(cache: Cache, order: seq<string>, now: string -> string): Cache
    requires forall p :: p in order ==> p in cache
  {
    Loaded(map[], Exported(cache, order), now)
  }

  /** Loading what was exported restores every provider with models: its ids in their
      order and its timestamp, whatever the order of the map. */
  lemma RoundRestores(cache: Cache, order: seq<string>, now: string -> string)
    requires Enumerates(order, cache.Keys)
    ensures forall p :: p in Round(cache, order, now) <==> p in cache && cache[p].models != []
    ensures forall p :: p in Round(cache, order, now) ==>
              Round(cache, order, now)[p] == ProviderCache(ReimportedAll(cache[p].models), cache[p].lastFetched)
  {
    hide Listed, FirstStamp, Exported;
    var catalog := Exported(cache, order);
    forall p
      ensures p in Round(cache, order, now) <==> p in cache && cache[p].models != []
      ensures p in Round(cache, order, now) ==>
                Round(cache, order, now)[p]
                == ProviderCache(ReimportedAll(cache[p].models), cache[p].lastFetched)
    {
      ListedOfExport(cache, order, p);
      ProvidersAreListed(catalog, p);
    }
  }

  /** A displayed name that is set but empty, over an id that is not. */
  predicate BlankName(m: Model) {
    m.displayName == Some("") && m.id != ""
  }

  lemma ReimportTwice(m: Model)
    ensures Reimported(Reimported(m)) == Reimported(m) <==> !BlankName(m)
    ensures Reimported(Reimported(Reimported(m))) == Reimported(Reimported(m))
  {
  }

  ghost predicate NoBlankNames(cache: Cache) {
    forall p, i :: p in cache && 0 <= i < |cache[p].models| ==> !BlankName(cache[p].models[i])
  }

  /** A second round changes nothing exactly when no model has a blank name. */
  lemma SecondRoundExact(cache: Cache, order: seq<string>, order': seq<string>, now: string -> string)
    requires Enumerates(order, cache.Keys)
    requires Enumerates(order', Round(cache, order, now).Keys)
    ensures Round(Round(cache, order, now), order', now) == Round(cache, order, now) <==> NoBlankNames(cache)
  {
    hide Round, Reimported, BlankName;
    var r := Round(cache, order, now);
    var r2 := Round(r, order', now);
    RoundRestores(cache, order, now);
    RoundRestores(r, order', now);
    assert r2.Keys == r.Keys;
    forall p, i | p in cache && 0 <= i < |cache[p].models|
      ensures p in r && r2[p].models[i] == r[p].models[i] <==> p in r && !BlankName(cache[p].models[i])
    {
      ReimportTwice(cache[p].models[i]);
    }
    if NoBlankNames(cache) {
      forall p | p in r
        ensures r2[p] == r[p]
      {
        assert r2[p].models == r[p].models;
      }
      assert r2 == r;
    }
  }

  /** From the second round on nothing changes. */
  lemma ThirdRoundIsStable(cache: Cache, o1: seq<string>, o2: seq<string>, o3: seq<string>, now: string -> string)
    requires Enumerates(o1, cache.Keys)
    requires Enumerates(o2, Round(cache, o1, now).Keys)
    requires Enumerates(o3, Round(Round(cache, o1, now), o2, now).Keys)
    ensures Round(Round(Round(cache, o1, now), o2, now), o3, now) == Round(Round(cache, o1, now), o2, now)
  {
    hide Round;
    var r := Round(cache, o1, now);
    RoundRestores(cache, o1, now);
    SecondRoundExact(r, o2, o3, now);
  }
}
