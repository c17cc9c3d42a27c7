/**
 * Properties of the URL-key generator: the suffix cache, the projection of
 * paths, the two-phase availability check, the choice of store ids and the
 * retry loop of `generate`.
 */
module UrlKeyProperties {
  import opened Wrappers
  import opened UrlRewriteStorage
  import opened StoreManagement
  import opened RequestPaths
  import opened UrlKeys

  // ---------------------------------------------------------------------------
  // Suffix lookup

  /**
   * Caching the configured value of a store never changes the suffix any
   * store yields: the cache only saves configuration queries.
   */
  lemma CacheFillKeepsSuffixes(settings: SuffixSettings, config: ScopeConfig, id: nat)
    requires IsSetPath(settings.xmlPathSuffix) && !IsCached(settings.cache, id)
    ensures
      var filled := settings.(cache := settings.cache[id := ConfigValue(config, settings.xmlPathSuffix.value, id)]);
      SameSuffixes(filled, settings, config)
  {
    var filled := settings.(cache := settings.cache[id := ConfigValue(config, settings.xmlPathSuffix.value, id)]);
    forall storeId
      ensures Suffix(filled, config, storeId) == Suffix(settings, config, storeId)
    {
      if storeId.StoreId? && storeId.id != id {
        assert IsCached(filled.cache, storeId.id) == IsCached(settings.cache, storeId.id);
      }
    }
  }

  /**
   * Once the cache was filled for a list of store ids whose configured
   * suffixes are all non-null, asking for the same ids again queries the
   * configuration no more: every later pass of `generate` reads from the cache.
   */
  lemma RefillReadsNothing(settings: SuffixSettings, config: ScopeConfig, storeIds: seq<StoreIdValue>)
    requires forall i :: 0 <= i < |storeIds| ==> Suffix(settings, config, storeIds[i]).Some?
    ensures ReadsToFill(settings.(cache := FilledCache(settings, config, storeIds)), config, storeIds) == 0
  {
    RefillPrefixReadsNothing(settings, config, storeIds, |storeIds|);
    assert storeIds[..|storeIds|] == storeIds;
  }

  lemma {:induction false} RefillPrefixReadsNothing(
    settings: SuffixSettings, config: ScopeConfig, storeIds: seq<StoreIdValue>, k: nat)
    requires k <= |storeIds|
    requires forall i :: 0 <= i < |storeIds| ==> Suffix(settings, config, storeIds[i]).Some?
    ensures ReadsToFill(settings.(cache := FilledCache(settings, config, storeIds)), config, storeIds[..k]) == 0
  {
    if k > 0 {
      var filled := FilledCache(settings, config, storeIds);
      RefillPrefixReadsNothing(settings, config, storeIds, k - 1);
      FillStep(settings.(cache := filled), config, storeIds, k - 1);
      RefillPrefixKeepsCache(settings, config, storeIds, k - 1);
      FilledCacheHolds(settings, config, storeIds);
      assert !NeedsRead(settings.(cache := filled), storeIds[k - 1]);
    }
  }

  /** The configuration queries of the later passes: `passes` times those of one pass. */
  lemma {:induction false} RepeatedReadsIsProduct(passes: nat, perPass: nat)
    ensures RepeatedReads(passes, perPass) == passes * perPass
  {
    if passes > 0 {
      RepeatedReadsIsProduct(passes - 1, perPass);
    }
  }

  /** Without a config path, or for an absent store id, the default suffix is used. */
  lemma DefaultSuffixWithoutConfigPath(settings: SuffixSettings, config: ScopeConfig, storeId: StoreIdValue)
    requires !IsSetPath(settings.xmlPathSuffix) || storeId.NoStoreId?
    ensures Suffix(settings, config, storeId) == settings.defaultSuffix
  {
  }

  /**
   * The cache is keyed by store id only: a suffix cached under one config path
   * is still returned after the path is changed to one configured differently.
   */
  lemma StaleSuffixAfterPathChange()
    ensures
      var config: ScopeConfig := map[("old/path", 1) := ".html", ("new/path", 1) := ".htm"];
      var settings := SuffixSettings(None, Some("new/path"), map[1 := Some(".html")]);
      Suffix(settings, config, StoreId(1)) == Some(".html") &&
      ConfigValue(config, "new/path", 1) == Some(".htm")
  {
  }

  // ---------------------------------------------------------------------------
  // Path projection

  /**
   * Empty fields are left out of a criteria array: the request path is absent
   * only for an empty value with an empty (or null) suffix, and a store id of 0
   * is kept.
   */
  lemma EmptyFieldsOmitted(
    entityId: Option<nat>, entityType: string, value: string, storeId: StoreIdValue, suffix: Option<string>)
    ensures
      var data := ProjectedUrlKey(entityId, entityType, value, storeId, suffix);
      (data.storeId.Some? <==> storeId.StoreId?) &&
      (data.storeId.Some? ==> data.storeId.value == storeId.id) &&
      data.entityId == entityId &&
      data.entityType != Some("") && data.requestPath != Some("") &&
      (data.entityType.Some? <==> entityType != "") &&
      (data.requestPath.None? <==> value == "" && SuffixText(suffix) == "") &&
      (data.requestPath.Some? ==> data.requestPath.value == RequestPath(value, SuffixText(suffix)))
  {
    StripEmptySuffix(value);
    RequestPathShape(value, SuffixText(suffix));
  }

  /**
   * One criteria array per store id, in order: each carries that store id
   * (0 included, an absent one left out), the entity id, and a request path
   * that ends with that store's suffix.
   */
  lemma OneRecordPerStore(
    settings: SuffixSettings, config: ScopeConfig,
    entityId: Option<nat>, entityType: string, value: string, storeIds: seq<StoreIdValue>)
    ensures
      var keys := ProjectedUrlKeys(settings, config, entityId, entityType, value, storeIds);
      |keys| == |storeIds| &&
      forall i :: 0 <= i < |storeIds| ==>
        (keys[i].storeId == if storeIds[i].StoreId? then Some(storeIds[i].id) else None) &&
        keys[i].entityId == entityId &&
        keys[i].entityType != Some("") && keys[i].requestPath != Some("") &&
        (keys[i].requestPath.Some? ==>
          var path, suffix := keys[i].requestPath.value, SuffixText(Suffix(settings, config, storeIds[i]));
          |suffix| <= |path| && path[|path| - |suffix|..] == suffix)
  {
    var keys := ProjectedUrlKeys(settings, config, entityId, entityType, value, storeIds);
    forall i | 0 <= i < |storeIds|
      ensures keys[i].entityType != Some("") && keys[i].requestPath != Some("")
      ensures keys[i].requestPath.Some? ==>
        var path, suffix := keys[i].requestPath.value, SuffixText(Suffix(settings, config, storeIds[i]));
        |suffix| <= |path| && path[|path| - |suffix|..] == suffix
    {
      var suffix := Suffix(settings, config, storeIds[i]);
      EmptyFieldsOmitted(entityId, entityType, value, storeIds[i], suffix);
      RequestPathShape(value, SuffixText(suffix));
    }
  }

  /**
   * Projecting the request path of a projected record again, for the same
   * store, gives the same record.
   */
  lemma ProjectionIdempotent(
    settings: SuffixSettings, config: ScopeConfig,
    entityId: Option<nat>, entityType: string, value: string, storeIds: seq<StoreIdValue>, i: nat)
    requires i < |storeIds|
    ensures
      var keys := ProjectedUrlKeys(settings, config, entityId, entityType, value, storeIds);
      keys[i].requestPath.Some? ==>
        ProjectedUrlKey(entityId, entityType, keys[i].requestPath.value, storeIds[i], Suffix(settings, config, storeIds[i]))
        == keys[i]
  {
    RequestPathIdempotent(value, SuffixText(Suffix(settings, config, storeIds[i])));
  }

  // ---------------------------------------------------------------------------
  // Two-phase availability check

  /** Rewrite ids are distinct, so two different rows have different ids. */
  lemma DistinctRowsDistinctIds(table: seq<UrlRewrite>, a: UrlRewrite, b: UrlRewrite)
    requires UniqueIds(table) && a in table && b in table && a != b
    ensures a.urlRewriteId != b.urlRewriteId
  {
    var i :| 0 <= i < |table| && table[i] == a;
    var j :| 0 <= j < |table| && table[j] == b;
    assert i != j;
    if i < j { assert table[i].urlRewriteId != table[j].urlRewriteId; }
    else { assert table[j].urlRewriteId != table[i].urlRewriteId; }
  }

  /**
   * A record of another entity at one of the candidate's paths, in one of its
   * stores, is a collision, provided the entity has an id.
   */
  lemma ForeignRecordCollides(table: seq<UrlRewrite>, keys: seq<UrlKeyData>, e: nat, i: nat)
    requires UniqueIds(table)
    requires forall j :: 0 <= j < |keys| ==> keys[j].entityId == Some(e)
    requires i < |table| && BroadMatch(table[i], keys) && table[i].entityId != e
    ensures !Available(table, keys)
  {
    AvailableMeans(table, keys);
    var row := table[i];
    if IsOwnRecord(table, keys, row.urlRewriteId) {
      var j :| 0 <= j < |keys| && OwnMatchId(table, keys[j]) == Some(row.urlRewriteId);
      var own := FindOneByData(table, keys[j]).value;
      assert own.entityId == e;
      DistinctRowsDistinctIds(table, own, row);
      assert false;
    }
  }

  /** Different rows never share a request path within one store. */
  predicate UniquePathPerStore(table: seq<UrlRewrite>)
  {
    forall i, j :: 0 <= i < j < |table| ==>
      table[i].requestPath != table[j].requestPath || table[i].storeId != table[j].storeId
  }

  /**
   * Saving an entity whose own records already hold its projected paths is
   * not a collision: the exact-match pass claims those records first.
   */
  lemma OwnRecordsAreNoCollision(table: seq<UrlRewrite>, keys: seq<UrlKeyData>)
    requires UniquePathPerStore(table)
    requires forall j :: 0 <= j < |keys| ==> keys[j].storeId.Some? && keys[j].requestPath.Some?
    requires forall i :: 0 <= i < |table| && BroadMatch(table[i], keys) ==>
      exists j :: 0 <= j < |keys| && MatchesData(table[i], keys[j])
    ensures Available(table, keys)
  {
    forall i | 0 <= i < |table| && BroadMatch(table[i], keys)
      ensures IsOwnRecord(table, keys, table[i].urlRewriteId)
    {
      var j :| 0 <= j < |keys| && MatchesData(table[i], keys[j]);
      var own := FindOneByData(table, keys[j]).value;
      var k :| 0 <= k < |table| && table[k] == own;
      SamePathAndStoreSameRow(table, k, i);
      assert OwnMatchId(table, keys[j]) == Some(table[i].urlRewriteId);
    }
    AvailableMeans(table, keys);
  }

  lemma SamePathAndStoreSameRow(table: seq<UrlRewrite>, k: nat, i: nat)
    requires UniquePathPerStore(table) && k < |table| && i < |table|
    requires table[k].requestPath == table[i].requestPath && table[k].storeId == table[i].storeId
    ensures k == i
  {
  }

  /**
   * A criteria array without a store id (an absent store id) puts a null in
   * the store list of the broad query. Reading the missing field as a silent
   * null, and taking a null to match no row, such a candidate is always free.
   */
  lemma MissingStoreIdsMatchNothing(table: seq<UrlRewrite>, keys: seq<UrlKeyData>)
    requires forall j :: 0 <= j < |keys| ==> keys[j].storeId.None?
    ensures Available(table, keys)
  {
    forall i | 0 <= i < |table|
      ensures !BroadMatch(table[i], keys)
    {
      assert forall j :: 0 <= j < |keys| ==> keys[j].storeId != Some(table[i].storeId);
    }
    AvailableMeans(table, keys);
  }

  /**
   * The broad query is a cross product: a path projected for one store is
   * also looked up in the other stores. Here the entity's own record in store
   * 2, left with the store-1 suffix, is not an exact match for store 2 and so
   * counts as a collision.
   */
  lemma CrossProductSelfCollision()
    ensures
      var table := [UrlRewrite(7, 2, 42, "catalog_product", "shoes.html")];
      var keys := [UrlKeyData(Some(1), Some(42), Some("catalog_product"), Some("shoes.html")),
                   UrlKeyData(Some(2), Some(42), Some("catalog_product"), Some("shoes.htm"))];
      !Available(table, keys)
  {
    var table := [UrlRewrite(7, 2, 42, "catalog_product", "shoes.html")];
    var keys := [UrlKeyData(Some(1), Some(42), Some("catalog_product"), Some("shoes.html")),
                 UrlKeyData(Some(2), Some(42), Some("catalog_product"), Some("shoes.htm"))];
    assert BroadMatch(table[0], keys) by {
      assert keys[0].requestPath == Some(table[0].requestPath);
      assert keys[1].storeId == Some(table[0].storeId);
    }
    assert !MatchesData(table[0], keys[0]);
    assert !MatchesData(table[0], keys[1]) by { assert "shoes.htm" != "shoes.html"; }
    assert FindOneByData(table, keys[0]) == None;
    assert FindOneByData(table, keys[1]) == None;
  }

  /**
   * A new entity has no id, so the entity id is left out of the exact-match
   * criteria and another entity's record at the same path, store and entity
   * type is claimed as the new entity's own: the candidate reads as free.
   */
  lemma NewEntityClaimsMatchingRecord()
    ensures
      var table := [UrlRewrite(7, 1, 5, "catalog_product", "shoes.html")];
      var key := ProjectedUrlKey(None, "catalog_product", "shoes", StoreId(1), Some(".html"));
      key.requestPath == Some("shoes.html") && Available(table, [key])
  {
    var table := [UrlRewrite(7, 1, 5, "catalog_product", "shoes.html")];
    ShoesProjectsToShoesHtml();
    var key := ProjectedUrlKey(None, "catalog_product", "shoes", StoreId(1), Some(".html"));
    assert MatchesData(table[0], key);
    assert OwnMatchId(table, [key][0]) == Some(7);
  }

  lemma ShoesProjectsToShoesHtml()
    ensures RequestPath("shoes", ".html") == "shoes.html"
  {
    assert "shoes"[0] != ".html"[0];
    RequestPathAppends("shoes", ".html");
  }

  // ---------------------------------------------------------------------------
  // Store ids checked by generate

  /** A global attribute, or one without scope, is checked in every store but the admin store. */
  lemma GlobalScopeChecksEveryStore(scope: AttributeScope, storeId: StoreIdValue, sm: StoreManager)
    requires scope == ScopeGlobal || scope == NotScoped
    ensures
      var r := StoreIdsToCheck(scope, storeId, sm);
      r.Ok? &&
      forall s :: s in r.value <==> s.StoreId? && s.id != AdminStoreId && exists st :: st in sm && st.id == s.id
  {
    var ids := StoreIds(sm);
    var r := AsStoreIds(ids);
    forall s | s in r
      ensures s.StoreId? && s.id in ids
    {
      var i :| 0 <= i < |r| && r[i] == s;
    }
    forall s: StoreIdValue | s.StoreId? && s.id in ids
      ensures s in r
    {
      var i :| 0 <= i < |ids| && ids[i] == s.id;
      assert r[i] == s;
    }
  }

  /** A store-scoped attribute is checked in exactly one store: the entity's own. */
  lemma StoreScopeChecksOneStore(storeId: StoreIdValue, sm: StoreManager)
    ensures StoreIdsToCheck(ScopeStore, storeId, sm) == Ok([storeId])
  {
  }

  /**
   * A website-scoped attribute with a truthy store id is checked in every store
   * of that store's website, the store itself included; an unknown store id
   * is a `NoSuchEntityException`.
   */
  lemma WebsiteScopeChecksWebsiteStores(storeId: StoreIdValue, sm: StoreManager)
    requires IsTruthy(storeId)
    ensures
      var r := StoreIdsToCheck(ScopeWebsite, storeId, sm);
      match GetStore(sm, storeId.id)
      case Err(_) => r == Err(NoSuchStore(storeId.id))
      case Ok(store) =>
        r.Ok? && storeId in r.value &&
        forall s :: s in r.value <==>
          s.StoreId? && exists st :: st in sm && st.id == s.id && st.websiteId == store.websiteId
  {
    match GetStore(sm, storeId.id)
    case Err(_) =>
    case Ok(store) =>
      var ids := WebsiteStoreIds(sm, store.websiteId);
      var r := AsStoreIds(ids);
      forall s | s in r
        ensures s.StoreId? && s.id in ids
      {
        var i :| 0 <= i < |r| && r[i] == s;
      }
      forall s: StoreIdValue | s.StoreId? && s.id in ids
        ensures s in r
      {
        var i :| 0 <= i < |ids| && ids[i] == s.id;
        assert r[i] == s;
      }
      assert storeId.id in ids;
  }

  /**
   * A website- or store-scoped attribute whose store id is absent or 0 is
   * checked only under that store id, not in every store.
   */
  lemma UnsetStoreIdChecksOnlyItself(scope: AttributeScope, storeId: StoreIdValue, sm: StoreManager)
    requires scope == ScopeWebsite || scope == ScopeStore
    requires !IsTruthy(storeId)
    ensures StoreIdsToCheck(scope, storeId, sm) == Ok([storeId])
  {
  }

  /**
   * Consequently, under the same reading of a null store id, an absent store
   * id under a website- or store-scoped attribute is free at once: `generate`
   * returns the value untouched.
   */
  lemma AbsentStoreIdNeverRetries(ctx: CheckContext, value: string, uniqids: seq<string>)
    requires ctx.storeIds == [NoStoreId]
    requires MaxRetries <= |uniqids|
    ensures RetryCount(FreeFlags(ctx, value, uniqids), 0) == 0
  {
    var keys := ProjectedUrlKeys(ctx.settings, ctx.config, ctx.entityId, ctx.entityType, value, ctx.storeIds);
    MissingStoreIdsMatchNothing(ctx.table, keys);
    FreeFlagAt(ctx, value, uniqids, 0);
  }

  // ---------------------------------------------------------------------------
  // The retry loop of generate

  /**
   * The retry loop stops at the first free value: every value tried before
   * it collides, and unless the cap was reached the value it stops at is free.
   */
  lemma {:induction false} RetryCountStopsAtFirstFree(flags: seq<bool>, i: nat)
    requires i <= MaxRetries < |flags|
    ensures
      var k := RetryCount(flags, i);
      (forall j :: i <= j < k ==> !flags[j]) && (k < MaxRetries ==> flags[k])
    decreases MaxRetries - i
  {
    if !(flags[i] || i == MaxRetries) {
      RetryCountStopsAtFirstFree(flags, i + 1);
    }
  }

  /** The value is returned unchanged, with no retry, exactly when it is free. */
  lemma NoRetryIffFree(ctx: CheckContext, value: string, uniqids: seq<string>)
    requires MaxRetries <= |uniqids|
    ensures RetryCount(FreeFlags(ctx, value, uniqids), 0) == 0 <==> IsFree(ctx, value)
    ensures Mutated(value, uniqids, 0) == value
  {
    FreeFlagAt(ctx, value, uniqids, 0);
  }

  /**
   * When every value the loop could try collides, it makes exactly
   * `MaxRetries` mutations and returns the last one.
   */
  lemma AlwaysCollidingGivesUp(ctx: CheckContext, value: string, uniqids: seq<string>)
    requires MaxRetries <= |uniqids|
    requires forall j :: 0 <= j <= MaxRetries ==> !IsFree(ctx, Mutated(value, uniqids, j))
    ensures RetryCount(FreeFlags(ctx, value, uniqids), 0) == MaxRetries
  {
    var flags := FreeFlags(ctx, value, uniqids);
    RetryCountStopsAtFirstFree(flags, 0);
    FreeFlagAt(ctx, value, uniqids, RetryCount(flags, 0));
  }

  /**
   * The outcome of the retry loop in terms of availability: every value before
   * the returned one collides, and the returned one is free unless the loop
   * gave up after `MaxRetries` mutations.
   */
  lemma RetryOutcome(ctx: CheckContext, value: string, uniqids: seq<string>)
    requires MaxRetries <= |uniqids|
    ensures
      var k := RetryCount(FreeFlags(ctx, value, uniqids), 0);
      (forall j :: 0 <= j < k ==> !IsFree(ctx, Mutated(value, uniqids, j))) &&
      (k < MaxRetries ==> IsFree(ctx, Mutated(value, uniqids, k)))
  {
    var flags := FreeFlags(ctx, value, uniqids);
    RetryCountStopsAtFirstFree(flags, 0);
    var k := RetryCount(flags, 0);
    forall j | 0 <= j < k
      ensures !IsFree(ctx, Mutated(value, uniqids, j))
    {
      FreeFlagAt(ctx, value, uniqids, j);
    }
    FreeFlagAt(ctx, value, uniqids, k);
  }

  /**
   * Tokens accumulate: after `k` passes the value is the original followed by
   * `k` segments, each a hyphen and four characters of the matching uniqid.
   */
  lemma {:induction false} MutatedLayout(value: string, uniqids: seq<string>, k: nat)
    requires k <= |uniqids|
    requires forall j :: 0 <= j < k ==> 4 <= |uniqids[j]|
    ensures |Mutated(value, uniqids, k)| == |value| + 5 * k
    ensures Mutated(value, uniqids, k)[..|value|] == value
    ensures forall j :: 0 <= j < k ==>
      Mutated(value, uniqids, k)[|value| + 5 * j] == '-' &&
      Mutated(value, uniqids, k)[|value| + 5 * j + 1..|value| + 5 * j + 5] == uniqids[j][..4]
  {
    if k > 0 {
      MutatedLayout(value, uniqids, k - 1);
      var prev := Mutated(value, uniqids, k - 1);
      var next := Mutated(value, uniqids, k);
      MutatedStep(value, uniqids, k);
      forall j | 0 <= j < k
        ensures next[|value| + 5 * j] == '-' && next[|value| + 5 * j + 1..|value| + 5 * j + 5] == uniqids[j][..4]
      {
        if j < k - 1 {
          SliceOfExtension(prev, next, |value| + 5 * j, |value| + 5 * j + 5);
        }
      }
      SliceOfExtension(prev, next, 0, |value|);
    }
  }

  /** One pass appends a hyphen and the first four characters of the next uniqid. */
  lemma MutatedStep(value: string, uniqids: seq<string>, k: nat)
    requires 0 < k <= |uniqids| && 4 <= |uniqids[k - 1]|
    ensures
      var prev := Mutated(value, uniqids, k - 1);
      var next := Mutated(value, uniqids, k);
      |next| == |prev| + 5 && next[..|prev|] == prev && next[|prev|] == '-' && next[|prev| + 1..] == uniqids[k - 1][..4]
  {
    MakeUniqueShape(Mutated(value, uniqids, k - 1), uniqids[k - 1]);
  }

  lemma SliceOfExtension(prev: string, next: string, lo: nat, hi: nat)
    requires lo <= hi <= |prev| <= |next| && next[..|prev|] == prev
    ensures next[lo..hi] == prev[lo..hi]
    ensures lo < hi ==> next[lo] == prev[lo]
  {
    forall i | lo <= i < hi
      ensures next[i] == prev[i]
    {
      assert next[..|prev|][i] == next[i];
    }
  }

  // ---------------------------------------------------------------------------
  // Scenarios

  /**
   * An entity with a store-scoped URL key `Blue Shoes`, id 42, store 1, default
   * suffix `.html` and no stored rewrites: one criteria array is checked, it is
   * free, and `generate` returns `Blue Shoes` without the suffix.
   */
  lemma BlueShoesScenario(uniqids: seq<string>)
    requires MaxRetries <= |uniqids|
    ensures
      var storeIds := StoreIdsToCheck(ScopeStore, StoreId(1), []);
      var ctx := CheckContext([], SuffixSettings(Some(".html"), None, map[]), map[], Some(42), "catalog_product", [StoreId(1)]);
      storeIds == Ok([StoreId(1)]) &&
      ProjectedUrlKeys(ctx.settings, ctx.config, ctx.entityId, ctx.entityType, "Blue Shoes", ctx.storeIds)
        == [UrlKeyData(Some(1), Some(42), Some("catalog_product"), Some("Blue Shoes.html"))] &&
      IsFree(ctx, "Blue Shoes") &&
      RetryCount(FreeFlags(ctx, "Blue Shoes", uniqids), 0) == 0
  {
    var ctx := CheckContext([], SuffixSettings(Some(".html"), None, map[]), map[], Some(42), "catalog_product", [StoreId(1)]);
    assert !SameIgnoringCase("Blue Shoes"[5..], ".html") by {
      assert LowerAscii("Blue Shoes"[5..][0]) != LowerAscii(".html"[0]);
    }
    RequestPathAppends("Blue Shoes", ".html");
    assert RequestPath("Blue Shoes", ".html") == "Blue Shoes.html";
    assert Suffix(ctx.settings, ctx.config, StoreId(1)) == Some(".html");
    var key := ProjectedUrlKey(Some(42), "catalog_product", "Blue Shoes", StoreId(1), Some(".html"));
    assert key == UrlKeyData(Some(1), Some(42), Some("catalog_product"), Some("Blue Shoes.html"));
    FreeFlagAt(ctx, "Blue Shoes", uniqids, 0);
    AvailableMeans(ctx.table, [key]);
  }

  /**
   * Entity 5 owns `shoes.html` in store 1; entity 6 is store-scoped in store 1,
   * with the default suffix `.html`.
   */
  function ShoeShopContext(): CheckContext
  {
    CheckContext([UrlRewrite(7, 1, 5, "catalog_product", "shoes.html")],
                 SuffixSettings(Some(".html"), None, map[]), map[], Some(6), "catalog_product", [StoreId(1)])
  }

  /** Entity 6's candidate `shoes` projects to entity 5's path and collides. */
  lemma ShoesCollides()
    ensures !IsFree(ShoeShopContext(), "shoes")
  {
    var ctx := ShoeShopContext();
    ShoesProjectsToShoesHtml();
    var keys := ProjectedUrlKeys(ctx.settings, ctx.config, ctx.entityId, ctx.entityType, "shoes", ctx.storeIds);
    assert keys[0].requestPath == Some("shoes.html");
    assert BroadMatch(ctx.table[0], keys);
    ForeignRecordCollides(ctx.table, keys, 6, 0);
  }

  /** Any retried value `shoes-` plus a four-character token is free. */
  lemma RetriedShoesIsFree(token: string)
    requires |token| == 4
    ensures IsFree(ShoeShopContext(), "shoes-" + token)
  {
    var ctx := ShoeShopContext();
    var retried := "shoes-" + token;
    assert !SameIgnoringCase(retried[4..9], ".html") by {
      assert LowerAscii(retried[4..9][0]) != LowerAscii(".html"[0]);
    }
    assert !SameIgnoringCase(retried[5..], ".html") by {
      assert LowerAscii(retried[5..][0]) != LowerAscii(".html"[0]);
    }
    assert StripSuffix(retried, ".html") == retried;
    var keys := ProjectedUrlKeys(ctx.settings, ctx.config, ctx.entityId, ctx.entityType, retried, ctx.storeIds);
    assert keys[0].requestPath == Some(retried + ".html");
    assert |retried + ".html"| != |"shoes.html"|;
    assert !BroadMatch(ctx.table[0], keys);
    AvailableMeans(ctx.table, keys);
  }

  /**
   * Entity 6 with candidate `shoes` collides once; the first retry, `shoes-`
   * and a token, is free, and that unsuffixed value is what `generate` returns.
   */
  lemma CollisionScenario(uniqids: seq<string>)
    requires MaxRetries <= |uniqids| && 4 <= |uniqids[0]|
    ensures RetryCount(FreeFlags(ShoeShopContext(), "shoes", uniqids), 0) == 1
    ensures Mutated("shoes", uniqids, 1) == "shoes-" + uniqids[0][..4]
  {
    var ctx := ShoeShopContext();
    var flags := FreeFlags(ctx, "shoes", uniqids);
    assert Mutated("shoes", uniqids, 0) == "shoes";
    assert Mutated("shoes", uniqids, 1) == "shoes-" + uniqids[0][..4];
    ShoesCollides();
    FreeFlagAt(ctx, "shoes", uniqids, 0);
    assert !flags[0];
    RetriedShoesIsFree(uniqids[0][..4]);
    FreeFlagAt(ctx, "shoes", uniqids, 1);
    assert flags[1];
    assert RetryCount(flags, 1) == 1;
  }
}
