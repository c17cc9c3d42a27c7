/**
 * The URL-key generator: given an entity and the attribute holding its URL
 * key, it finds a value whose request path is not used by another entity in
 * any of the stores the attribute's scope reaches, appending `-` and a short
 * token while it collides. It only reads the rewrite storage.
 */
module UrlKeys {
  import opened Wrappers
  import opened UrlRewriteStorage
  import opened StoreManagement
  import opened RequestPaths

  /** A store id as read from an entity or a store list: absent (null or "") or a number. */
  datatype StoreIdValue = NoStoreId | StoreId(id: nat)

  /** PHP truthiness of a store id: absent and 0 are false. */
  predicate IsTruthy(storeId: StoreIdValue)
  {
    storeId.StoreId? && storeId.id != 0
  }

  /** How the attribute is scoped; `NotScoped` is an attribute without scope information. */
  datatype AttributeScope = NotScoped | ScopeGlobal | ScopeWebsite | ScopeStore

  datatype Attribute = Attribute(attributeCode: string, entityTypeCode: string, scope: AttributeScope)

  /**
   * The entity being saved: its id (null for a new entity), its data by field
   * name, and the value of its store id field.
   */
  datatype Entity = Entity(id: Option<nat>, data: map<string, string>, storeId: StoreIdValue)

  /** `getData($attrCode)`, where a missing value reads as the empty string. */
  function AttributeValue(entity: Entity, code: string): string
  {
    if code in entity.data then entity.data[code] else ""
  }

  /** Store-scope configuration values by (config path, store id). */
  type ScopeConfig = map<(string, nat), string>

  /** `getValue($path, 'store', $storeId)`: the configured value, or null. */
  function ConfigValue(config: ScopeConfig, path: string, storeId: nat): Option<string>
  {
    if (path, storeId) in config then Some(config[(path, storeId)]) else None
  }

  /** PHP truthiness of the suffix config path: null, "" and "0" are false. */
  predicate IsSetPath(path: Option<string>)
  {
    path.Some? && path.value != "" && path.value != "0"
  }

  /** The generator's suffix settings: the default suffix, the config path and the cache. */
  datatype SuffixSettings = SuffixSettings(
    defaultSuffix: Option<string>,
    xmlPathSuffix: Option<string>,
    cache: map<nat, Option<string>>)

  /** `isset($this->suffixes[$storeId])`, which is false for a cached null. */
  predicate IsCached(cache: map<nat, Option<string>>, storeId: nat)
  {
    storeId in cache && cache[storeId].Some?
  }

  /** The suffix that `getSuffix` yields for a store under the given settings. */
  function Suffix(settings: SuffixSettings, config: ScopeConfig, storeId: StoreIdValue): Option<string>
  {
    if IsSetPath(settings.xmlPathSuffix) && storeId.StoreId? then
      if IsCached(settings.cache, storeId.id) then settings.cache[storeId.id]
      else ConfigValue(config, settings.xmlPathSuffix.value, storeId.id)
    else settings.defaultSuffix
  }

  /** Whether `getSuffix` queries the configuration: a path is set and the numeric id is not cached. */
  predicate NeedsRead(settings: SuffixSettings, storeId: StoreIdValue)
  {
    IsSetPath(settings.xmlPathSuffix) && storeId.StoreId? && !IsCached(settings.cache, storeId.id)
  }

  /** The suffix cache after `getSuffix` was asked for one store id. */
  function CacheAfter(settings: SuffixSettings, config: ScopeConfig, storeId: StoreIdValue): map<nat, Option<string>>
  {
    if NeedsRead(settings, storeId) then
      settings.cache[storeId.id := ConfigValue(config, settings.xmlPathSuffix.value, storeId.id)]
    else settings.cache
  }

  /** The suffix cache after `getSuffix` was asked for each store id in turn. */
  function FilledCache(settings: SuffixSettings, config: ScopeConfig, storeIds: seq<StoreIdValue>)
    : map<nat, Option<string>>
  {
    if storeIds == [] then settings.cache
    else
      var before := FilledCache(settings, config, storeIds[..|storeIds| - 1]);
      CacheAfter(settings.(cache := before), config, storeIds[|storeIds| - 1])
  }

  /** The number of configuration queries `getSuffix` makes when asked for each store id in turn. */
  function ReadsToFill(settings: SuffixSettings, config: ScopeConfig, storeIds: seq<StoreIdValue>): (n: nat)
    ensures n <= |storeIds|
    ensures !IsSetPath(settings.xmlPathSuffix) ==> n == 0
  {
    if storeIds == [] then 0
    else
      var init := storeIds[..|storeIds| - 1];
      var before := FilledCache(settings, config, init);
      ReadsToFill(settings, config, init)
      + (if NeedsRead(settings.(cache := before), storeIds[|storeIds| - 1]) then 1 else 0)
  }

  /** Asking for one more store id: the cache and the query count of one more `getSuffix`. */
  lemma FillStep(settings: SuffixSettings, config: ScopeConfig, storeIds: seq<StoreIdValue>, i: nat)
    requires i < |storeIds|
    ensures var before := settings.(cache := FilledCache(settings, config, storeIds[..i]));
      FilledCache(settings, config, storeIds[..i + 1]) == CacheAfter(before, config, storeIds[i]) &&
      ReadsToFill(settings, config, storeIds[..i + 1])
        == ReadsToFill(settings, config, storeIds[..i]) + if NeedsRead(before, storeIds[i]) then 1 else 0
  {
    assert storeIds[..i + 1][..i] == storeIds[..i];
  }

  /**
   * What filling the cache for a list of store ids leaves in it: entries
   * cached before survive, every numeric id asked for holds the suffix it
   * yielded, and nothing else is added or changed.
   */
  lemma {:induction false} FilledCacheHolds(settings: SuffixSettings, config: ScopeConfig, storeIds: seq<StoreIdValue>)
    ensures var filled := FilledCache(settings, config, storeIds);
      (forall id :: IsCached(settings.cache, id) ==> IsCached(filled, id) && filled[id] == settings.cache[id]) &&
      (IsSetPath(settings.xmlPathSuffix) ==>
         forall i :: 0 <= i < |storeIds| && storeIds[i].StoreId? ==>
           storeIds[i].id in filled && filled[storeIds[i].id] == Suffix(settings, config, storeIds[i])) &&
      (forall id :: id in filled ==> id in settings.cache || StoreId(id) in storeIds) &&
      (forall id :: id in settings.cache && StoreId(id) !in storeIds ==> id in filled && filled[id] == settings.cache[id])
    decreases |storeIds|
  {
    if storeIds != [] {
      var init := storeIds[..|storeIds| - 1];
      var last := storeIds[|storeIds| - 1];
      FilledCacheHolds(settings, config, init);
      assert forall i :: 0 <= i < |init| ==> storeIds[i] == init[i];
      assert forall x :: x in init ==> x in storeIds;
      assert storeIds == init + [last];
    }
  }

  /**
   * Asking again for store ids already asked for leaves the cache as it is:
   * every prefix of a second pass finds the filled cache unchanged.
   */
  lemma {:induction false} RefillPrefixKeepsCache(
    settings: SuffixSettings, config: ScopeConfig, storeIds: seq<StoreIdValue>, k: nat)
    requires k <= |storeIds|
    ensures var filled := FilledCache(settings, config, storeIds);
      FilledCache(settings.(cache := filled), config, storeIds[..k]) == filled
  {
    var filled := FilledCache(settings, config, storeIds);
    if k > 0 {
      RefillPrefixKeepsCache(settings, config, storeIds, k - 1);
      assert storeIds[..k][..k - 1] == storeIds[..k - 1];
      FilledCacheHolds(settings, config, storeIds);
      var s := storeIds[k - 1];
      if NeedsRead(settings.(cache := filled), s) {
        assert filled[s.id] == Suffix(settings, config, s);
        assert filled[s.id] == ConfigValue(config, settings.xmlPathSuffix.value, s.id);
      }
    }
  }

  /** A second pass over the same store ids leaves the filled cache as it is. */
  lemma RefillKeepsCache(settings: SuffixSettings, config: ScopeConfig, storeIds: seq<StoreIdValue>)
    ensures var filled := FilledCache(settings, config, storeIds);
      FilledCache(settings.(cache := filled), config, storeIds) == filled
  {
    RefillPrefixKeepsCache(settings, config, storeIds, |storeIds|);
    assert storeIds[..|storeIds|] == storeIds;
  }

  /** Filling the cache never changes the suffix any store yields. */
  lemma FilledKeepsSuffixes(settings: SuffixSettings, config: ScopeConfig, storeIds: seq<StoreIdValue>)
    ensures SameSuffixes(settings.(cache := FilledCache(settings, config, storeIds)), settings, config)
  {
    forall storeId
      ensures Suffix(settings.(cache := FilledCache(settings, config, storeIds)), config, storeId)
           == Suffix(settings, config, storeId)
    {
      FilledKeepsSuffix(settings, config, storeIds, storeId);
    }
  }

  /** Filling the cache leaves the suffix of one store as it was. */
  lemma FilledKeepsSuffix(settings: SuffixSettings, config: ScopeConfig, storeIds: seq<StoreIdValue>, storeId: StoreIdValue)
    ensures Suffix(settings.(cache := FilledCache(settings, config, storeIds)), config, storeId)
         == Suffix(settings, config, storeId)
  {
    var filled := FilledCache(settings, config, storeIds);
    FilledCacheHolds(settings, config, storeIds);
    if IsSetPath(settings.xmlPathSuffix) && storeId.StoreId? && !IsCached(settings.cache, storeId.id)
       && IsCached(filled, storeId.id) && StoreId(storeId.id) in storeIds {
      var i :| 0 <= i < |storeIds| && storeIds[i] == StoreId(storeId.id);
      assert filled[storeId.id] == Suffix(settings, config, storeIds[i]);
    }
  }

  /** One more element of a sequence's prefix. */
  lemma PrefixStep<T>(s: seq<T>, i: nat)
    requires i < |s|
    ensures s[..i + 1] == s[..i] + [s[i]]
  {
  }

  /** The configuration queries of `passes` passes that each make `perPass` of them. */
  function RepeatedReads(passes: nat, perPass: nat): nat
  {
    if passes == 0 then 0 else RepeatedReads(passes - 1, perPass) + perPass
  }

  /** Two settings that yield the same suffix for every store. */
  ghost predicate SameSuffixes(a: SuffixSettings, b: SuffixSettings, config: ScopeConfig)
  {
    forall storeId :: Suffix(a, config, storeId) == Suffix(b, config, storeId)
  }

  /** A null suffix is concatenated, and quoted into the pattern, as the empty string. */
  function SuffixText(suffix: Option<string>): string
  {
    if suffix.Some? then suffix.value else ""
  }

  /**
   * The criteria array for one store: the store id, the entity id, the entity
   * type and the request path, with every field whose string form is empty
   * left out (`array_filter(..., 'strlen')`).
   */
  function ProjectedUrlKey(
    entityId: Option<nat>, entityType: string, value: string, storeId: StoreIdValue, suffix: Option<string>)
    : UrlKeyData
  {
    var path := RequestPath(value, SuffixText(suffix));
    UrlKeyData(
      if storeId.StoreId? then Some(storeId.id) else None,
      entityId,
      if entityType == "" then None else Some(entityType),
      if path == "" then None else Some(path))
  }

  /** `getProjectedUrlKeys`: one criteria array per store id, in the order of the store ids. */
  function ProjectedUrlKeys(
    settings: SuffixSettings, config: ScopeConfig,
    entityId: Option<nat>, entityType: string, value: string, storeIds: seq<StoreIdValue>)
    : (keys: seq<UrlKeyData>)
    ensures |keys| == |storeIds|
    ensures forall i :: 0 <= i < |storeIds| ==>
      keys[i] == ProjectedUrlKey(entityId, entityType, value, storeIds[i], Suffix(settings, config, storeIds[i]))
  {
    if storeIds == [] then []
    else [ProjectedUrlKey(entityId, entityType, value, storeIds[0], Suffix(settings, config, storeIds[0]))]
         + ProjectedUrlKeys(settings, config, entityId, entityType, value, storeIds[1..])
  }

  /** The id of the row that the exact-match query finds for one criteria array, if any. */
  function OwnMatchId(table: seq<UrlRewrite>, data: UrlKeyData): Option<nat>
  {
    match FindOneByData(table, data)
    case None => None
    case Some(row) => Some(row.urlRewriteId)
  }

  /** A rewrite id that the exact-match query found for one of the criteria arrays. */
  predicate IsOwnRecord(table: seq<UrlRewrite>, keys: seq<UrlKeyData>, id: nat)
  {
    exists j :: 0 <= j < |keys| && OwnMatchId(table, keys[j]) == Some(id)
  }

  /**
   * A row that the broad query selects: its request path is the path of some
   * criteria array and its store id the store of some (possibly other) one.
   */
  predicate BroadMatch(row: UrlRewrite, keys: seq<UrlKeyData>)
  {
    (exists j :: 0 <= j < |keys| && keys[j].requestPath == Some(row.requestPath)) &&
    (exists j :: 0 <= j < |keys| && keys[j].storeId == Some(row.storeId))
  }

  /** The candidate is free when every row that the broad query selects is one of its own. */
  predicate Available(table: seq<UrlRewrite>, keys: seq<UrlKeyData>)
  {
    AvailableFrom(table, keys, 0)
  }

  /** Every row from index `i` on that the broad query selects is one of the candidate's own. */
  predicate AvailableFrom(table: seq<UrlRewrite>, keys: seq<UrlKeyData>, i: nat)
    decreases |table| - i
  {
    i >= |table| ||
    ((BroadMatch(table[i], keys) ==> IsOwnRecord(table, keys, table[i].urlRewriteId)) &&
     AvailableFrom(table, keys, i + 1))
  }

  /** Availability read as a statement about every row of the table. */
  lemma AvailableMeans(table: seq<UrlRewrite>, keys: seq<UrlKeyData>)
    ensures Available(table, keys) <==>
      forall i :: 0 <= i < |table| && BroadMatch(table[i], keys) ==> IsOwnRecord(table, keys, table[i].urlRewriteId)
  {
    AvailableFromMeans(table, keys, 0);
  }

  lemma {:induction false} AvailableFromMeans(table: seq<UrlRewrite>, keys: seq<UrlKeyData>, i: nat)
    requires i <= |table|
    ensures AvailableFrom(table, keys, i) <==>
      forall r :: i <= r < |table| && BroadMatch(table[r], keys) ==> IsOwnRecord(table, keys, table[r].urlRewriteId)
    decreases |table| - i
  {
    if i < |table| {
      AvailableFromMeans(table, keys, i + 1);
    }
  }

  /**
   * The broad query over the paths and store ids of the criteria arrays,
   * minus the entity's own records, is empty exactly when the candidate is
   * available.
   */
  lemma QueryDecidesAvailability(
    table: seq<UrlRewrite>, keys: seq<UrlKeyData>,
    paths: seq<Option<string>>, storeIds: seq<Option<nat>>, excluded: seq<nat>)
    requires |paths| == |keys| && |storeIds| == |keys|
    requires forall j :: 0 <= j < |keys| ==> paths[j] == keys[j].requestPath && storeIds[j] == keys[j].storeId
    requires forall id :: id in excluded <==> IsOwnRecord(table, keys, id)
    ensures Available(table, keys) <==>
      forall row :: row in FindAllByData(table, paths, storeIds) ==> row.urlRewriteId in excluded
  {
    forall row | row in table
      ensures BroadMatch(row, keys) <==> MatchesAny(row, paths, storeIds)
    {
      if BroadMatch(row, keys) {
        var p :| 0 <= p < |keys| && keys[p].requestPath == Some(row.requestPath);
        var s :| 0 <= s < |keys| && keys[s].storeId == Some(row.storeId);
        assert paths[p] == Some(row.requestPath) && storeIds[s] == Some(row.storeId);
      }
    }
    AvailableMeans(table, keys);
  }

  /** The number of values `generate` tries after the first one before it gives up. */
  const MaxRetries: nat := 100

  /** `substr(uniqid(rand(), true), 0, 4)`: at most the first four characters. */
  function Token(uniqid: string): (token: string)
    ensures |token| == if |uniqid| < 4 then |uniqid| else 4
    ensures token == uniqid[..|token|]
  {
    if |uniqid| < 4 then uniqid else uniqid[..4]
  }

  /** `makeUnique`: the value, a hyphen and a token. */
  function MakeUnique(value: string, uniqid: string): string
  {
    value + "-" + Token(uniqid)
  }

  /** The value is kept whole at the front, followed by one hyphen and the token. */
  lemma MakeUniqueShape(value: string, uniqid: string)
    ensures |MakeUnique(value, uniqid)| == |value| + 1 + |Token(uniqid)|
    ensures MakeUnique(value, uniqid)[..|value|] == value
    ensures MakeUnique(value, uniqid)[|value|] == '-'
    ensures MakeUnique(value, uniqid)[|value| + 1..] == Token(uniqid)
  {
  }

  /** The candidate value after `k` passes of the retry loop. */
  function Mutated(value: string, uniqids: seq<string>, k: nat): string
    requires k <= |uniqids|
  {
    if k == 0 then value else MakeUnique(Mutated(value, uniqids, k - 1), uniqids[k - 1])
  }

  /** What the availability check of the retry loop depends on, apart from the value. */
  datatype CheckContext = CheckContext(
    table: seq<UrlRewrite>,
    settings: SuffixSettings,
    config: ScopeConfig,
    entityId: Option<nat>,
    entityType: string,
    storeIds: seq<StoreIdValue>)

  /** The availability check for one candidate value. */
  predicate IsFree(ctx: CheckContext, value: string)
  {
    Available(ctx.table, ProjectedUrlKeys(ctx.settings, ctx.config, ctx.entityId, ctx.entityType, value, ctx.storeIds))
  }

  /** Whether each value the retry loop can try is free: entry `j` is the value after `j` passes. */
  function FreeFlags(ctx: CheckContext, value: string, uniqids: seq<string>): (flags: seq<bool>)
    requires MaxRetries <= |uniqids|
    ensures |flags| == MaxRetries + 1
  {
    FlagsUpTo(v => IsFree(ctx, v), value, uniqids, MaxRetries + 1)
  }

  /** `free` applied to the values after `0`, ..., `n - 1` passes. */
  function FlagsUpTo(free: string -> bool, value: string, uniqids: seq<string>, n: nat): (flags: seq<bool>)
    requires n <= |uniqids| + 1
    ensures |flags| == n
  {
    if n == 0 then [] else FlagsUpTo(free, value, uniqids, n - 1) + [free(Mutated(value, uniqids, n - 1))]
  }

  lemma {:induction false} FlagUpToAt(free: string -> bool, value: string, uniqids: seq<string>, n: nat, j: nat)
    requires n <= |uniqids| + 1 && j < n
    ensures FlagsUpTo(free, value, uniqids, n)[j] == free(Mutated(value, uniqids, j))
  {
    if j < n - 1 {
      FlagUpToAt(free, value, uniqids, n - 1, j);
    }
  }

  lemma FreeFlagAt(ctx: CheckContext, value: string, uniqids: seq<string>, j: nat)
    requires MaxRetries <= |uniqids| && j <= MaxRetries
    ensures FreeFlags(ctx, value, uniqids)[j] == IsFree(ctx, Mutated(value, uniqids, j))
  {
    FlagUpToAt(v => IsFree(ctx, v), value, uniqids, MaxRetries + 1, j);
  }

  /**
   * Starting from pass `i`, the number of passes after which the retry loop
   * stops: at the first free value, or at `MaxRetries`.
   */
  function RetryCount(flags: seq<bool>, i: nat): (k: nat)
    requires i <= MaxRetries < |flags|
    ensures i <= k <= MaxRetries
    decreases MaxRetries - i
  {
    if flags[i] || i == MaxRetries then i else RetryCount(flags, i + 1)
  }

  /**
   * The store ids whose paths `generate` checks: for a scoped attribute the
   * entity's own store id, widened to its website's stores (website scope and
   * a truthy id) or to every store (global scope); for an attribute without
   * scope, every store.
   */
  function StoreIdsToCheck(scope: AttributeScope, storeId: StoreIdValue, sm: StoreManager)
    : (r: Result<seq<StoreIdValue>, LookupError>)
  {
    match scope
    case ScopeWebsite =>
      if IsTruthy(storeId) then
        match GetStore(sm, storeId.id)
        case Err(e) => Err(e)
        case Ok(store) => Ok(AsStoreIds(WebsiteStoreIds(sm, store.websiteId)))
      else Ok([storeId])
    case ScopeStore => Ok([storeId])
    case ScopeGlobal => Ok(AsStoreIds(StoreIds(sm)))
    case NotScoped => Ok(AsStoreIds(StoreIds(sm)))
  }

  function AsStoreIds(ids: seq<nat>): (r: seq<StoreIdValue>)
    ensures |r| == |ids| && forall i :: 0 <= i < |ids| ==> r[i] == StoreId(ids[i])
  {
    seq(|ids|, i requires 0 <= i < |ids| => StoreId(ids[i]))
  }

  class UrlKeyGenerator {
    /** The rewrite table, the store manager and the configuration: read, never written. */
    const storage: seq<UrlRewrite>
    const storeManager: StoreManager
    const scopeConfig: ScopeConfig

    var defaultSuffix: Option<string>
    var xmlPathSuffix: Option<string>
    /** Suffixes read from the configuration, by store id. */
    var suffixes: map<nat, Option<string>>
    /** Null until `setAttribute` is called. */
    var attribute: Option<Attribute>

    /** How many times the configuration has been queried for a suffix. */
    ghost var configReads: nat

    constructor (
      storage: seq<UrlRewrite>, storeManager: StoreManager, scopeConfig: ScopeConfig,
      defaultSuffix: Option<string>, xmlPathSuffix: Option<string>)
      ensures this.storage == storage && this.storeManager == storeManager && this.scopeConfig == scopeConfig
      ensures this.defaultSuffix == defaultSuffix && this.xmlPathSuffix == xmlPathSuffix
      ensures suffixes == map[] && attribute == None && configReads == 0
    {
      this.storage := storage;
      this.storeManager := storeManager;
      this.scopeConfig := scopeConfig;
      this.defaultSuffix := defaultSuffix;
      this.xmlPathSuffix := xmlPathSuffix;
      suffixes := map[];
      attribute := None;
      configReads := 0;
    }

    method SetAttribute(attribute: Attribute)
      modifies this`attribute
      ensures this.attribute == Some(attribute)
    {
      this.attribute := Some(attribute);
    }

    method SetDefaultSuffix(suffix: Option<string>)
      modifies this`defaultSuffix
      ensures defaultSuffix == suffix
    {
      defaultSuffix := suffix;
    }

    /** Changing the path leaves suffixes already cached under the old path in place. */
    method SetSuffixXmlConfigPath(path: Option<string>)
      modifies this`xmlPathSuffix
      ensures xmlPathSuffix == path
    {
      xmlPathSuffix := path;
    }

    function Settings(): SuffixSettings
      reads this
    {
      SuffixSettings(defaultSuffix, xmlPathSuffix, suffixes)
    }

    /**
     * `getSuffix`: the configured suffix of a numeric store id when a config
     * path is set, read through the cache; the default suffix otherwise.
     */
    method GetSuffix(storeId: StoreIdValue) returns (suffix: Option<string>)
      modifies this`suffixes, this`configReads
      ensures suffix == Suffix(old(Settings()), scopeConfig, storeId)
      ensures SameSuffixes(Settings(), old(Settings()), scopeConfig)
      ensures !IsSetPath(xmlPathSuffix) || storeId.NoStoreId? ==> suffix == defaultSuffix
      ensures IsSetPath(xmlPathSuffix) && storeId.StoreId? ==>
        storeId.id in suffixes && suffixes[storeId.id] == suffix &&
        (IsCached(old(suffixes), storeId.id) ==> suffix == old(suffixes)[storeId.id])
      ensures suffixes == CacheAfter(old(Settings()), scopeConfig, storeId)
      ensures configReads == old(configReads) + if NeedsRead(old(Settings()), storeId) then 1 else 0
    {
      if IsSetPath(xmlPathSuffix) && storeId.StoreId? {
        if !IsCached(suffixes, storeId.id) {
          suffixes := suffixes[storeId.id := ConfigValue(scopeConfig, xmlPathSuffix.value, storeId.id)];
          configReads := configReads + 1;
        }
        suffix := suffixes[storeId.id];
        return;
      }
      suffix := defaultSuffix;
    }

    /** `getProjectedUrlKeys`: builds one criteria array per store id. */
    method GetProjectedUrlKeys(entity: Entity, value: string, storeIds: seq<StoreIdValue>)
      returns (urlKeys: seq<UrlKeyData>)
      requires attribute.Some?
      modifies this`suffixes, this`configReads
      ensures SameSuffixes(Settings(), old(Settings()), scopeConfig)
      ensures suffixes == FilledCache(old(Settings()), scopeConfig, storeIds)
      ensures configReads == old(configReads) + ReadsToFill(old(Settings()), scopeConfig, storeIds)
      ensures urlKeys ==
        ProjectedUrlKeys(old(Settings()), scopeConfig, entity.id, attribute.value.entityTypeCode, value, storeIds)
    {
      ghost var settings0 := Settings();
      ghost var reads0 := configReads;
      ghost var expected := ProjectedUrlKeys(settings0, scopeConfig, entity.id, attribute.value.entityTypeCode, value, storeIds);
      urlKeys := [];
      for i := 0 to |storeIds|
        invariant suffixes == FilledCache(settings0, scopeConfig, storeIds[..i])
        invariant configReads == reads0 + ReadsToFill(settings0, scopeConfig, storeIds[..i])
        invariant urlKeys == expected[..i]
      {
        var urlKeyData := ProjectNext(entity, value, storeIds, i, settings0, reads0);
        PrefixStep(expected, i);
        urlKeys := urlKeys + [urlKeyData];
      }
      assert storeIds[..|storeIds|] == storeIds;
      assert expected[..|storeIds|] == expected;
      FilledKeepsSuffixes(settings0, scopeConfig, storeIds);
    }

    /**
     * Pass `i` of the loop of `getProjectedUrlKeys`, in terms of the settings
     * the loop started from: the cache and the read count grow as for one
     * more store id, and the record uses the suffix in force at the start.
     */
    method ProjectNext(entity: Entity, value: string, storeIds: seq<StoreIdValue>, i: nat,
                       ghost settings0: SuffixSettings, ghost reads0: nat)
      returns (urlKeyData: UrlKeyData)
      requires attribute.Some? && i < |storeIds|
      requires Settings() == settings0.(cache := FilledCache(settings0, scopeConfig, storeIds[..i]))
      requires configReads == reads0 + ReadsToFill(settings0, scopeConfig, storeIds[..i])
      modifies this`suffixes, this`configReads
      ensures suffixes == FilledCache(settings0, scopeConfig, storeIds[..i + 1])
      ensures configReads == reads0 + ReadsToFill(settings0, scopeConfig, storeIds[..i + 1])
      ensures urlKeyData == ProjectedUrlKey(entity.id, attribute.value.entityTypeCode, value, storeIds[i],
                                            Suffix(settings0, scopeConfig, storeIds[i]))
    {
      FillStep(settings0, scopeConfig, storeIds, i);
      FilledKeepsSuffix(settings0, scopeConfig, storeIds[..i], storeIds[i]);
      urlKeyData := ProjectForStore(entity, value, storeIds[i]);
    }

    /**
     * One pass of the loop of `getProjectedUrlKeys`: the store's suffix, the
     * value with one trailing copy of it removed and the suffix appended, and
     * the criteria array without its empty fields.
     */
    method ProjectForStore(entity: Entity, value: string, storeId: StoreIdValue) returns (urlKeyData: UrlKeyData)
      requires attribute.Some?
      modifies this`suffixes, this`configReads
      ensures suffixes == CacheAfter(old(Settings()), scopeConfig, storeId)
      ensures configReads == old(configReads) + if NeedsRead(old(Settings()), storeId) then 1 else 0
      ensures urlKeyData == ProjectedUrlKey(entity.id, attribute.value.entityTypeCode, value, storeId,
                                            Suffix(old(Settings()), scopeConfig, storeId))
    {
      var objectId := entity.id;
      var entityType := attribute.value.entityTypeCode;
      var suffix := GetSuffix(storeId);
      var rawValue := StripSuffix(value, SuffixText(suffix));
      var finalValue := rawValue + SuffixText(suffix);
      urlKeyData := UrlKeyData(
        if storeId.StoreId? then Some(storeId.id) else None,
        objectId,
        if entityType == "" then None else Some(entityType),
        if finalValue == "" then None else Some(finalValue));
    }

    /**
     * `checkUrlKeyAvailability`: collects the ids of the entity's own records
     * (exact matches), the request paths and the store ids, queries every row
     * with one of those paths in one of those stores, and drops the own ones.
     */
    method CheckUrlKeyAvailability(urlKeyData: seq<UrlKeyData>) returns (available: bool)
      ensures available == Available(storage, urlKeyData)
    {
      var excludeValueIds: seq<nat> := [];
      var requestPaths: seq<Option<string>> := [];
      var storeIds: seq<Option<nat>> := [];
      for i := 0 to |urlKeyData|
        invariant |requestPaths| == i && |storeIds| == i
        invariant forall j :: 0 <= j < i ==>
          requestPaths[j] == urlKeyData[j].requestPath && storeIds[j] == urlKeyData[j].storeId
        invariant forall id :: id in excludeValueIds <==>
          exists j :: 0 <= j < i && OwnMatchId(storage, urlKeyData[j]) == Some(id)
      {
        var rewrite := FindOneByData(storage, urlKeyData[i]);
        if rewrite.Some? {
          excludeValueIds := excludeValueIds + [rewrite.value.urlRewriteId];
        }
        requestPaths := requestPaths + [urlKeyData[i].requestPath];
        storeIds := storeIds + [urlKeyData[i].storeId];
      }

      var rewrites := FindAllByData(storage, requestPaths, storeIds);
      var remaining: seq<UrlRewrite> := [];
      for k := 0 to |rewrites|
        invariant remaining == [] <==> forall j :: 0 <= j < k ==> rewrites[j].urlRewriteId in excludeValueIds
      {
        if rewrites[k].urlRewriteId !in excludeValueIds {
          remaining := remaining + [rewrites[k]];
        }
      }
      available := remaining == [];
      QueryDecidesAvailability(storage, urlKeyData, requestPaths, storeIds, excludeValueIds);
    }

    /**
     * `generate`: checks the attribute's value in the stores its scope reaches
     * and, while it collides, appends `-` and a token from `uniqids` to the
     * current value, at most `MaxRetries` times. Returns the last value tried,
     * without the suffix, whether or not it is free.
     */
    method Generate(entity: Entity, uniqids: seq<string>) returns (result: Result<string, LookupError>, ghost checks: nat)
      requires attribute.Some?
      requires MaxRetries <= |uniqids|
      modifies this`suffixes, this`configReads
      ensures SameSuffixes(Settings(), old(Settings()), scopeConfig)
      ensures StoreIdsToCheck(attribute.value.scope, entity.storeId, storeManager).Err? ==>
        result == Err(StoreIdsToCheck(attribute.value.scope, entity.storeId, storeManager).error) && checks == 0
      ensures StoreIdsToCheck(attribute.value.scope, entity.storeId, storeManager).Ok? ==>
        var value := AttributeValue(entity, attribute.value.attributeCode);
        var ctx := CheckContext(storage, old(Settings()), scopeConfig, entity.id, attribute.value.entityTypeCode,
                                StoreIdsToCheck(attribute.value.scope, entity.storeId, storeManager).value);
        var k := RetryCount(FreeFlags(ctx, value, uniqids), 0);
        result == Ok(Mutated(value, uniqids, k)) && checks == k + 1
      ensures StoreIdsToCheck(attribute.value.scope, entity.storeId, storeManager).Err? ==>
        suffixes == old(suffixes) && configReads == old(configReads)
      ensures StoreIdsToCheck(attribute.value.scope, entity.storeId, storeManager).Ok? ==>
        var storeIds := StoreIdsToCheck(attribute.value.scope, entity.storeId, storeManager).value;
        suffixes == FilledCache(old(Settings()), scopeConfig, storeIds) &&
        configReads == old(configReads) + ReadsToFill(old(Settings()), scopeConfig, storeIds)
          + RepeatedReads(checks - 1, ReadsToFill(old(Settings()).(cache := suffixes), scopeConfig, storeIds))
    {
      var value := AttributeValue(entity, attribute.value.attributeCode);
      var scoped := StoreIdsToCheck(attribute.value.scope, entity.storeId, storeManager);
      if scoped.Err? {
        result, checks := Err(scoped.error), 0;
        return;
      }
      var unique;
      unique, checks := RetryUntilAvailable(entity, value, scoped.value, uniqids);
      result := Ok(unique);
    }

    /**
     * The retry loop of `generate`: checks `value`, then, while the check
     * fails and fewer than `MaxRetries` passes were made, appends a token and
     * checks again. `checks` counts the availability checks.
     */
    method RetryUntilAvailable(entity: Entity, value: string, storeIds: seq<StoreIdValue>, uniqids: seq<string>)
      returns (unique: string, ghost checks: nat)
      requires attribute.Some?
      requires MaxRetries <= |uniqids|
      modifies this`suffixes, this`configReads
      ensures SameSuffixes(Settings(), old(Settings()), scopeConfig)
      ensures
        var ctx := CheckContext(storage, old(Settings()), scopeConfig, entity.id, attribute.value.entityTypeCode, storeIds);
        var k := RetryCount(FreeFlags(ctx, value, uniqids), 0);
        unique == Mutated(value, uniqids, k) && checks == k + 1
      ensures suffixes == FilledCache(old(Settings()), scopeConfig, storeIds)
      ensures configReads == old(configReads) + ReadsToFill(old(Settings()), scopeConfig, storeIds)
        + RepeatedReads(checks - 1, ReadsToFill(old(Settings()).(cache := suffixes), scopeConfig, storeIds))
    {
      ghost var ctx := CheckContext(storage, Settings(), scopeConfig, entity.id, attribute.value.entityTypeCode, storeIds);
      ghost var filled := FilledCache(ctx.settings, scopeConfig, storeIds);
      ghost var laterReads := ReadsToFill(ctx.settings.(cache := filled), scopeConfig, storeIds);

      var available := IsAvailable(entity, value, storeIds, ctx);
      FreeFlagAt(ctx, value, uniqids, 0);
      unique, checks := RetryWhileTaken(entity, value, storeIds, uniqids, available, ctx, filled, laterReads);
    }

    /**
     * What the retry loop keeps after its first check: the context of that
     * check, the cache as it filled it, and the reads a second fill makes.
     */
    ghost predicate RetryReady(entity: Entity, storeIds: seq<StoreIdValue>, ctx: CheckContext,
                               filled: map<nat, Option<string>>, laterReads: nat)
      reads this
    {
      attribute.Some? &&
      ctx == CheckContext(storage, ctx.settings, scopeConfig, entity.id, attribute.value.entityTypeCode, storeIds) &&
      filled == FilledCache(ctx.settings, scopeConfig, storeIds) &&
      laterReads == ReadsToFill(ctx.settings.(cache := filled), scopeConfig, storeIds) &&
      Settings() == ctx.settings.(cache := filled)
    }

    /**
     * The loop of `generate` after its first check: while the last value
     * checked is taken and fewer than `MaxRetries` passes were made, appends a
     * token and checks again.
     */
    method RetryWhileTaken(entity: Entity, value: string, storeIds: seq<StoreIdValue>, uniqids: seq<string>,
                           firstAvailable: bool, ghost ctx: CheckContext,
                           ghost filled: map<nat, Option<string>>, ghost laterReads: nat)
      returns (unique: string, ghost checks: nat)
      requires MaxRetries <= |uniqids|
      requires RetryReady(entity, storeIds, ctx, filled, laterReads)
      requires firstAvailable == FreeFlags(ctx, value, uniqids)[0]
      modifies this`suffixes, this`configReads
      ensures
        var k := RetryCount(FreeFlags(ctx, value, uniqids), 0);
        unique == Mutated(value, uniqids, k) && checks == k + 1
      ensures suffixes == filled
      ensures configReads == old(configReads) + RepeatedReads(checks - 1, laterReads)
    {
      ghost var flags := FreeFlags(ctx, value, uniqids);
      ghost var reads0 := configReads;
      unique := value;
      var available := firstAvailable;
      var i := 1;
      while !available && i <= MaxRetries
        invariant 1 <= i <= MaxRetries + 1
        invariant unique == Mutated(value, uniqids, i - 1)
        invariant available == flags[i - 1]
        invariant RetryCount(flags, 0) == RetryCount(flags, i - 1)
        invariant RetryReady(entity, storeIds, ctx, filled, laterReads)
        invariant configReads == reads0 + RepeatedReads(i - 1, laterReads)
        decreases MaxRetries + 1 - i
      {
        unique, available := RetryPass(entity, value, storeIds, uniqids, i, unique, ctx, filled, laterReads);
        i := i + 1;
      }
      checks := i;
    }

    /**
     * Pass `j` of the retry loop: appends the token of `uniqids[j - 1]` to the
     * value of the previous pass and checks the result. The cache was filled
     * by the first check, so it stays as it is, and the configuration is
     * queried again only for store ids whose suffix is null.
     */
    method RetryPass(entity: Entity, value: string, storeIds: seq<StoreIdValue>, uniqids: seq<string>, j: nat,
                     current: string, ghost ctx: CheckContext,
                     ghost filled: map<nat, Option<string>>, ghost laterReads: nat)
      returns (next: string, available: bool)
      requires 1 <= j <= MaxRetries <= |uniqids|
      requires current == Mutated(value, uniqids, j - 1)
      requires RetryReady(entity, storeIds, ctx, filled, laterReads)
      modifies this`suffixes, this`configReads
      ensures RetryReady(entity, storeIds, ctx, filled, laterReads)
      ensures configReads == old(configReads) + laterReads
      ensures next == Mutated(value, uniqids, j)
      ensures available == FreeFlags(ctx, value, uniqids)[j]
    {
      next := MakeUnique(current, uniqids[j - 1]);
      FilledKeepsSuffixes(ctx.settings, scopeConfig, storeIds);
      RefillKeepsCache(ctx.settings, scopeConfig, storeIds);
      available := IsAvailable(entity, next, storeIds, ctx);
      FreeFlagAt(ctx, value, uniqids, j);
    }

    /**
     * One availability check of the retry loop: the projected criteria arrays
     * of `value`, checked against the table. The suffixes it reads are those
     * of `ctx.settings`, which the cache keeps.
     */
    method IsAvailable(entity: Entity, value: string, storeIds: seq<StoreIdValue>, ghost ctx: CheckContext)
      returns (available: bool)
      requires attribute.Some?
      requires ctx == CheckContext(storage, ctx.settings, scopeConfig, entity.id, attribute.value.entityTypeCode, storeIds)
      requires SameSuffixes(Settings(), ctx.settings, scopeConfig)
      modifies this`suffixes, this`configReads
      ensures SameSuffixes(Settings(), ctx.settings, scopeConfig)
      ensures suffixes == FilledCache(old(Settings()), scopeConfig, storeIds)
      ensures configReads == old(configReads) + ReadsToFill(old(Settings()), scopeConfig, storeIds)
      ensures available == IsFree(ctx, value)
    {
      ghost var settings := Settings();
      var urlKeys := GetProjectedUrlKeys(entity, value, storeIds);
      ProjectionsAgree(settings, ctx.settings, scopeConfig, entity.id, attribute.value.entityTypeCode, value, storeIds);
      available := CheckUrlKeyAvailability(urlKeys);
    }
  }

  /** The projection depends on the settings only through the suffixes they yield. */
  lemma ProjectionsAgree(
    a: SuffixSettings, b: SuffixSettings, config: ScopeConfig,
    entityId: Option<nat>, entityType: string, value: string, storeIds: seq<StoreIdValue>)
    requires SameSuffixes(a, b, config)
    ensures ProjectedUrlKeys(a, config, entityId, entityType, value, storeIds)
         == ProjectedUrlKeys(b, config, entityId, entityType, value, storeIds)
  {
  }
}
