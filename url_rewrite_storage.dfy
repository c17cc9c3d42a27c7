/**
 * The URL-rewrite storage that the generator queries. Its internals belong
 * to the platform; this module fixes only what the generator relies on: a
 * table of rewrite records, a lookup of the first record that matches every
 * given field, and a lookup of all records whose request path and store id
 * are each among a list of values.
 */
module UrlRewriteStorage {
  import opened Wrappers

  /** One stored rewrite record (a row of the rewrite table). */
  datatype UrlRewrite = UrlRewrite(
    urlRewriteId: nat,
    storeId: nat,
    entityId: nat,
    entityType: string,
    requestPath: string)

  /**
   * The criteria array built for one store: a field whose string form is
   * empty has been dropped from it, which is written here as `None`.
   */
  datatype UrlKeyData = UrlKeyData(
    storeId: Option<nat>,
    entityId: Option<nat>,
    entityType: Option<string>,
    requestPath: Option<string>)

  /** A row matches a criteria array when it agrees with every field present in it. */
  predicate MatchesData(row: UrlRewrite, data: UrlKeyData)
  {
    (data.storeId.None? || data.storeId.value == row.storeId) &&
    (data.entityId.None? || data.entityId.value == row.entityId) &&
    (data.entityType.None? || data.entityType.value == row.entityType) &&
    (data.requestPath.None? || data.requestPath.value == row.requestPath)
  }

  /** `findOneByData`: the first row, in table order, that matches `data`. */
  function FindOneByData(table: seq<UrlRewrite>, data: UrlKeyData): (found: Option<UrlRewrite>)
    ensures found.Some? ==> found.value in table && MatchesData(found.value, data)
    ensures found.None? <==> forall i :: 0 <= i < |table| ==> !MatchesData(table[i], data)
  {
    if table == [] then None
    else if MatchesData(table[0], data) then Some(table[0])
    else FindOneByData(table[1..], data)
  }

  /**
   * A row is selected by `findAllByData` with the criteria
   * `request_path IN paths AND store_id IN storeIds`. A null in a list
   * (a field that was missing from a criteria array) is taken to match no
   * row, as SQL's `IN` does with a null; how the storage really quotes a
   * null is not part of this model.
   */
  predicate MatchesAny(row: UrlRewrite, paths: seq<Option<string>>, storeIds: seq<Option<nat>>)
  {
    Some(row.requestPath) in paths && Some(row.storeId) in storeIds
  }

  /** `findAllByData`: every row selected by the two membership criteria, in table order. */
  function FindAllByData(table: seq<UrlRewrite>, paths: seq<Option<string>>, storeIds: seq<Option<nat>>)
    : (rows: seq<UrlRewrite>)
    ensures forall row :: row in rows <==> row in table && MatchesAny(row, paths, storeIds)
  {
    if table == [] then []
    else
      var rest := FindAllByData(table[1..], paths, storeIds);
      if MatchesAny(table[0], paths, storeIds) then [table[0]] + rest else rest
  }

  /** Rewrite ids are the table's primary key. */
  predicate UniqueIds(table: seq<UrlRewrite>)
  {
    forall i, j :: 0 <= i < j < |table| ==> table[i].urlRewriteId != table[j].urlRewriteId
  }
}
