/**
 * The store manager that the generator asks for store ids. Only what the
 * generator uses is modelled: the list of stores, each with the website it
 * belongs to, where store 0 is the admin (default) store.
 */
module StoreManagement {
  import opened Wrappers

  /** The id of the admin store, which `getStores(false)` leaves out. */
  const AdminStoreId: nat := 0

  datatype Store = Store(id: nat, websiteId: nat)

  /** The store manager's view of the installation: every store, admin store included. */
  type StoreManager = seq<Store>

  datatype LookupError = NoSuchStore(storeId: nat)

  /** `array_keys(getStores(false))`: the ids of all stores but the admin store, in order. */
  function StoreIds(sm: StoreManager): (ids: seq<nat>)
    ensures forall id :: id in ids <==> id != AdminStoreId && exists s :: s in sm && s.id == id
  {
    if sm == [] then []
    else
      var rest := StoreIds(sm[1..]);
      assert forall s :: s in sm <==> s == sm[0] || s in sm[1..];
      if sm[0].id == AdminStoreId then rest else [sm[0].id] + rest
  }

  /** `getStore($id)`: the first store with that id, or a `NoSuchEntityException`. */
  function GetStore(sm: StoreManager, id: nat): (r: Result<Store, LookupError>)
    ensures r.Ok? ==> r.value in sm && r.value.id == id
    ensures r.Err? <==> forall s :: s in sm ==> s.id != id
    ensures r.Err? ==> r.error == NoSuchStore(id)
  {
    if sm == [] then Err(NoSuchStore(id))
    else if sm[0].id == id then Ok(sm[0])
    else
      assert forall s :: s in sm <==> s == sm[0] || s in sm[1..];
      GetStore(sm[1..], id)
  }

  /** `getWebsite()->getStoreIds()`: the ids of every store of one website, in order. */
  function WebsiteStoreIds(sm: StoreManager, websiteId: nat): (ids: seq<nat>)
    ensures forall id :: id in ids <==> exists s :: s in sm && s.id == id && s.websiteId == websiteId
  {
    if sm == [] then []
    else
      var rest := WebsiteStoreIds(sm[1..], websiteId);
      assert forall s :: s in sm <==> s == sm[0] || s in sm[1..];
      if sm[0].websiteId == websiteId then [sm[0].id] + rest else rest
  }
}
