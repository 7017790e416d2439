/** The `/store` and `/store/<id>` handlers. None of them asks for a token. */
module StoreResource {
  import opened Catalog

  /** GET /store/<id>: the store, or 404. */
  function GetStore(s: State, id: int): (r: Result<Store>)
    ensures r.Found? <==> id in s.stores
    ensures r.Found? ==> r.value == s.stores[id]
    ensures r.Failed? ==> r.status == NotFound
  {
    if id in s.stores then Found(s.stores[id]) else Failed(NotFound)
  }

  /** GET /store: every store. */
  function ListStores(s: State): (r: map<int, Store>)
    ensures forall id :: id in r <==> GetStore(s, id).Found?
    ensures forall id :: id in r ==> GetStore(s, id) == Found(r[id])
  {
    s.stores
  }

  /** The items of store `id`: the ones its deletion cascades to. */
  function ItemsOfStore(s: State, id: int): set<int>
  {
    set i | i in s.items && s.items[i].storeId == id
  }

  /** The tags once store `id` is gone: the relationship declares no
      cascade, so the store's tags stay and their store column is set to
      NULL; every other tag is kept as it is. */
  function OrphanTags(tags: map<int, Tag>, id: int): map<int, Tag>
  {
    map t | t in tags :: if tags[t].storeId == Some(id) then tags[t].(storeId := None) else tags[t]
  }

  /** DELETE /store/<id>: 404 if absent; otherwise the store goes, and with
      it every item of the store (`cascade="all, delete"`) and the link
      rows of those items. Its tags stay, without a store. The commit is
      not guarded, so a database error is a 500. */
  function DeleteStore(s: State, id: int, fault: DbFault): (r: Step)
    ensures r.status == NotFound <==> id !in s.stores
    ensures r.status == Ok <==> id in s.stores && fault.NoFault?
    ensures r.status in {Ok, NotFound, ServerError}
    ensures r.status != Ok ==> r.state == s
    ensures r.status == Ok ==>
      && r.state.stores.Keys == s.stores.Keys - {id}
      && (forall j :: j in r.state.stores ==> r.state.stores[j] == s.stores[j])
      && (forall i :: i in r.state.items ==> r.state.items[i].storeId != id)
      && (forall i :: i in s.items && s.items[i].storeId != id ==>
            i in r.state.items && r.state.items[i] == s.items[i])
      && r.state.items.Keys <= s.items.Keys
      && r.state.items == (map i | i in s.items && s.items[i].storeId != id :: s.items[i])
      && (forall k :: k in r.state.links ==> r.state.links[k].itemId !in ItemsOfStore(s, id))
      && (forall k :: k in r.state.links ==> k in s.links && r.state.links[k] == s.links[k])
      && (forall k :: k in s.links && s.links[k].itemId in r.state.items ==> k in r.state.links)
      && r.state.tags.Keys == s.tags.Keys
      && (forall t :: t in s.tags && s.tags[t].storeId == Some(id) ==>
            r.state.tags[t] == Tag(s.tags[t].name, None))
      && (forall t :: t in s.tags && s.tags[t].storeId != Some(id) ==> r.state.tags[t] == s.tags[t])
      && r.state.users == s.users
  {
    if id !in s.stores then Step(NotFound, s)
    else
      var gone := ItemsOfStore(s, id);
      var next := s.(stores := s.stores - {id},
                     items := s.items - gone,
                     tags := OrphanTags(s.tags, id),
                     links := DropLinksOf(s.links, gone));
      Commit(s, next, Ok, fault)
  }

  /** POST /store: the database assigns the fresh key `newId`. A constraint
      violation is answered with 400, any other database error with 500. */
  function CreateStore(s: State, name: string, newId: int, fault: DbFault): (r: Step)
    requires newId !in s.stores
    ensures r.status == Created <==> fault.NoFault?
    ensures r.status == BadRequest <==> fault.IntegrityViolation?
    ensures r.status == ServerError <==> fault.OtherDbError?
    ensures r.status != Created ==> r.state == s
    ensures r.status == Created ==>
      && newId in r.state.stores && r.state.stores[newId] == Store(name)
      && r.state.stores.Keys == s.stores.Keys + {newId}
      && (forall j :: j in s.stores ==> r.state.stores[j] == s.stores[j])
      && r.state.items == s.items && r.state.tags == s.tags
      && r.state.links == s.links && r.state.users == s.users
  {
    match fault
    case NoFault => Step(Created, s.(stores := s.stores[newId := Store(name)]))
    case IntegrityViolation => Step(BadRequest, s)
    case OtherDbError => Step(ServerError, s)
  }

  /** A created store can be read back under its key, and the number of
      stores grows by one. */
  lemma CreateThenGetStore(s: State, name: string, newId: int)
    requires newId !in s.stores
    ensures GetStore(CreateStore(s, name, newId, NoFault).state, newId) == Found(Store(name))
    ensures |CreateStore(s, name, newId, NoFault).state.stores| == |s.stores| + 1
  {
  }

  /** Store names are not unique (`unique=False`): creating a store whose
      name is already taken succeeds when the commit does. */
  lemma StoreNamesNotUnique(s: State, id: int, newId: int)
    requires id in s.stores && newId !in s.stores
    ensures CreateStore(s, s.stores[id].name, newId, NoFault).status == Created
  {
  }

  /** After a successful delete the store cannot be read, its former items
      are gone, and no item refers to it any more. */
  lemma DeleteThenGetStore(s: State, id: int)
    requires id in s.stores
    ensures GetStore(DeleteStore(s, id, NoFault).state, id) == Failed(NotFound)
    ensures ItemsOfStore(DeleteStore(s, id, NoFault).state, id) == {}
    ensures forall i :: i in ItemsOfStore(s, id) ==> i !in DeleteStore(s, id, NoFault).state.items
  {
  }

  lemma DeleteStorePreservesValid(s: State, id: int, fault: DbFault)
    requires Valid(s)
    ensures Valid(DeleteStore(s, id, fault).state)
  {
  }

  lemma CreateStorePreservesValid(s: State, name: string, newId: int, fault: DbFault)
    requires Valid(s) && newId !in s.stores
    ensures Valid(CreateStore(s, name, newId, fault).state)
  {
  }
}
