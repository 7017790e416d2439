/** The `/item` and `/item/<id>` handlers. Reading, listing, creating and
    deleting items need a valid access token (`auth` is `None` without one);
    deleting also needs the token's `is_admin` claim. The upsert (PUT)
    needs no token. */
module ItemResource {
  import opened Catalog

  /** The request body of POST /item and PUT /item/<id>. On the update path
      of PUT only `name` and `price` are used. */
  datatype ItemData = ItemData(name: string, price: int, storeId: int)

  function ItemOf(data: ItemData): Item
  {
    Item(data.name, data.price, data.storeId)
  }

  /** GET /item/<id> */
  function GetItem(s: State, auth: Option<Claims>, id: int): (r: Result<Item>)
    ensures r.Failed? && r.status == Unauthorized <==> auth.None?
    ensures r.Failed? && r.status == NotFound <==> auth.Some? && id !in s.items
    ensures r.Found? ==> auth.Some? && id in s.items && r.value == s.items[id]
    ensures auth.Some? && id in s.items ==> r.Found?
  {
    if auth.None? then Failed(Unauthorized)
    else if id !in s.items then Failed(NotFound)
    else Found(s.items[id])
  }

  /** GET /item */
  function ListItems(s: State, auth: Option<Claims>): (r: Result<map<int, Item>>)
    ensures r.Failed? <==> auth.None?
    ensures r.Failed? ==> r.status == Unauthorized
    ensures r.Found? ==> forall id :: id in r.value <==> GetItem(s, auth, id).Found?
    ensures r.Found? ==> forall id :: id in r.value ==> GetItem(s, auth, id) == Found(r.value[id])
  {
    if auth.None? then Failed(Unauthorized) else Found(s.items)
  }

  /** The item goes together with its link rows. */
  function RemoveItem(s: State, id: int): State
  {
    s.(items := s.items - {id}, links := DropLinksOf(s.links, {id}))
  }

  /** DELETE /item/<id>: a token without the admin claim is refused with 401
      before the item is looked up, so even a missing item gives 401. */
  function DeleteItem(s: State, auth: Option<Claims>, id: int, fault: DbFault): (r: Step)
    ensures r.status == Unauthorized <==> auth.None? || !auth.value.isAdmin
    ensures r.status == NotFound <==> auth.Some? && auth.value.isAdmin && id !in s.items
    ensures r.status == Ok <==> auth.Some? && auth.value.isAdmin && id in s.items && fault.NoFault?
    ensures r.status in {Ok, Unauthorized, NotFound, ServerError}
    ensures r.status != Ok ==> r.state == s
    ensures r.status == Ok ==>
      && r.state.items.Keys == s.items.Keys - {id}
      && (forall i :: i in r.state.items ==> r.state.items[i] == s.items[i])
      && (forall k :: k in r.state.links ==> k in s.links && r.state.links[k] == s.links[k])
      && (forall k :: k in r.state.links ==> r.state.links[k].itemId != id)
      && (forall k :: k in s.links && s.links[k].itemId != id ==> k in r.state.links)
      && r.state.stores == s.stores && r.state.tags == s.tags && r.state.users == s.users
  {
    if auth.None? || !auth.value.isAdmin then Step(Unauthorized, s)
    else if id !in s.items then Step(NotFound, s)
    else Commit(s, RemoveItem(s, id), Ok, fault)
  }

  /** PUT /item/<id>: updates name and price of an existing item, otherwise
      inserts a new item under the caller's id. */
  function PutItem(s: State, id: int, data: ItemData, fault: DbFault): (r: Step)
    ensures r.status == Ok <==> fault.NoFault?
    ensures r.status != Ok ==> r.status == ServerError && r.state == s
    ensures r.status == Ok ==>
      && id in r.state.items
      && r.state.items[id].name == data.name
      && r.state.items[id].price == data.price
      && (id in s.items ==> r.state.items[id].storeId == s.items[id].storeId)
      && (id !in s.items ==> r.state.items[id].storeId == data.storeId)
      && r.state.items.Keys == s.items.Keys + {id}
      && (forall i :: i in s.items && i != id ==> r.state.items[i] == s.items[i])
      && r.state.stores == s.stores && r.state.tags == s.tags
      && r.state.links == s.links && r.state.users == s.users
  {
    var item :=
      if id in s.items then s.items[id].(name := data.name, price := data.price)
      else ItemOf(data);
    Commit(s, s.(items := s.items[id := item]), Ok, fault)
  }

  /** POST /item: the database assigns the fresh key `newId`. The store id
      of the body is not checked. */
  function CreateItem(s: State, auth: Option<Claims>, data: ItemData, newId: int, fault: DbFault): (r: Step)
    requires newId !in s.items
    ensures r.status == Unauthorized <==> auth.None?
    ensures r.status == Created <==> auth.Some? && fault.NoFault?
    ensures r.status in {Created, Unauthorized, ServerError}
    ensures r.status != Created ==> r.state == s
    ensures r.status == Created ==>
      && r.state.items.Keys == s.items.Keys + {newId}
      && r.state.items[newId] == Item(data.name, data.price, data.storeId)
      && (forall i :: i in s.items ==> r.state.items[i] == s.items[i])
      && r.state.stores == s.stores && r.state.tags == s.tags
      && r.state.links == s.links && r.state.users == s.users
  {
    if auth.None? then Step(Unauthorized, s)
    else Commit(s, s.(items := s.items[newId := ItemOf(data)]), Created, fault)
  }

  /** PUT on an existing id keeps the number of items; on a missing id it
      adds one. */
  lemma PutItemCount(s: State, id: int, data: ItemData)
    ensures id in s.items ==> |PutItem(s, id, data, NoFault).state.items| == |s.items|
    ensures id !in s.items ==> |PutItem(s, id, data, NoFault).state.items| == |s.items| + 1
  {
  }

  /** A second PUT with the same id is an update in place: it keeps the item
      count and the store chosen by the first. */
  lemma PutItemTwice(s: State, id: int, first: ItemData, second: ItemData)
    ensures var s1 := PutItem(s, id, first, NoFault).state;
            var s2 := PutItem(s1, id, second, NoFault).state;
            && |s2.items| == |s1.items|
            && s2.items[id] == Item(second.name, second.price, s1.items[id].storeId)
  {
  }

  /** An item created by POST is read back with the body's fields, and the
      number of items grows by one. */
  lemma CreateThenGetItem(s: State, c: Claims, data: ItemData, newId: int)
    requires newId !in s.items
    ensures var s' := CreateItem(s, Some(c), data, newId, NoFault).state;
            && GetItem(s', Some(c), newId) == Found(Item(data.name, data.price, data.storeId))
            && |s'.items| == |s.items| + 1
  {
  }

  /** Deleting an item leaves no tag linked to it. */
  lemma DeleteItemUnlinks(s: State, u: int, id: int, tagId: int)
    requires id in s.items
    ensures id !in ItemsOfTag(DeleteItem(s, Some(Claims(u, true)), id, NoFault).state, tagId)
  {
  }

  lemma DeleteItemPreservesValid(s: State, auth: Option<Claims>, id: int, fault: DbFault)
    requires Valid(s)
    ensures Valid(DeleteItem(s, auth, id, fault).state)
  {
  }

  lemma PutItemPreservesValid(s: State, id: int, data: ItemData, fault: DbFault)
    requires Valid(s)
    ensures Valid(PutItem(s, id, data, fault).state)
  {
  }

  lemma CreateItemPreservesValid(s: State, auth: Option<Claims>, data: ItemData, newId: int, fault: DbFault)
    requires Valid(s) && newId !in s.items
    ensures Valid(CreateItem(s, auth, data, newId, fault).state)
  {
  }
}
