/** The in-memory demo service: two process-wide dictionaries of stores and
    items, each record a JSON object stored under a generated hex id, which
    the record also carries (`store_id`, `item_id`). The generated id is a
    parameter here. */
module Demo {
  import opened Catalog

  /** A JSON value of a request body. Values are only ever stored, copied
      and compared. */
  datatype Json = JStr(str: string) | JNum(num: int) | JOther(text: string)

  /** A JSON object. */
  type Record = map<string, Json>

  /** The two dictionaries. */
  datatype Registry = Registry(stores: map<string, Record>, items: map<string, Record>)

  /** A reply: the status, the created or found record if any, and the
      registry afterwards. */
  datatype Reply = Reply(status: Status, record: Option<Record>, registry: Registry)

  /** Every record is stored under the id it carries, and has the fields its
      creation demanded. */
  predicate DemoValid(reg: Registry)
  {
    && (forall k :: k in reg.stores ==>
          && "name" in reg.stores[k]
          && "store_id" in reg.stores[k] && reg.stores[k]["store_id"] == JStr(k))
    && (forall k :: k in reg.items ==>
          && "name" in reg.items[k] && "price" in reg.items[k]
          && "item_id" in reg.items[k] && reg.items[k]["item_id"] == JStr(k))
  }

  /** The request body with the generated id merged in, overriding any id
      the client sent. */
  function WithId(body: Record, key: string, id: string): (r: Record)
    ensures key in r && r[key] == JStr(id)
    ensures r.Keys == body.Keys + {key}
    ensures forall f :: f in body && f != key ==> r[f] == body[f]
  {
    body[key := JStr(id)]
  }

  /** GET /store: exactly the records a lookup by some id finds. */
  function GetStores(reg: Registry): (r: set<Record>)
    ensures forall v :: v in r <==> exists k :: GetStore(reg, k) == Found(v)
  {
    ValuesFound(reg);
    reg.stores.Values
  }

  /** GET /item: exactly the records a lookup by some id finds. */
  function GetAllItems(reg: Registry): (r: set<Record>)
    ensures forall v :: v in r <==> exists k :: GetItem(reg, k) == Found(v)
  {
    ValuesFound(reg);
    reg.items.Values
  }

  /** GET /store/<id>: the record, or 404. */
  function GetStore(reg: Registry, id: string): (r: Result<Record>)
    ensures r.Found? <==> id in reg.stores
    ensures r.Found? ==> r.value == reg.stores[id]
    ensures r.Failed? ==> r.status == NotFound
  {
    if id in reg.stores then Found(reg.stores[id]) else Failed(NotFound)
  }

  /** GET /item/<id>: the record, or 404. */
  function GetItem(reg: Registry, id: string): (r: Result<Record>)
    ensures r.Found? <==> id in reg.items
    ensures r.Found? ==> r.value == reg.items[id]
    ensures r.Failed? ==> r.status == NotFound
  {
    if id in reg.items then Found(reg.items[id]) else Failed(NotFound)
  }

  /** Every stored record is found by a lookup under its key. */
  lemma ValuesFound(reg: Registry)
    ensures forall v :: v in reg.stores.Values ==> exists k :: GetStore(reg, k) == Found(v)
    ensures forall v :: v in reg.items.Values ==> exists k :: GetItem(reg, k) == Found(v)
  {
    forall v | v in reg.stores.Values
      ensures exists k :: GetStore(reg, k) == Found(v)
    {
      var k :| k in reg.stores && reg.stores[k] == v;
      assert GetStore(reg, k) == Found(v);
    }
    forall v | v in reg.items.Values
      ensures exists k :: GetItem(reg, k) == Found(v)
    {
      var k :| k in reg.items && reg.items[k] == v;
      assert GetItem(reg, k) == Found(v);
    }
  }

  /** Storing a record under a fresh key adds exactly it to the values. */
  lemma ValuesOfInsert(m: map<string, Record>, key: string, v: Record)
    requires key !in m
    ensures m[key := v].Values == m.Values + {v}
  {
    forall w | w in m.Values
      ensures w in m[key := v].Values
    {
      var k :| k in m && m[k] == w;
      assert m[key := v][k] == w;
    }
    forall w | w in m[key := v].Values
      ensures w in m.Values + {v}
    {
      var k :| k in m[key := v] && m[key := v][k] == w;
      if k != key {
        assert m[k] == w;
      }
    }
    assert m[key := v][key] == v;
  }

  /** A stored record with the same value for every one of `fields`. */
  predicate Duplicate(records: map<string, Record>, candidate: Record, fields: set<string>)
  {
    exists k :: k in records && forall f :: f in fields ==>
      f in records[k] && f in candidate && records[k][f] == candidate[f]
  }

  /** POST /store as evidently intended: 400 unless the body has a name; a
      stored record with the same name and id is refused with 400;
      otherwise the record is stored under the generated id. */
  function CreateStore(reg: Registry, body: Record, freshId: string): (r: Reply)
    ensures "name" !in body ==> r.status == BadRequest
    ensures r.status != Created ==> r.registry == reg && r.record.None?
    ensures r.status == Created ==>
      && r.record.Some?
      && r.registry.stores == reg.stores[freshId := r.record.value]
      && r.registry.items == reg.items
      && r.record.value == WithId(body, "store_id", freshId)
      && "name" in r.record.value
    ensures DemoValid(reg) && freshId !in reg.stores && "name" in body ==> r.status == Created
  {
    var record := WithId(body, "store_id", freshId);
    if "name" !in record || "store_id" !in record then Reply(BadRequest, None, reg)
    else if Duplicate(reg.stores, record, {"name", "store_id"}) then Reply(BadRequest, None, reg)
    else Reply(Created, Some(record), reg.(stores := reg.stores[freshId := record]))
  }

  /** POST /store as written: 400 unless the body has a name; then the
      duplicate loop walks the dictionary's keys, which are strings, and
      indexes them with 'name'; that raises as soon as one store exists,
      and the request fails with 500. While none exists, the record is
      stored under the generated id. */
  function CreateStoreAsWritten(reg: Registry, body: Record, freshId: string): (r: Reply)
    ensures "name" !in body ==> r == Reply(BadRequest, None, reg)
    ensures r.status != Created ==> r.registry == reg && r.record.None?
    ensures r.status == Created <==> "name" in body && reg.stores == map[]
    ensures "name" in body && reg.stores != map[] ==> r.status == ServerError
    ensures r.status == Created ==>
      && r.record == Some(WithId(body, "store_id", freshId))
      && r.registry.stores == reg.stores[freshId := r.record.value]
      && r.registry.items == reg.items
  {
    var record := WithId(body, "store_id", freshId);
    if "name" !in record || "store_id" !in record then Reply(BadRequest, None, reg)
    else if reg.stores != map[] then Reply(ServerError, None, reg)
    else Reply(Created, Some(record), reg.(stores := reg.stores[freshId := record]))
  }

  /** POST /item as evidently intended: 400 unless the body has a name and a
      price; otherwise the record is stored under the generated id. */
  function CreateItem(reg: Registry, body: Record, freshId: string): (r: Reply)
    ensures "name" !in body || "price" !in body ==> r.status == BadRequest
    ensures r.status != Created ==> r.registry == reg && r.record.None?
    ensures r.status == Created ==>
      && r.record.Some?
      && r.registry.items == reg.items[freshId := r.record.value]
      && r.registry.stores == reg.stores
      && r.record.value == WithId(body, "item_id", freshId)
      && "name" in r.record.value && "price" in r.record.value
    ensures DemoValid(reg) && freshId !in reg.items && "name" in body && "price" in body ==>
      r.status == Created
  {
    var record := WithId(body, "item_id", freshId);
    if "name" !in record || "price" !in record || "item_id" !in record then Reply(BadRequest, None, reg)
    else if Duplicate(reg.items, record, {"name", "item_id"}) then Reply(BadRequest, None, reg)
    else Reply(Created, Some(record), reg.(items := reg.items[freshId := record]))
  }

  /** POST /item as written: 400 unless the body has a name and a price;
      then the duplicate loop fails like the one of POST /store as soon as
      one item exists. While none exists, the record is stored under the
      generated id. */
  function CreateItemAsWritten(reg: Registry, body: Record, freshId: string): (r: Reply)
    ensures "name" !in body || "price" !in body ==> r == Reply(BadRequest, None, reg)
    ensures r.status != Created ==> r.registry == reg && r.record.None?
    ensures r.status == Created <==> "name" in body && "price" in body && reg.items == map[]
    ensures "name" in body && "price" in body && reg.items != map[] ==> r.status == ServerError
    ensures r.status == Created ==>
      && r.record == Some(WithId(body, "item_id", freshId))
      && r.registry.items == reg.items[freshId := r.record.value]
      && r.registry.stores == reg.stores
  {
    var record := WithId(body, "item_id", freshId);
    if "name" !in record || "price" !in record || "item_id" !in record then Reply(BadRequest, None, reg)
    else if reg.items != map[] then Reply(ServerError, None, reg)
    else Reply(Created, Some(record), reg.(items := reg.items[freshId := record]))
  }

  /** The duplicate check can never fire: a stored record carries its own
      key as id, and the generated id is not yet a key. */
  lemma DuplicateCheckIsDead(records: map<string, Record>, key: string, candidate: Record, freshId: string)
    requires forall k :: k in records ==> key in records[k] && records[k][key] == JStr(k)
    requires freshId !in records
    requires key in candidate && candidate[key] == JStr(freshId)
    ensures !Duplicate(records, candidate, {"name", key})
  {
    forall k | k in records
      ensures records[k][key] != candidate[key]
    {
      assert k != freshId;
    }
  }

  lemma CreateStorePreservesValid(reg: Registry, body: Record, freshId: string)
    requires DemoValid(reg)
    ensures DemoValid(CreateStore(reg, body, freshId).registry)
  {
  }

  lemma CreateItemPreservesValid(reg: Registry, body: Record, freshId: string)
    requires DemoValid(reg)
    ensures DemoValid(CreateItem(reg, body, freshId).registry)
  {
  }

  /** A created store is found under the generated id, carrying that id,
      even when the client sent a `store_id` of its own. */
  lemma CreateThenGetStore(reg: Registry, body: Record, freshId: string)
    requires DemoValid(reg) && freshId !in reg.stores && "name" in body
    ensures var r := CreateStore(reg, body, freshId);
            && GetStore(r.registry, freshId) == Found(r.record.value)
            && r.record.value["store_id"] == JStr(freshId)
            && r.record.value["name"] == body["name"]
  {
  }

  /** A created item is found under the generated id, carrying that id. */
  lemma CreateThenGetItem(reg: Registry, body: Record, freshId: string)
    requires DemoValid(reg) && freshId !in reg.items && "name" in body && "price" in body
    ensures var r := CreateItem(reg, body, freshId);
            && GetItem(r.registry, freshId) == Found(r.record.value)
            && r.record.value["item_id"] == JStr(freshId)
            && r.record.value["name"] == body["name"] && r.record.value["price"] == body["price"]
  {
  }

  /** A created store is listed, next to every store listed before. */
  lemma CreateThenListStores(reg: Registry, body: Record, freshId: string)
    requires freshId !in reg.stores
    ensures var r := CreateStore(reg, body, freshId);
            r.status == Created ==>
              && r.record.value in GetStores(r.registry)
              && GetStores(r.registry) == GetStores(reg) + {r.record.value}
  {
    var r := CreateStore(reg, body, freshId);
    if r.status == Created {
      ValuesOfInsert(reg.stores, freshId, r.record.value);
    }
  }

  /** A created item is listed, next to every item listed before. */
  lemma CreateThenListItems(reg: Registry, body: Record, freshId: string)
    requires freshId !in reg.items
    ensures var r := CreateItem(reg, body, freshId);
            r.status == Created ==>
              && r.record.value in GetAllItems(r.registry)
              && GetAllItems(r.registry) == GetAllItems(reg) + {r.record.value}
  {
    var r := CreateItem(reg, body, freshId);
    if r.status == Created {
      ValuesOfInsert(reg.items, freshId, r.record.value);
    }
  }

  /** The discrepancy, on two stores in a row: as written the second create
      fails with 500 and stores nothing, where the intended one stores it. */
  lemma SecondStoreFails()
    ensures var body := map["name" := JStr("luna")];
            var first := CreateStoreAsWritten(Registry(map[], map[]), body, "a1");
            && first.status == Created
            && CreateStoreAsWritten(first.registry, body, "b2").status == ServerError
            && CreateStore(first.registry, body, "b2").status == Created
  {
    var body := map["name" := JStr("luna")];
    var first := CreateStoreAsWritten(Registry(map[], map[]), body, "a1");
    assert "a1" in first.registry.stores;
    assert DemoValid(first.registry);
  }

  /** The same on two items in a row. */
  lemma SecondItemFails()
    ensures var body := map["name" := JStr("laptop"), "price" := JNum(3)];
            var first := CreateItemAsWritten(Registry(map[], map[]), body, "a1");
            && first.status == Created
            && CreateItemAsWritten(first.registry, body, "b2").status == ServerError
            && CreateItem(first.registry, body, "b2").status == Created
  {
    var body := map["name" := JStr("laptop"), "price" := JNum(3)];
    var first := CreateItemAsWritten(Registry(map[], map[]), body, "a1");
    assert "a1" in first.registry.items;
    assert DemoValid(first.registry);
  }
}
