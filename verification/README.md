# Store catalog API — a Dafny model

This project models the catalog service of a small Flask API. Stores own items and tags. An item can carry tags of its own store through the `items_tags` link table. Users register and log in.

Each request handler is a pure function. It takes the database state and returns a status code together with the new state. Those functions are checked against the consistency rules the handlers keep:

- every link row names an existing item and an existing tag of the same store;
- a tag with linked items is never removed;
- (name, store) pairs of tags are unique;
- usernames are unique.

A separate module models the in-memory demo service (`app.py`). That service keeps two dictionaries keyed by generated ids.

Files:

- `Credentials.dfy`: the stored password digest and its verification.
- `Catalog.dfy`: the persisted entities (`stores`, `items`, `tags`, `items_tags`, `users`), status codes, database faults and the consistency predicates (`Valid`).
- `StoreResource.dfy`, `ItemResource.dfy`, `TagResource.dfy`, `UserResource.dfy`: one module per resource file, one function per handler, with round-trip and invariant-preservation lemmas.
- `Api.dfy`: all requests behind one dispatcher `Handle`. It holds the token gate and the properties that hold across every request. Unlink requests go to the corrected unlink handler (see "## Findings").
- `Demo.dfy`: the in-memory demo service.

Modelling decisions:

- **Database commits.** Each commit's outcome is a parameter, `DbFault`. Every guard in a handler runs before its commit, so a guard's answer never depends on the fault. A failed commit answers 500 and changes nothing. The one exception is store creation, which maps a constraint violation to 400.
- **Primary keys.** Keys the database assigns arrive as a parameter, with a precondition that the key is unused.
- **Foreign keys.** The model assumes a database that does not enforce foreign keys, as SQLite does by default; the database configuration is not part of this model. The handlers themselves never check that an item's or a tag's store exists. So an item or tag can name a store that does not exist. Linking such an item or tag fails with 500, because its `store` is `None`. Under a database that enforces foreign keys, creating such an item or tag would instead fail its commit; the model admits that outcome as a `DbFault`, answered with 500.
- **Store deletion** cascades to the store's items and to their link rows (`models/store.py:23-26`). Its tags stay, since that relationship declares no cascade (`models/store.py:29-31`). The ORM then sets their store column to NULL, modelled as `Tag.storeId == None`. Such a tag is listed under no store, never matches the duplicate filter of tag creation, and cannot be linked (500).
- **Passwords.** Only a salted digest is stored. A fixed polynomial key derivation, `Credentials.DeriveKey`, stands in for pbkdf2-sha256. The only property the model relies on is that a password verifies against its own digest.

Behaviour of the code worth knowing, as the model has it:

- Store names are declared `unique=False` (`models/store.py:8`), although the 400 message at `resources/store.py:43-45` speaks of a taken name. Creating a second store with an existing name succeeds (`StoreResource.StoreNamesNotUnique`). A constraint violation on store creation comes only from the database (`DbFault.IntegrityViolation`).
- A duplicate (name, store) tag is refused with 404 (`resources/tag.py:37-42`).
- Item creation stores the body's store id without looking the store up (`resources/item.py:66-75`).
- Store deletion removes the store's items (`models/store.py:23-26`) but keeps its tags, without a store (`models/store.py:29-31`).

## Model

| member | source | states |
|---|---|---|
| Credentials.VerifyOwnHash | resources/user.py:30 | a password always verifies against the digest stored for it, whatever salt was drawn |
| StoreResource.GetStore | resources/store.py:16-21 | a store is returned exactly when its id is present, otherwise 404 |
| StoreResource.ListStores | resources/store.py:33-34 | the listing holds exactly the stores a lookup by id finds, with the same records |
| StoreResource.DeleteStore | resources/store.py:23-27 | 404 exactly for an absent id; on success the store goes, the remaining items are exactly the items of other stores, unchanged, every link row of a deleted item goes and every other link row stays, the store's tags stay with a NULL store, all other tags and all users are untouched; any failure leaves the state unchanged |
| StoreResource.CreateStore | resources/store.py:36-49 | success gives 201 and adds exactly the new store under the fresh key; a constraint violation gives 400 and any other database error 500, both with the state unchanged |
| StoreResource.CreateThenGetStore | resources/store.py:39-49 | a created store is read back under its key and the store count grows by one |
| StoreResource.StoreNamesNotUnique | models/store.py:8 | creating a store whose name is already taken succeeds when the commit does |
| StoreResource.DeleteThenGetStore | models/store.py:23-26 | after a delete, the store is 404, each of its former items is gone, and no item of that store remains |
| StoreResource.DeleteStorePreservesValid | models/store.py:23-31 | the cascade keeps every link resolving and within one store, even though the store's tags stay |
| StoreResource.CreateStorePreservesValid | resources/store.py:39-42 | creating a store keeps the consistency rules |
| ItemResource.GetItem | resources/item.py:16-20 | without a token 401; with one, the item exactly when present, otherwise 404 |
| ItemResource.ListItems | resources/item.py:58-61 | without a token 401; with one, exactly the items a lookup by id finds |
| ItemResource.DeleteItem | resources/item.py:22-34 | a missing or non-admin token gives 401 whether or not the item exists; an admin gets 404 for an absent id; on success exactly that item and its link rows go and nothing else changes |
| ItemResource.PutItem | resources/item.py:36-52 | on an existing id only name and price change (the store stays); on a missing id a new item appears under the caller's id with the body's store; every other item, store, tag, link and user is unchanged |
| ItemResource.CreateItem | resources/item.py:63-75 | without a token 401; on success 201 and exactly one new item built from the body, nothing else changed |
| ItemResource.PutItemCount | resources/item.py:40-47 | PUT on an existing id keeps the item count; on a missing id it grows by one |
| ItemResource.PutItemTwice | resources/item.py:40-44 | a second PUT on the same id updates in place: count unchanged, new name and price, store kept |
| ItemResource.CreateThenGetItem | resources/item.py:66-75 | a created item is read back with the body's fields and the item count grows by one |
| ItemResource.DeleteItemUnlinks | models/item_tags.py:9 | after an item is deleted, no tag lists it among its items |
| ItemResource.DeleteItemPreservesValid | resources/item.py:31-33 | deleting an item keeps the consistency rules |
| ItemResource.PutItemPreservesValid | resources/item.py:42-47 | the upsert keeps the consistency rules, because an update never moves an item to another store |
| ItemResource.CreateItemPreservesValid | resources/item.py:67-70 | creating an item keeps the consistency rules |
| TagResource.GetTag | resources/tag.py:58-61 | a tag is returned exactly when its id is present, otherwise 404 |
| TagResource.ListTags | resources/tag.py:84-87 | the listing holds the tags of every store, exactly those a lookup by id finds |
| TagResource.TagsInStore | resources/tag.py:19-30 | 404 exactly when the store is absent; otherwise exactly the tags whose store is that store, never a tag without a store |
| TagResource.CreateTag | resources/tag.py:33-53 | an existing (name, store) pair gives 404 with the state unchanged; success adds exactly one tag, with the path's store and the body's name |
| TagResource.DeleteTag | resources/tag.py:63-79 | 404 exactly for an absent id; 400 exactly when items are linked, with the tag kept; otherwise 202 and only that tag goes |
| TagResource.LinkTag | resources/tag.py:92-112 | 404 exactly when the item or the tag is absent; 500 when the item's store is missing or the tag has none; 400 exactly when their stores differ; on success exactly one link row for the pair is added and nothing else changes |
| TagResource.UnlinkTag | resources/tag.py:114-130 | corrected handler: 404 exactly when the item or the tag is absent; on success the pair is no longer linked and every other link row stays |
| TagResource.UnlinkTagAsWritten | resources/tag.py:119-127 | the handler as written: 404 when the item or the tag is absent, otherwise 500, never changing the state |
| TagResource.UnlinkAsWrittenKeepsLink | resources/tag.py:120-124 | for a linked pair, the handler as written answers 500 and keeps the link, while the corrected one answers 200 and removes it |
| TagResource.CreateThenGetTag | resources/tag.py:45-53 | a created tag is read back, the tag count grows by one, and the tag is listed under its store |
| TagResource.CreateTagTwice | resources/tag.py:38-42 | creating the same (name, store) pair again is refused with 404 and changes nothing |
| TagResource.UnlinkThenDeleteTag | resources/tag.py:73-76 | once the only linked item is unlinked, the tag can be deleted |
| TagResource.CreateTagPreservesValid | resources/tag.py:38-53 | tag creation keeps (name, store) pairs unique |
| TagResource.DeleteTagPreservesValid | resources/tag.py:71-79 | tag deletion never leaves a link row naming a missing tag |
| TagResource.LinkTagPreservesValid | resources/tag.py:98-103 | linking keeps every link within one store, given it held before |
| TagResource.UnlinkTagPreservesValid | resources/tag.py:116-120 | unlinking keeps the consistency rules |
| UserResource.Register | resources/user.py:18-40 | a taken username gives 409 and adds nobody; on success exactly one user is added, storing the digest of the password, and the password verifies against it |
| UserResource.GetUser | resources/user.py:52-55 | a user is returned exactly when the id is present, otherwise 404 |
| UserResource.ListUsers | resources/user.py:72-74 | the listing holds exactly the users a lookup by id finds |
| UserResource.DeleteUser | resources/user.py:57-65 | 404 exactly for an absent id; on success exactly that user goes |
| UserResource.FindUser | resources/user.py:84-86 | the user found carries the username; when none is found, no user has it |
| UserResource.Login | resources/user.py:80-94 | a token only for a user with that name whose password verifies; 401 for an unknown name and for a wrong password alike; with unique usernames, a token exactly when such a user exists |
| UserResource.RegisterThenLogin | resources/user.py:84-91 | a freshly registered user logs in with the same password and gets a token for its own id |
| UserResource.RegisterPreservesValid | resources/user.py:22-26 | registration keeps usernames unique |
| UserResource.RegisterTwice | resources/user.py:22-31 | after one registration the user count grew by one, and a second one under the same name is refused with 409 |
| Api.NeedsToken | resources/item.py:16-66 | the requests behind `jwt_required`: item get, delete, list and create, and not the item upsert |
| Api.AnonymousGate | resources/item.py:16-63 | without a token, exactly the item get, delete, list and create requests are refused with 401; the upsert and all other requests are not |
| Api.UngatedIgnoresToken | resources/store.py:12-38 | store, tag, user and upsert requests reply the same whatever token comes with them |
| Api.OnlyItemDeleteNeedsAdmin | resources/item.py:26-29 | a non-admin token is refused for an item delete even when the item is missing, and is as good as an admin token for every other request |
| Api.HandlePreservesValid | resources/tag.py:98-103 | covers the handlers of every resource; the cited same-store guard is the one the link rule rests on: every request keeps links resolving and within one store, and tag pairs and usernames unique |
| Api.LinkedTagSurvives | resources/tag.py:73-79 | no request removes a tag that has linked items, and only a tag delete removes tags at all |
| Api.StoreDeleteLeavesNoItems | models/store.py:23-26 | after a successful store delete, no item refers to the deleted store, and each of its former items reads back 404 and is linked to no tag |
| Api.StoreDeleteOrphansTags | models/store.py:29-31 | after a store delete, its tags read back without a store, their names can be created again under the old store id, and linking them never succeeds |
| Api.Handle | resources/item.py:16-66 | covers the handlers of every resource; the cited lines are the token gates: a refused or failed request changes nothing; without a token, a request behind `jwt_required` is answered 401; 401 comes only from the item requests, without a token or as an item delete without the admin claim; 409 comes only from registration; the GET requests never change the state |
| Demo.WithId | app.py:20-21 | the stored record carries the generated id, overriding any client-supplied one, and keeps every other body field |
| Demo.GetStores | app.py:10-13 | the listing holds exactly the records a lookup by some id finds |
| Demo.GetAllItems | app.py:73-75 | the listing holds exactly the records a lookup by some id finds |
| Demo.GetStore | app.py:65-71 | the record exactly when the key is present, otherwise 404 |
| Demo.GetItem | app.py:78-84 | the record exactly when the key is present, otherwise 404 |
| Demo.CreateStore | app.py:16-37 | corrected handler: a body without a name gives 400 and stores nothing; a created record is stored under the generated id and carries it; with a fresh id a named body is always created |
| Demo.CreateStoreAsWritten | app.py:16-37 | the handler as written: 400 and nothing stored for a body without a name; a store is created only while none exists, stored under the generated id with the body merged with that id; a named body with a store already present gives 500 |
| Demo.CreateItem | app.py:40-62 | corrected handler: a body missing name or price gives 400 and stores nothing; a created record is stored under the generated id and carries it |
| Demo.CreateItemAsWritten | app.py:40-62 | the handler as written: 400 and nothing stored for a body without a name or a price; an item is created only while none exists, stored under the generated id with the body merged with that id; a complete body with an item already present gives 500 |
| Demo.DuplicateCheckIsDead | app.py:31-34 | the intended duplicate check never fires, because every stored record carries its own key and the generated id is not yet a key |
| Demo.CreateStorePreservesValid | app.py:36 | every stored store record keeps a name and its own key as `store_id` |
| Demo.CreateItemPreservesValid | app.py:61 | every stored item record keeps a name, a price and its own key as `item_id` |
| Demo.CreateThenGetStore | app.py:20-21 | a created store is found under the generated id, with that id and the body's name |
| Demo.CreateThenGetItem | app.py:44-45 | a created item is found under the generated id, with that id and the body's name and price |
| Demo.CreateThenListStores | app.py:10-13 | after a create, the new record is listed and the listing is the old one plus that record |
| Demo.CreateThenListItems | app.py:73-75 | after a create, the new record is listed and the listing is the old one plus that record |
| Demo.SecondStoreFails | app.py:31-34 | concrete case: after one store, a second create answers 500 as written but 201 as intended |
| Demo.SecondItemFails | app.py:54-60 | concrete case: after one item, a second create answers 500 as written but 201 as intended |

## Left out

- HTTP routing, blueprints and the marshmallow schemas are not modelled. The schemas are not part of this model. Request bodies are the typed parameters of each handler, and responses are reduced to a status plus the record.
- Response messages and JSON bodies are not modelled.
- Path ids arrive as strings (`<string:item_id>`) and are modelled as integers.
- Token issuance and verification are not modelled. Neither is where the `is_admin` claim comes from. A verified token is an input `Option<Claims>`, and a login returns only the identity that the token would carry.
- pbkdf2-sha256 is replaced by a fixed stand-in derivation. Random salts are a parameter. Digest collisions are possible in the model as in reality, and no property assumes they are absent.
- Sessions, transactions and lazy loading are not modelled. Each request is atomic, and its commit outcome is the `DbFault` parameter. Concurrent requests are not modelled.
- Primary-key allocation (autoincrement, and uuid in the demo) is not modelled. The new key is a parameter, required to be unused wherever the database would guarantee that.
- `ItemModel`, `TagModel` and `UserModel` are not part of this model. Their fields follow their use in the handlers.
- The model assumes that the PUT body carries the store id used on the insert path.
- The model assumes that the tag body carries only the name.
- The 80-character bound on store names is declared but is not checked by any handler. Whether it is enforced depends on the database. A rejection would arrive as a `DbFault`.
- StoreResource.DeleteStore: `TagModel` is not part of this model, and its store column is taken to be nullable. Were it declared NOT NULL, nulling the tags of a deleted store would fail the commit and the delete would answer 500.
- `delete-orphan` is not modelled. No handler detaches an item from its store without deleting the item, so this cascade has no effect on the modelled requests.
- Demo.GetStores, Demo.GetAllItems: the listing is modelled as a set of records; the order and the multiplicity of the returned list are not modelled.
- Item prices are opaque integers. The source uses floating point.
- LinkTag: linking an already-linked pair adds another row, which the schema allows since `items_tags` has no uniqueness on the pair. Whether the ORM really emits the second insert is not determined by the code, and no lemma depends on it.
- UnlinkTag: requires that the pair be linked whenever both ends exist. Otherwise `list.remove` raises, which is a runtime error, not a defined reply.
- Login: with duplicate usernames, which registration never creates, the token goes to whichever matching row the search meets first, as with an unordered `.first()`. The if-and-only-if is stated only under unique usernames.
- Handle: the dispatcher does not cover login, because login is a method that only reads the state (`UserResource.Login`).
- Handle: unlink requests go to the corrected `TagResource.UnlinkTag`, so `Api.HandlePreservesValid`, `Api.LinkedTagSurvives` and `Api.AnonymousGate` speak of the service with the unlink fixed. As written, every unlink past its two lookups answers 500 and changes nothing (`TagResource.UnlinkTagAsWritten`).

## Findings

| source | as written | input that shows it | evidently intended | confidence | as-written member | corrected member |
|---|---|---|---|---|---|---|
| resources/tag.py:124 | `db.session.commit(item)` passes an argument that `commit` does not take. The resulting `TypeError` escapes `except SQLAlchemyError`, so every unlink of a linked pair answers 500 and the removal is rolled back | an item linked to a tag of its store, then `DELETE /item/<item>/tag/<tag>` | commit without argument: 200, and the link is removed | high; not executed | TagResource.UnlinkTagAsWritten | TagResource.UnlinkTag |
| app.py:31-34 | `for store in stores` walks the dictionary's keys, and `store['name']` indexes a string. That raises `TypeError` once one store exists, so every later create answers 500 | two `POST /store` calls with body `{"name": "luna"}` | compare against the stored records; because the id was just generated, the check never matches and the store is created (201) | high; not executed | Demo.CreateStoreAsWritten | Demo.CreateStore |
| app.py:54-60 | the same loop over item keys raises once one item exists, so every later create answers 500 | two `POST /item` calls with body `{"name": "laptop", "price": 3}` | compare against the stored records; the check never matches and the item is created (201) | high; not executed | Demo.CreateItemAsWritten | Demo.CreateItem |
