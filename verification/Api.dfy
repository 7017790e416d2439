/** The catalog service as one state machine: every request of the store,
    item, tag and user resources, the token gate in front of them, and the
    consistency rules that hold across all of them. Login only reads the
    state and is left to `UserResource.Login`. An unlink goes to the
    corrected handler `TagResource.UnlinkTag`; the handler as written,
    `TagResource.UnlinkTagAsWritten`, answers 500 to every unlink past its
    two lookups and changes nothing. */
module Api {
  import opened Catalog
  import StoreResource
  import ItemResource
  import TagResource
  import UserResource

  datatype Request =
    | GetStore(storeId: int)
    | DeleteStore(storeId: int)
    | ListStores
    | CreateStore(name: string)
    | GetItem(itemId: int)
    | DeleteItem(itemId: int)
    | PutItem(itemId: int, data: ItemResource.ItemData)
    | ListItems
    | CreateItem(data: ItemResource.ItemData)
    | TagsInStore(storeId: int)
    | CreateTag(storeId: int, name: string)
    | GetTag(tagId: int)
    | DeleteTag(tagId: int)
    | ListTags
    | LinkTag(itemId: int, tagId: int)
    | UnlinkTag(itemId: int, tagId: int)
    | Register(username: string, password: string)
    | GetUser(userId: int)
    | DeleteUser(userId: int)
    | ListUsers

  /** What the surroundings decide for one request: the primary key the
      database hands out, how the commit goes, and the salt drawn for a
      password hash. */
  datatype Env = Env(newId: int, fault: DbFault, salt: nat)

  /** The requests behind `jwt_required`: reading, listing, creating and
      deleting items. */
  predicate NeedsToken(req: Request)
  {
    req.GetItem? || req.DeleteItem? || req.ListItems? || req.CreateItem?
  }

  /** The requests that only read: the GET handlers. */
  predicate ReadOnly(req: Request)
  {
    || req.GetStore? || req.ListStores? || req.GetItem? || req.ListItems? || req.TagsInStore?
    || req.GetTag? || req.ListTags? || req.GetUser? || req.ListUsers?
  }

  /** The database's key is fresh for the table the request inserts into,
      and an unlink names a linked pair whenever both ends exist. */
  predicate Admissible(s: State, req: Request, env: Env)
  {
    match req
    case CreateStore(_) => env.newId !in s.stores
    case CreateItem(_) => env.newId !in s.items
    case CreateTag(_, _) => env.newId !in s.tags
    case LinkTag(_, _) => env.newId !in s.links
    case UnlinkTag(i, t) => TagResource.CanUnlink(s, i, t)
    case Register(_, _) => env.newId !in s.users
    case _ => true
  }

  function StatusOf<T>(r: Result<T>): Status
  {
    if r.Found? then Ok else r.status
  }

  /** The reply to `req` from state `s`, for a caller holding the token
      claims `auth` (None when no valid token came with the request). */
  function Handle(s: State, auth: Option<Claims>, req: Request, env: Env): (r: Step)
    requires Admissible(s, req, env)
    ensures r.status !in {Ok, Created, Accepted} ==> r.state == s
    ensures NeedsToken(req) && auth.None? ==> r == Step(Unauthorized, s)
    ensures r.status == Unauthorized ==> NeedsToken(req) && (auth.None? || req.DeleteItem?)
    ensures r.status == Conflict ==> req.Register?
    ensures ReadOnly(req) ==> r.state == s
  {
    match req
    case GetStore(id) => Step(StatusOf(StoreResource.GetStore(s, id)), s)
    case DeleteStore(id) => StoreResource.DeleteStore(s, id, env.fault)
    case ListStores => Step(Ok, s)
    case CreateStore(name) => StoreResource.CreateStore(s, name, env.newId, env.fault)
    case GetItem(id) => Step(StatusOf(ItemResource.GetItem(s, auth, id)), s)
    case DeleteItem(id) => ItemResource.DeleteItem(s, auth, id, env.fault)
    case PutItem(id, data) => ItemResource.PutItem(s, id, data, env.fault)
    case ListItems => Step(StatusOf(ItemResource.ListItems(s, auth)), s)
    case CreateItem(data) => ItemResource.CreateItem(s, auth, data, env.newId, env.fault)
    case TagsInStore(id) => Step(StatusOf(TagResource.TagsInStore(s, id)), s)
    case CreateTag(id, name) => TagResource.CreateTag(s, id, name, env.newId, env.fault)
    case GetTag(id) => Step(StatusOf(TagResource.GetTag(s, id)), s)
    case DeleteTag(id) => TagResource.DeleteTag(s, id, env.fault)
    case ListTags => Step(Ok, s)
    case LinkTag(i, t) => TagResource.LinkTag(s, i, t, env.newId, env.fault)
    case UnlinkTag(i, t) => TagResource.UnlinkTag(s, i, t, env.fault)
    case Register(name, password) =>
      UserResource.Register(s, name, password, env.salt, env.newId, env.fault)
    case GetUser(id) => Step(StatusOf(UserResource.GetUser(s, id)), s)
    case DeleteUser(id) => UserResource.DeleteUser(s, id, env.fault)
    case ListUsers => Step(Ok, s)
  }

  /** Without a token, exactly the item requests are refused with 401, and
      nothing changes. */
  lemma AnonymousGate(s: State, req: Request, env: Env)
    requires Admissible(s, req, env)
    ensures NeedsToken(req) ==> Handle(s, None, req, env) == Step(Unauthorized, s)
    ensures !NeedsToken(req) ==> Handle(s, None, req, env).status != Unauthorized
  {
  }

  /** Outside the item requests, the reply does not depend on the token. */
  lemma UngatedIgnoresToken(s: State, a: Option<Claims>, b: Option<Claims>, req: Request, env: Env)
    requires Admissible(s, req, env) && !NeedsToken(req)
    ensures Handle(s, a, req, env) == Handle(s, b, req, env)
  {
  }

  /** Only item deletion looks at the admin claim: a non-admin token is
      refused there even for a missing item, and is as good as an admin
      token everywhere else. */
  lemma OnlyItemDeleteNeedsAdmin(s: State, user: int, req: Request, env: Env)
    requires Admissible(s, req, env)
    ensures req.DeleteItem? ==> Handle(s, Some(Claims(user, false)), req, env) == Step(Unauthorized, s)
    ensures !req.DeleteItem? ==>
      Handle(s, Some(Claims(user, false)), req, env) == Handle(s, Some(Claims(user, true)), req, env)
  {
  }

  /** Every request keeps the consistency rules: links resolve and stay
      within one store, (name, store) pairs of tags and usernames stay
      unique. */
  lemma HandlePreservesValid(s: State, auth: Option<Claims>, req: Request, env: Env)
    requires Valid(s) && Admissible(s, req, env)
    ensures Valid(Handle(s, auth, req, env).state)
  {
    match req
    case DeleteStore(id) => StoreResource.DeleteStorePreservesValid(s, id, env.fault);
    case CreateStore(name) => StoreResource.CreateStorePreservesValid(s, name, env.newId, env.fault);
    case DeleteItem(id) => ItemResource.DeleteItemPreservesValid(s, auth, id, env.fault);
    case PutItem(id, data) => ItemResource.PutItemPreservesValid(s, id, data, env.fault);
    case CreateItem(data) => ItemResource.CreateItemPreservesValid(s, auth, data, env.newId, env.fault);
    case CreateTag(id, name) => TagResource.CreateTagPreservesValid(s, id, name, env.newId, env.fault);
    case DeleteTag(id) => TagResource.DeleteTagPreservesValid(s, id, env.fault);
    case LinkTag(i, t) => TagResource.LinkTagPreservesValid(s, i, t, env.newId, env.fault);
    case UnlinkTag(i, t) => TagResource.UnlinkTagPreservesValid(s, i, t, env.fault);
    case Register(name, password) =>
      UserResource.RegisterPreservesValid(s, name, password, env.salt, env.newId, env.fault);
    case _ =>
  }

  /** No request removes a tag that has a linked item; the only request
      that removes tags at all is the tag delete. */
  lemma LinkedTagSurvives(s: State, auth: Option<Claims>, req: Request, env: Env, tagId: int)
    requires Admissible(s, req, env)
    requires tagId in s.tags
    ensures ItemsOfTag(s, tagId) != {} ==> tagId in Handle(s, auth, req, env).state.tags
    ensures !req.DeleteTag? ==> tagId in Handle(s, auth, req, env).state.tags
  {
  }

  /** After a store is deleted, no item refers to it: its former items read
      back 404 to any token holder and are linked to no tag. */
  lemma StoreDeleteLeavesNoItems(s: State, auth: Option<Claims>, id: int, env: Env, c: Claims, tagId: int)
    ensures var r := Handle(s, auth, DeleteStore(id), env);
            r.status == Ok ==>
              && id !in r.state.stores && StoreResource.ItemsOfStore(r.state, id) == {}
              && (forall i :: i in StoreResource.ItemsOfStore(s, id) ==>
                    Handle(r.state, Some(c), GetItem(i), env).status == NotFound)
              && (forall i :: i in StoreResource.ItemsOfStore(s, id) ==> !HasLink(r.state, i, tagId))
  {
  }

  /** A deleted store's tags outlive it without a store: they read back with
      a NULL store, their name can be taken again under the old store id,
      and no item can be linked to them any more. */
  lemma StoreDeleteOrphansTags(s: State, auth: Option<Claims>, id: int, env: Env, t: int, next: Env, itemId: int)
    requires t in s.tags && s.tags[t].storeId == Some(id)
    requires next.fault.NoFault? && next.newId !in s.tags && next.newId !in s.links
    ensures var r := Handle(s, auth, DeleteStore(id), env);
            r.status == Ok ==>
              && TagResource.GetTag(r.state, t) == Found(Tag(s.tags[t].name, None))
              && Handle(r.state, auth, CreateTag(id, s.tags[t].name), next).status == Created
              && Handle(r.state, auth, LinkTag(itemId, t), next).status in {NotFound, ServerError}
  {
  }
}
