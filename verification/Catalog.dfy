/** The persisted catalog: stores, items, tags, the rows of the `items_tags`
    association table and users, each table a map from its integer primary
    key to the row. The predicates at the end are the consistency rules the
    request handlers keep between them. */
module Catalog {
  import opened Credentials

  datatype Option<T> = None | Some(value: T)

  /** The HTTP status a handler answers with: 200, 201, 202, 400, 401, 404,
      409 and 500 in the order declared. */
  datatype Status =
    | Ok
    | Created
    | Accepted
    | BadRequest
    | Unauthorized
    | NotFound
    | Conflict
    | ServerError

  /** How the database answers a commit. The handlers observe only whether
      it failed and, when creating a store, whether it was a constraint
      violation. */
  datatype DbFault = NoFault | IntegrityViolation | OtherDbError

  /** The claims of a verified access token. */
  datatype Claims = Claims(userId: int, isAdmin: bool)

  /** A row of `stores`. */
  datatype Store = Store(name: string)

  /** A row of `items`; `storeId` is the item's owning store. The price is
      carried as an opaque integer. */
  datatype Item = Item(name: string, price: int, storeId: int)

  /** A row of `tags`, scoped to one store. The store column is NULL
      (`None`) once the tag's store has been deleted. */
  datatype Tag = Tag(name: string, storeId: Option<int>)

  /** A row of `items_tags`: one item carries one tag. */
  datatype ItemTag = ItemTag(itemId: int, tagId: int)

  /** A row of `users`; only the digest of the password is kept. */
  datatype User = User(username: string, password: Digest)

  datatype State = State(
    stores: map<int, Store>,
    items: map<int, Item>,
    tags: map<int, Tag>,
    links: map<int, ItemTag>,
    users: map<int, User>)

  /** The reply of a handler that may change the state. */
  datatype Step = Step(status: Status, state: State)

  /** The reply of a read-only handler. */
  datatype Result<T> = Found(value: T) | Failed(status: Status)

  /** Applies `next` if the commit succeeds; a failed commit is rolled back
      and answered with 500. */
  function Commit(s: State, next: State, success: Status, fault: DbFault): Step
  {
    if fault.NoFault? then Step(success, next) else Step(ServerError, s)
  }

  /** Some row of `items_tags` links the item to the tag. */
  predicate HasLink(s: State, itemId: int, tagId: int)
  {
    exists k :: k in s.links && s.links[k] == ItemTag(itemId, tagId)
  }

  /** The ids of the items a tag is linked to (the tag's `items`). */
  function ItemsOfTag(s: State, tagId: int): set<int>
  {
    set k | k in s.links && s.links[k].tagId == tagId :: s.links[k].itemId
  }

  /** The link rows that survive when the items in `gone` are deleted. */
  function DropLinksOf(links: map<int, ItemTag>, gone: set<int>): map<int, ItemTag>
  {
    map k | k in links && links[k].itemId !in gone :: links[k]
  }

  /** Keeping only some of the link rows can only shrink a tag's items. */
  lemma ItemsOfTagShrink(s: State, s': State, tagId: int)
    requires forall k :: k in s'.links ==> k in s.links && s'.links[k] == s.links[k]
    ensures ItemsOfTag(s', tagId) <= ItemsOfTag(s, tagId)
  {
    forall i | i in ItemsOfTag(s', tagId)
      ensures i in ItemsOfTag(s, tagId)
    {
      var k :| k in s'.links && s'.links[k].tagId == tagId && s'.links[k].itemId == i;
      assert k in s.links && s.links[k] == s'.links[k];
    }
  }

  /** Every link row shows up in its tag's items. */
  lemma LinkRowsListed(s: State)
    ensures forall k :: k in s.links ==> s.links[k].itemId in ItemsOfTag(s, s.links[k].tagId)
  {
    forall k | k in s.links
      ensures s.links[k].itemId in ItemsOfTag(s, s.links[k].tagId)
    {
      var l := s.links[k];
      assert l.itemId in (set j | j in s.links && s.links[j].tagId == l.tagId :: s.links[j].itemId);
    }
  }

  /** Every link row names an existing item and an existing tag. */
  predicate LinksResolve(s: State)
  {
    forall k :: k in s.links ==> s.links[k].itemId in s.items && s.links[k].tagId in s.tags
  }

  /** Every link row joins an item and a tag of the same store. */
  predicate LinksSameStore(s: State)
  {
    forall k :: k in s.links && s.links[k].itemId in s.items && s.links[k].tagId in s.tags ==>
      s.tags[s.links[k].tagId].storeId == Some(s.items[s.links[k].itemId].storeId)
  }

  /** No two tags of a store share a name. Tags without a store are not
      constrained: NULL never equals NULL. */
  predicate TagsUniquePerStore(s: State)
  {
    forall a, b :: a in s.tags && b in s.tags && s.tags[a] == s.tags[b] && s.tags[a].storeId.Some? ==> a == b
  }

  /** No two users share a username. */
  predicate UsernamesUnique(s: State)
  {
    forall a, b :: a in s.users && b in s.users && s.users[a].username == s.users[b].username ==> a == b
  }

  predicate Valid(s: State)
  {
    && LinksResolve(s)
    && LinksSameStore(s)
    && TagsUniquePerStore(s)
    && UsernamesUnique(s)
  }

  /** The database before any request. */
  function Empty(): (s: State)
    ensures Valid(s)
    ensures s.stores == map[] && s.items == map[] && s.tags == map[] && s.links == map[] && s.users == map[]
  {
    State(map[], map[], map[], map[], map[])
  }
}
