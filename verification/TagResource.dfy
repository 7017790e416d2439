/** The tag handlers: the tags of a store, single tags, all tags, and the
    link between an item and a tag. None of them asks for a token. */
module TagResource {
  import opened Catalog

  /** GET /tag/<id> */
  function GetTag(s: State, id: int): (r: Result<Tag>)
    ensures r.Found? <==> id in s.tags
    ensures r.Found? ==> r.value == s.tags[id]
    ensures r.Failed? ==> r.status == NotFound
  {
    if id in s.tags then Found(s.tags[id]) else Failed(NotFound)
  }

  /** GET /tag: the tags of every store. */
  function ListTags(s: State): (r: map<int, Tag>)
    ensures forall id :: id in r <==> GetTag(s, id).Found?
    ensures forall id :: id in r ==> GetTag(s, id) == Found(r[id])
  {
    s.tags
  }

  /** GET /store/<id>/tag: 404 unless the store exists, otherwise exactly
      the tags whose store is `storeId`. */
  function TagsInStore(s: State, storeId: int): (r: Result<map<int, Tag>>)
    ensures r.Failed? <==> storeId !in s.stores
    ensures r.Failed? ==> r.status == NotFound
    ensures r.Found? ==> forall t :: t in r.value <==> t in s.tags && s.tags[t].storeId == Some(storeId)
    ensures r.Found? ==> forall t :: t in r.value ==> r.value[t] == s.tags[t]
  {
    if storeId !in s.stores then Failed(NotFound)
    else Found(map t | t in s.tags && s.tags[t].storeId == Some(storeId) :: s.tags[t])
  }

  /** POST /store/<id>/tag: a tag whose (name, store) pair already exists is
      refused, with status 404; a tag whose store column is NULL never
      matches. The store itself is not looked up. The
      database assigns the fresh key `newId`. */
  function CreateTag(s: State, storeId: int, name: string, newId: int, fault: DbFault): (r: Step)
    requires newId !in s.tags
    ensures r.status == NotFound <==> Tag(name, Some(storeId)) in s.tags.Values
    ensures r.status == Created <==> Tag(name, Some(storeId)) !in s.tags.Values && fault.NoFault?
    ensures r.status in {Created, NotFound, ServerError}
    ensures r.status != Created ==> r.state == s
    ensures r.status == Created ==>
      && r.state.tags.Keys == s.tags.Keys + {newId}
      && r.state.tags[newId].storeId == Some(storeId)
      && r.state.tags[newId].name == name
      && (forall t :: t in s.tags ==> r.state.tags[t] == s.tags[t])
      && r.state.stores == s.stores && r.state.items == s.items
      && r.state.links == s.links && r.state.users == s.users
  {
    if Tag(name, Some(storeId)) in s.tags.Values then Step(NotFound, s)
    else Commit(s, s.(tags := s.tags[newId := Tag(name, Some(storeId))]), Created, fault)
  }

  /** DELETE /tag/<id>: 404 if absent; removed (202) only when no item is
      linked to it; otherwise 400 and the tag stays. */
  function DeleteTag(s: State, id: int, fault: DbFault): (r: Step)
    ensures r.status == NotFound <==> id !in s.tags
    ensures r.status == BadRequest <==> id in s.tags && ItemsOfTag(s, id) != {}
    ensures r.status == Accepted <==> id in s.tags && ItemsOfTag(s, id) == {} && fault.NoFault?
    ensures r.status in {Accepted, NotFound, BadRequest, ServerError}
    ensures r.status != Accepted ==> r.state == s
    ensures r.status == Accepted ==>
      && r.state.tags.Keys == s.tags.Keys - {id}
      && (forall t :: t in r.state.tags ==> r.state.tags[t] == s.tags[t])
      && r.state.stores == s.stores && r.state.items == s.items
      && r.state.links == s.links && r.state.users == s.users
  {
    if id !in s.tags then Step(NotFound, s)
    else if ItemsOfTag(s, id) != {} then Step(BadRequest, s)
    else Commit(s, s.(tags := s.tags - {id}), Accepted, fault)
  }

  /** The store of an item and of a tag are dereferenced to compare them; a
      store that does not exist cannot be, nor can the NULL store of a tag
      whose store was deleted, and the request fails with 500. */
  predicate StoresResolve(s: State, itemId: int, tagId: int)
    requires itemId in s.items && tagId in s.tags
  {
    s.items[itemId].storeId in s.stores && s.tags[tagId].storeId.Some? && s.tags[tagId].storeId.value in s.stores
  }

  /** POST /item/<item>/tag/<tag>: the item is looked up first, then the
      tag (404 each); tag and item of different stores are refused with
      400; otherwise a link row with the fresh key `newId` is added. */
  function LinkTag(s: State, itemId: int, tagId: int, newId: int, fault: DbFault): (r: Step)
    requires newId !in s.links
    ensures r.status == NotFound <==> itemId !in s.items || tagId !in s.tags
    ensures r.status == BadRequest <==>
      itemId in s.items && tagId in s.tags && StoresResolve(s, itemId, tagId)
      && Some(s.items[itemId].storeId) != s.tags[tagId].storeId
    ensures r.status == Created <==>
      itemId in s.items && tagId in s.tags && StoresResolve(s, itemId, tagId)
      && Some(s.items[itemId].storeId) == s.tags[tagId].storeId && fault.NoFault?
    ensures r.status in {Created, NotFound, BadRequest, ServerError}
    ensures r.status != Created ==> r.state == s
    ensures r.status == Created ==>
      && r.state.links == s.links[newId := ItemTag(itemId, tagId)]
      && HasLink(r.state, itemId, tagId)
      && r.state.stores == s.stores && r.state.items == s.items
      && r.state.tags == s.tags && r.state.users == s.users
  {
    if itemId !in s.items then Step(NotFound, s)
    else if tagId !in s.tags then Step(NotFound, s)
    else if !StoresResolve(s, itemId, tagId) then Step(ServerError, s)
    else if Some(s.items[itemId].storeId) != s.tags[tagId].storeId then Step(BadRequest, s)
    else
      var next := s.(links := s.links[newId := ItemTag(itemId, tagId)]);
      // the new row is the witness of `HasLink` in the postcondition
      assert next.links[newId] == ItemTag(itemId, tagId);
      Commit(s, next, Created, fault)
  }

  /** What DELETE /item/<item>/tag/<tag> asks of the state: removing the tag
      from the item's tags raises when the link is absent. */
  predicate CanUnlink(s: State, itemId: int, tagId: int)
  {
    itemId in s.items && tagId in s.tags ==> HasLink(s, itemId, tagId)
  }

  /** DELETE /item/<item>/tag/<tag> as evidently intended: 404 unless both
      exist, otherwise the tag is removed from the item's tags and every
      other link row stays. */
  function UnlinkTag(s: State, itemId: int, tagId: int, fault: DbFault): (r: Step)
    requires CanUnlink(s, itemId, tagId)
    ensures r.status == NotFound <==> itemId !in s.items || tagId !in s.tags
    ensures r.status == Ok <==> itemId in s.items && tagId in s.tags && fault.NoFault?
    ensures r.status in {Ok, NotFound, ServerError}
    ensures r.status != Ok ==> r.state == s
    ensures r.status == Ok ==>
      && !HasLink(r.state, itemId, tagId)
      && (forall k :: k in r.state.links ==> k in s.links && r.state.links[k] == s.links[k])
      && (forall k :: k in s.links && s.links[k] != ItemTag(itemId, tagId) ==> k in r.state.links)
      && r.state.stores == s.stores && r.state.items == s.items
      && r.state.tags == s.tags && r.state.users == s.users
  {
    if itemId !in s.items || tagId !in s.tags then Step(NotFound, s)
    else
      var kept := map k | k in s.links && s.links[k] != ItemTag(itemId, tagId) :: s.links[k];
      Commit(s, s.(links := kept), Ok, fault)
  }

  /** DELETE /item/<item>/tag/<tag> as written: past the two lookups, either
      the removal raises (no link) or the commit does (`commit` is called
      with an argument it does not take), whatever the database would have
      answered. Both escape the handler's `except SQLAlchemyError`, so the
      request fails with 500 and the uncommitted removal is rolled back. */
  function UnlinkTagAsWritten(s: State, itemId: int, tagId: int): (r: Step)
    ensures r.state == s
    ensures r.status == NotFound <==> itemId !in s.items || tagId !in s.tags
    ensures r.status != NotFound ==> r.status == ServerError
  {
    if itemId !in s.items || tagId !in s.tags then Step(NotFound, s)
    else Step(ServerError, s)
  }

  /** The discrepancy: for a linked pair and a healthy database, the handler
      as written answers 500 and keeps the link, where the intended one
      answers 200 and removes it. */
  lemma UnlinkAsWrittenKeepsLink(s: State, itemId: int, tagId: int)
    requires itemId in s.items && tagId in s.tags && HasLink(s, itemId, tagId)
    ensures UnlinkTagAsWritten(s, itemId, tagId).status == ServerError
    ensures HasLink(UnlinkTagAsWritten(s, itemId, tagId).state, itemId, tagId)
    ensures UnlinkTag(s, itemId, tagId, NoFault).status == Ok
    ensures !HasLink(UnlinkTag(s, itemId, tagId, NoFault).state, itemId, tagId)
  {
  }

  /** A created tag can be read back, belongs to the path's store, and is
      listed among that store's tags when the store exists. */
  lemma CreateThenGetTag(s: State, storeId: int, name: string, newId: int)
    requires newId !in s.tags && Tag(name, Some(storeId)) !in s.tags.Values
    ensures var s' := CreateTag(s, storeId, name, newId, NoFault).state;
            && GetTag(s', newId) == Found(Tag(name, Some(storeId)))
            && |s'.tags| == |s.tags| + 1
            && (storeId in s.stores ==> newId in TagsInStore(s', storeId).value)
  {
  }

  /** Creating the same (name, store) pair twice: the second attempt is
      refused and changes nothing. */
  lemma CreateTagTwice(s: State, storeId: int, name: string, id1: int, id2: int, fault: DbFault)
    requires id1 !in s.tags && Tag(name, Some(storeId)) !in s.tags.Values
    requires id2 != id1 && id2 !in s.tags
    ensures var s1 := CreateTag(s, storeId, name, id1, NoFault).state;
            CreateTag(s1, storeId, name, id2, fault) == Step(NotFound, s1)
  {
  }

  /** Unlinking every item of a tag lets the tag be deleted. */
  lemma UnlinkThenDeleteTag(s: State, itemId: int, tagId: int)
    requires itemId in s.items && tagId in s.tags && HasLink(s, itemId, tagId)
    requires ItemsOfTag(s, tagId) == {itemId}
    ensures var s' := UnlinkTag(s, itemId, tagId, NoFault).state;
            DeleteTag(s', tagId, NoFault).status == Accepted
  {
    var s' := UnlinkTag(s, itemId, tagId, NoFault).state;
    ItemsOfTagShrink(s, s', tagId);
    assert itemId !in ItemsOfTag(s', tagId);
  }

  lemma CreateTagPreservesValid(s: State, storeId: int, name: string, newId: int, fault: DbFault)
    requires Valid(s) && newId !in s.tags
    ensures Valid(CreateTag(s, storeId, name, newId, fault).state)
  {
  }

  lemma DeleteTagPreservesValid(s: State, id: int, fault: DbFault)
    requires Valid(s)
    ensures Valid(DeleteTag(s, id, fault).state)
  {
    LinkRowsListed(s);
  }

  /** Linking keeps every link within one store, given it held before. */
  lemma LinkTagPreservesValid(s: State, itemId: int, tagId: int, newId: int, fault: DbFault)
    requires Valid(s) && newId !in s.links
    ensures Valid(LinkTag(s, itemId, tagId, newId, fault).state)
  {
  }

  lemma UnlinkTagPreservesValid(s: State, itemId: int, tagId: int, fault: DbFault)
    requires Valid(s) && CanUnlink(s, itemId, tagId)
    ensures Valid(UnlinkTag(s, itemId, tagId, fault).state)
  {
  }
}
