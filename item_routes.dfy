/**
 * The item router of backend/routes/items.js: five handlers over the item collection, each
 * run for an authenticated caller whose id the authentication middleware has attached.
 * The collection is a map from item id to item record held by an `ItemStore` object.
 */
module ItemRoutes {
  import opened Wrappers

  type ItemId = nat
  type UserId = string

  /** A stored item record. */
  datatype Item = Item(userId: UserId, title: string, description: string, createdAt: int)

  /** An item as the API returns it: the record with its id. */
  datatype Doc = Doc(id: ItemId, item: Item)

  /** The JSON body of a response. */
  datatype Payload =
    | Single(doc: Doc)                       // res.json(item)
    | Listing(docs: seq<Doc>)                // res.json(items)
    | Removal(message: string, doc: Doc)     // res.json({ message, item })
    | Failure(error: string)                 // res.json({ error })

  datatype Response = Response(status: nat, payload: Payload)

  const TitleRequired := "Title is required"
  const ItemNotFound := "Item not found"
  const NotAuthorizedAccess := "Not authorized to access this item"
  const NotAuthorizedUpdate := "Not authorized to update this item"
  const NotAuthorizedDelete := "Not authorized to delete this item"
  const DeletedMessage := "Item deleted successfully"

  /** JavaScript truthiness of a request string field: present and not `''`. */
  predicate Truthy(v: Option<string>) {
    v.Some? && v.value != ""
  }

  /** `v || ''`. */
  function OrEmpty(v: Option<string>): (r: string)
    ensures Truthy(v) ==> r == v.value
    ensures !Truthy(v) ==> r == ""
  {
    if Truthy(v) then v.value else ""
  }

  /**
   * The existence check and then the ownership check that guard get, update and delete.
   * `None` lets the handler go on; `Some(response)` is the error it returns.
   */
  function Guard(items: map<ItemId, Item>, caller: UserId, id: ItemId, denied: string): (r: Option<Response>)
    ensures r.None? <==> id in items && items[id].userId == caller
    ensures r == Some(Response(404, Failure(ItemNotFound))) <==> id !in items
    ensures r == Some(Response(403, Failure(denied))) <==> id in items && items[id].userId != caller
  {
    if id !in items then Some(Response(404, Failure(ItemNotFound)))
    else if items[id].userId != caller then Some(Response(403, Failure(denied)))
    else None
  }

  /**
   * The partial update of the PUT handler: `title` replaces the title only when truthy,
   * `description` replaces the description whenever it is present, even as `''`.
   */
  function Patch(item: Item, title: Option<string>, description: Option<string>): (r: Item)
    ensures r.userId == item.userId && r.createdAt == item.createdAt
    ensures r.title == (if Truthy(title) then title.value else item.title)
    ensures r.description == (if description.Some? then description.value else item.description)
  {
    var withTitle := if Truthy(title) then item.(title := title.value) else item;
    if description.Some? then withTitle.(description := description.value) else withTitle
  }

  /** An update can never blank a title. */
  lemma PatchKeepsTitle(item: Item, title: Option<string>, description: Option<string>)
    requires item.title != ""
    ensures Patch(item, title, description).title != ""
    ensures title.None? ==> Patch(item, title, description).title == item.title
  {
  }

  /** Newest first: `createdAt` never increases along the sequence. */
  predicate NewestFirst(docs: seq<Doc>) {
    forall i, j :: 0 <= i < j < |docs| ==> docs[i].item.createdAt >= docs[j].item.createdAt
  }

  /** No id occurs twice. */
  predicate DistinctIds(docs: seq<Doc>) {
    forall i, j :: 0 <= i < j < |docs| ==> docs[i].id != docs[j].id
  }

  /** Places `d` before the first entry that is not newer than it. */
  function InsertNewestFirst(docs: seq<Doc>, d: Doc): (r: seq<Doc>)
    ensures |r| == |docs| + 1
    ensures forall x :: x in r <==> x in docs || x == d
    ensures multiset(r) == multiset(docs) + multiset{d}
    decreases |docs|
  {
    if docs == [] || d.item.createdAt >= docs[0].item.createdAt then [d] + docs
    else
      assert docs == [docs[0]] + docs[1..];
      [docs[0]] + InsertNewestFirst(docs[1..], d)
  }

  /** Inserting into a newest-first listing keeps it newest first. */
  lemma {:induction false} InsertKeepsNewestFirst(docs: seq<Doc>, d: Doc)
    requires NewestFirst(docs)
    ensures NewestFirst(InsertNewestFirst(docs, d))
    decreases |docs|
  {
    if !(docs == [] || d.item.createdAt >= docs[0].item.createdAt) {
      var rest := InsertNewestFirst(docs[1..], d);
      InsertKeepsNewestFirst(docs[1..], d);
      forall x | x in rest ensures x.item.createdAt <= docs[0].item.createdAt {
        if x != d {
          var k :| 0 <= k < |docs[1..]| && docs[1..][k] == x;
          assert docs[k + 1] == x;
        }
      }
      var r := [docs[0]] + rest;
      forall i, j | 0 <= i < j < |r| ensures r[i].item.createdAt >= r[j].item.createdAt {
        if i > 0 {
          assert r[i] == rest[i - 1] && r[j] == rest[j - 1];
        } else {
          assert r[j] == rest[j - 1] && rest[j - 1] in rest;
        }
      }
    }
  }

  /** Inserting a document with a new id keeps ids distinct. */
  lemma {:induction false} InsertKeepsDistinctIds(docs: seq<Doc>, d: Doc)
    requires DistinctIds(docs)
    requires forall x :: x in docs ==> x.id != d.id
    ensures DistinctIds(InsertNewestFirst(docs, d))
    decreases |docs|
  {
    var r := InsertNewestFirst(docs, d);
    if docs == [] || d.item.createdAt >= docs[0].item.createdAt {
      forall i, j | 0 <= i < j < |r| ensures r[i].id != r[j].id {
        if i > 0 {
          assert r[i] == docs[i - 1] && r[j] == docs[j - 1];
        } else {
          assert r[j] == docs[j - 1] && docs[j - 1] in docs;
        }
      }
    } else {
      var rest := InsertNewestFirst(docs[1..], d);
      InsertKeepsDistinctIds(docs[1..], d);
      forall x | x in rest ensures x.id != docs[0].id {
        if x != d {
          var k :| 0 <= k < |docs[1..]| && docs[1..][k] == x;
          assert docs[k + 1] == x;
        }
      }
      forall i, j | 0 <= i < j < |r| ensures r[i].id != r[j].id {
        if i > 0 {
          assert r[i] == rest[i - 1] && r[j] == rest[j - 1];
        } else {
          assert r[j] == rest[j - 1] && rest[j - 1] in rest;
        }
      }
    }
  }

  /** Every document in the listing is one of `caller`'s items, as stored. */
  predicate ListedFrom(items: map<ItemId, Item>, caller: UserId, docs: seq<Doc>) {
    forall d :: d in docs ==> d.id in items && items[d.id] == d.item && d.item.userId == caller
  }

  /** Items not owned by `caller` are the same before and after, and none was added. */
  ghost predicate OthersUntouched(before: map<ItemId, Item>, after: map<ItemId, Item>, caller: UserId) {
    && (forall id :: id in before && before[id].userId != caller ==> id in after && after[id] == before[id])
    && (forall id :: id in after && after[id].userId != caller ==> id in before && before[id] == after[id])
  }

  /** The body carries no item owned by anyone but `caller`. */
  predicate RevealsOnlyOwn(p: Payload, caller: UserId) {
    match p
    case Single(d) => d.item.userId == caller
    case Listing(ds) => forall d :: d in ds ==> d.item.userId == caller
    case Removal(_, d) => d.item.userId == caller
    case Failure(_) => true
  }

  class ItemStore {
    var items: map<ItemId, Item>
    /** Source of fresh ids: every stored id is below it. */
    var nextId: ItemId

    /** Ids are fresh, and no stored title is empty (create and update both refuse one). */
    ghost predicate Valid()
      reads this
    {
      && (forall id :: id in items ==> id < nextId)
      && (forall id :: id in items ==> items[id].title != "")
    }

    constructor ()
      ensures Valid() && items == map[]
    {
      items := map[];
      nextId := 0;
    }

    /** POST / — items.js:8-27. */
    method Create(caller: UserId, title: Option<string>, description: Option<string>, createdAt: int)
      returns (resp: Response)
      requires Valid()
      modifies this
      ensures Valid() && nextId >= old(nextId)
      ensures !Truthy(title) ==> resp == Response(400, Failure(TitleRequired)) && items == old(items)
      ensures Truthy(title) ==>
        && resp.status == 201 && resp.payload.Single?
        && resp.payload.doc.id !in old(items) && resp.payload.doc.id >= old(nextId)
        && resp.payload.doc.item == Item(caller, title.value, OrEmpty(description), createdAt)
        && items == old(items)[resp.payload.doc.id := resp.payload.doc.item]
      ensures OthersUntouched(old(items), items, caller) && RevealsOnlyOwn(resp.payload, caller)
    {
      if !Truthy(title) {
        return Response(400, Failure(TitleRequired));
      }
      var doc := Doc(nextId, Item(caller, title.value, OrEmpty(description), createdAt));
      items := items[doc.id := doc.item];
      nextId := nextId + 1;
      resp := Response(201, Single(doc));
    }

    /** GET / — items.js:30-37: the caller's items, newest first. */
    method List(caller: UserId) returns (resp: Response)
      ensures resp.status == 200 && resp.payload.Listing?
      ensures ListedFrom(items, caller, resp.payload.docs)
      ensures forall id :: id in items && items[id].userId == caller ==> Doc(id, items[id]) in resp.payload.docs
      ensures NewestFirst(resp.payload.docs) && DistinctIds(resp.payload.docs)
      ensures RevealsOnlyOwn(resp.payload, caller)
    {
      var pending := items.Keys;
      var docs: seq<Doc> := [];
      while pending != {}
        invariant pending <= items.Keys
        invariant ListedFrom(items, caller, docs)
        invariant forall d :: d in docs ==> d.id !in pending
        invariant forall id :: id in items && id !in pending && items[id].userId == caller ==> Doc(id, items[id]) in docs
        invariant NewestFirst(docs) && DistinctIds(docs)
        decreases pending
      {
        var id :| id in pending;
        if items[id].userId == caller {
          InsertKeepsNewestFirst(docs, Doc(id, items[id]));
          InsertKeepsDistinctIds(docs, Doc(id, items[id]));
          docs := InsertNewestFirst(docs, Doc(id, items[id]));
        }
        pending := pending - {id};
      }
      resp := Response(200, Listing(docs));
    }

    /** GET /:id — items.js:40-57. */
    method Get(caller: UserId, id: ItemId) returns (resp: Response)
      ensures id !in items ==> resp == Response(404, Failure(ItemNotFound))
      ensures id in items && items[id].userId != caller ==> resp == Response(403, Failure(NotAuthorizedAccess))
      ensures id in items && items[id].userId == caller ==> resp == Response(200, Single(Doc(id, items[id])))
      ensures RevealsOnlyOwn(resp.payload, caller)
    {
      var denied := Guard(items, caller, id, NotAuthorizedAccess);
      if denied.Some? {
        return denied.value;
      }
      resp := Response(200, Single(Doc(id, items[id])));
    }

    /** PUT /:id — items.js:60-83. */
    method Update(caller: UserId, id: ItemId, title: Option<string>, description: Option<string>)
      returns (resp: Response)
      requires Valid()
      modifies this
      ensures Valid() && nextId == old(nextId)
      ensures id !in old(items) ==> resp == Response(404, Failure(ItemNotFound)) && items == old(items)
      ensures id in old(items) && old(items)[id].userId != caller ==>
        resp == Response(403, Failure(NotAuthorizedUpdate)) && items == old(items)
      ensures id in old(items) && old(items)[id].userId == caller ==>
        && items == old(items)[id := Patch(old(items)[id], title, description)]
        && resp == Response(200, Single(Doc(id, items[id])))
      ensures OthersUntouched(old(items), items, caller) && RevealsOnlyOwn(resp.payload, caller)
    {
      var denied := Guard(items, caller, id, NotAuthorizedUpdate);
      if denied.Some? {
        return denied.value;
      }
      PatchKeepsTitle(items[id], title, description);
      items := items[id := Patch(items[id], title, description)];
      resp := Response(200, Single(Doc(id, items[id])));
    }

    /** DELETE /:id — items.js:86-104: a hard removal that returns the prior record. */
    method Delete(caller: UserId, id: ItemId) returns (resp: Response)
      requires Valid()
      modifies this
      ensures Valid() && nextId == old(nextId)
      ensures id !in old(items) ==> resp == Response(404, Failure(ItemNotFound)) && items == old(items)
      ensures id in old(items) && old(items)[id].userId != caller ==>
        resp == Response(403, Failure(NotAuthorizedDelete)) && items == old(items)
      ensures id in old(items) && old(items)[id].userId == caller ==>
        && items == old(items) - {id}
        && resp == Response(200, Removal(DeletedMessage, Doc(id, old(items)[id])))
      ensures OthersUntouched(old(items), items, caller) && RevealsOnlyOwn(resp.payload, caller)
    {
      var denied := Guard(items, caller, id, NotAuthorizedDelete);
      if denied.Some? {
        return denied.value;
      }
      var prior := Doc(id, items[id]);
      items := items - {id};
      resp := Response(200, Removal(DeletedMessage, prior));
    }
  }

  /**
   * A caller's session: create an item, give it a new description, delete it; afterwards the
   * id is gone for get and for a second delete alike, even after another item is created,
   * and another user never saw the item.
   */
  method CreateUpdateDeleteSession(alice: UserId, bob: UserId)
    requires alice != bob
  {
    var store := new ItemStore();
    var created := store.Create(alice, Some("Buy milk"), None, 1);
    var id := created.payload.doc.id;
    assert created.payload.doc.item.description == "";
    var peek := store.Get(bob, id);
    assert peek.status == 403;
    var updated := store.Update(alice, id, None, Some("2 litres"));
    assert updated.payload.doc.item.title == "Buy milk";
    var removed := store.Delete(alice, id);
    assert removed.status == 200;
    var again := store.Get(alice, id);
    assert again.status == 404;
    var twice := store.Delete(alice, id);
    assert twice.status == 404;
    var other := store.Create(alice, Some("Buy bread"), None, 2);
    var later := store.Get(alice, id);
    assert later.status == 404;
  }
}
