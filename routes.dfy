/**
 The item routes: an owner-scoped item table and the handlers that list,
 add, decrement, update, soft-delete and bulk-import items. The caller is
 resolved beforehand to the address of the user record, or to nothing when
 no user record exists; timestamps are passed in as `now`.
 */
module ItemRoutes {
  import opened ItemModel
  import opened ItemQueries
  import Ledger

  /** What a handler answers, one constructor per status and body shape. */
  datatype Response =
    | Listing(docs: seq<Doc>)          // 200, an array of documents
    | QuantityDecreased(doc: Doc)      // 200, 'Item quantity decreased' with the item
    | ItemUpdated(doc: Doc)            // 200, 'Item updated successfully' with the item
    | SoftDeleted(doc: Doc)            // 200, 'Item deleted successfully' with the item
    | ItemDeleted                      // 200, 'Item deleted successfully'
    | Created(doc: Doc)                // 201, the new document
    | CreatedMany(docs: seq<Doc>)      // 201, the inserted documents
    | ItemNotFound                     // 404
    | UserNotFound                     // 404
    | ServerError                      // 500

  ghost predicate Distinct(s: seq<Id>) {
    forall i, j :: 0 <= i < j < |s| ==> s[i] != s[j]
  }

  /** `s` with every occurrence of `x` removed, order kept. */
  function Without(s: seq<Id>, x: Id): (r: seq<Id>)
    ensures forall y :: y in r <==> y in s && y != x
    ensures Distinct(s) ==> Distinct(r)
  {
    if s == [] then []
    else
      assert s == [s[0]] + s[1..];
      var rest := Without(s[1..], x);
      if s[0] == x then rest
      else
        assert Distinct(s) ==> s[0] !in s[1..];
        [s[0]] + rest
  }

  /** A duplicate-free sequence has as many distinct members as it is long. */
  lemma {:induction false} DistinctCardinality(s: seq<Id>, members: set<Id>)
    requires Distinct(s)
    requires forall x :: x in members <==> x in s
    ensures |members| == |s|
  {
    if s != [] {
      var rest := s[1..];
      assert Distinct(rest) by {
        forall i, j | 0 <= i < j < |rest| ensures rest[i] != rest[j] {
          assert rest[i] == s[i + 1] && rest[j] == s[j + 1];
        }
      }
      assert s == [s[0]] + rest;
      assert s[0] !in rest;
      DistinctCardinality(rest, members - {s[0]});
    }
  }

  /** Appending identifiers above every existing one keeps a sequence duplicate-free. */
  lemma AppendFreshIds(s: seq<Id>, start: Id, n: nat)
    requires Distinct(s)
    requires forall x :: x in s ==> x < start
    ensures Distinct(s + FreshIds(start, n))
  {
    var t := s + FreshIds(start, n);
    forall i, j | 0 <= i < j < |t| ensures t[i] != t[j] {
      if j < |s| {
        assert t[i] == s[i] && t[j] == s[j];
      } else if i < |s| {
        assert t[i] == s[i] && t[i] in s;
      }
    }
  }

  /** The documents of `items` listed in the order `order` gives their ids. */
  function DocsOf(order: seq<Id>, items: map<Id, Item>): (r: seq<Doc>)
    requires forall id :: id in order ==> id in items
    ensures |r| == |order|
    ensures forall i :: 0 <= i < |r| ==> r[i].id == order[i] && r[i].item == items[order[i]]
    ensures forall d :: d in r <==> d.id in order && d.item == items[d.id]
  {
    var r := seq(|order|, i requires 0 <= i < |order| => Doc(order[i], items[order[i]]));
    assert forall d: Doc :: d.id in order && d.item == items[d.id] ==> d in r by {
      forall d: Doc | d.id in order && d.item == items[d.id] ensures d in r {
        var i :| 0 <= i < |order| && order[i] == d.id;
        assert r[i] == d;
      }
    }
    r
  }

  /** The lookup `{ _id: id, address }`. */
  predicate OwnedAt(items: map<Id, Item>, id: Id, address: string) {
    id in items && items[id].address == address
  }

  /**
   What holds of every stored document: it passed the schema's address rule
   when it was created (no handler changes an address afterwards), and its
   deletion bookkeeping is consistent.
   */
  predicate Persisted(it: Item) {
    it.address != "" && DeletionConsistent(it)
  }

  /** `userAddress || user.address`: a non-empty address in the request wins over the caller's. */
  function AddressFor(callerAddress: string, userAddress: Option<string>): string {
    if userAddress.Some? && userAddress.value != "" then userAddress.value else callerAddress
  }

  /** One spreadsheet row of a bulk import, by its column names; `None` is an absent or empty cell. */
  datatype Row = Row(itemName: Option<string>, quantityPurchased: Option<int>, dateAddedCell: Option<Timestamp>)

  /** The document fields a row maps to. */
  function RowDraft(row: Row, address: string, now: Timestamp): Draft {
    Draft(row.itemName, row.quantityPurchased, Some(row.dateAddedCell.GetOr(now)), None, Some(address))
  }

  /** Whether the schema accepts the item a row maps to. */
  predicate RowAccepted(row: Row, address: string) {
    && row.itemName.Some? && row.itemName.value != ""
    && row.quantityPurchased.Some? && row.quantityPurchased.value >= 1
    && address != ""
  }

  /** `it` is the item imported from `row`: name, quantity and date from their columns, owned by `address`. */
  predicate ImportedFrom(it: Item, row: Row, address: string, now: Timestamp) {
    && Some(it.name) == row.itemName
    && Some(it.quantity) == row.quantityPurchased
    && it.dateAdded == row.dateAddedCell.GetOr(now)
    && it.address == address
    && it.imageUrl.None?
    && NeverSoftDeleted(it)
  }

  /**
   The batch handed to `insertMany`, validated as a whole: either every row
   is accepted and each yields one item, in row order, or nothing is built.
   */
  function BuildBatch(rows: seq<Row>, address: string, now: Timestamp): (r: Option<seq<Item>>)
    ensures r.Some? <==> forall i :: 0 <= i < |rows| ==> RowAccepted(rows[i], address)
    ensures r.Some? ==> |r.value| == |rows|
    ensures r.Some? ==> forall i :: 0 <= i < |rows| ==>
              ImportedFrom(r.value[i], rows[i], address, now) && SchemaValid(r.value[i])
  {
    if rows == [] then Some([])
    else
      match NewItem(RowDraft(rows[0], address, now), now)
      case ValidationError => None
      case Ok(first) =>
        match BuildBatch(rows[1..], address, now)
        case None => None
        case Some(rest) =>
          assert forall i :: 1 <= i < |rows| ==> rows[i] == rows[1..][i - 1];
          Some([first] + rest)
  }

  /** `n` consecutive identifiers starting at `start`. */
  function FreshIds(start: Id, n: nat): (r: seq<Id>)
    ensures |r| == n
    ensures forall i :: 0 <= i < n ==> r[i] == start + i
  {
    seq(n, i requires 0 <= i < n => start + i)
  }

  /** The item of `batch` that receives identifier `id`. */
  function BatchAt(batch: seq<Item>, start: Id, id: Id): Item
    requires start <= id < start + |batch|
  {
    batch[id - start]
  }

  /** The batch keyed by the identifiers `FreshIds(start, |batch|)`. */
  function Assign(start: Id, batch: seq<Item>): (m: map<Id, Item>)
    ensures forall id :: id in m <==> start <= id < start + |batch|
    ensures forall i :: 0 <= i < |batch| ==> m[start + i] == batch[i]
  {
    map id: Id | start <= id < start + |batch| :: BatchAt(batch, start, id)
  }

  /**
   The reply of the bulk handler once the batch is stored: each inserted
   item is appended to the ledger, and a throwing append turns the reply
   into a server error although the items stay stored.
   */
  function BulkReply(inserted: seq<Doc>, historyKey: string): (r: Response)
    ensures r == CreatedMany(inserted) || r == ServerError
    ensures r == ServerError <==> inserted != [] && historyKey != Ledger.HistoryKey
  {
    if forall i :: 0 <= i < |inserted| ==> Ledger.RowFor(inserted[i].item, historyKey).Some? then
      assert inserted != [] ==> Ledger.RowFor(inserted[0].item, historyKey).Some?;
      CreatedMany(inserted)
    else
      ServerError
  }

  /**
   As written, the ledger reads the history from a property the schema does
   not define: a one-row import that the schema accepts is stored, and the
   caller is still told that the import failed.
   */
  lemma BulkReplyAsWrittenFails()
    ensures var rows := [Row(Some("Milk"), Some(3), None)];
      && BuildBatch(rows, "123 Main St", 0).Some?
      && BulkReply(DocsOf([0], Assign(0, BuildBatch(rows, "123 Main St", 0).value)), Ledger.HistoryKeyAsWritten) == ServerError
  {
    var rows := [Row(Some("Milk"), Some(3), None)];
    assert RowAccepted(rows[0], "123 Main St");
    var docs := DocsOf([0], Assign(0, BuildBatch(rows, "123 Main St", 0).value));
    assert Ledger.RowFor(docs[0].item, Ledger.HistoryKeyAsWritten).None?;
  }

  /** Reading the schema's own history field, the reply lists exactly the inserted documents. */
  lemma BulkReplyLists(inserted: seq<Doc>)
    ensures BulkReply(inserted, Ledger.HistoryKey) == CreatedMany(inserted)
  {
  }

  /**
   The table invariant on its parts: identifiers below `nextId`, the order
   lists each stored identifier exactly once, and every document is `Persisted`.
   */
  ghost predicate Valid'(items: map<Id, Item>, order: seq<Id>, nextId: Id) {
    && (forall id :: id in items ==> id < nextId)
    && (forall id :: id in items <==> id in order)
    && Distinct(order)
    && (forall id :: id in items ==> Persisted(items[id]))
  }

  /**
   Inserting a batch under fresh identifiers keeps the invariant, and each
   new identifier holds its item of the batch.
   */
  lemma InsertBatch(items: map<Id, Item>, order: seq<Id>, nextId: Id, batch: seq<Item>)
    requires Valid'(items, order, nextId)
    requires forall i :: 0 <= i < |batch| ==> Persisted(batch[i])
    ensures Valid'(items + Assign(nextId, batch), order + FreshIds(nextId, |batch|), nextId + |batch|)
    ensures forall i :: 0 <= i < |batch| ==>
              nextId + i !in items && (items + Assign(nextId, batch))[nextId + i] == batch[i]
  {
    var ids := FreshIds(nextId, |batch|);
    var added := Assign(nextId, batch);
    var newItems := items + added;
    AppendFreshIds(order, nextId, |batch|);
    forall id | id in newItems ensures Persisted(newItems[id]) {
      if id in added {
        assert added[id] == batch[id - nextId];
      }
    }
    forall id ensures id in newItems <==> id in order + ids {
      if nextId <= id < nextId + |batch| {
        assert ids[id - nextId] == id;
      }
    }
  }

  /**
   The item collection. `order` is the natural order in which the store
   returns documents (insertion order); `nextId` is the next identifier the
   store hands out.
   */
  class ItemTable {
    var items: map<Id, Item>
    var order: seq<Id>
    var nextId: Id

    ghost predicate Valid()
      reads this
    {
      Valid'(items, order, nextId)
    }

    constructor ()
      ensures Valid() && items == map[] && order == []
    {
      items := map[];
      order := [];
      nextId := 0;
    }

    /** The whole collection, in natural order. */
    function Collection(): (r: seq<Doc>)
      reads this
      requires Valid()
      ensures |r| == |items| && DistinctIds(r)
      ensures forall d :: d in r <==> d.id in items && d.item == items[d.id]
    {
      DistinctCardinality(order, items.Keys);
      DocsOf(order, items)
    }

    /** GET /: exactly the caller's documents, each once; a missing user makes the handler fail. */
    function List(caller: Option<string>): (r: Response)
      reads this
      requires Valid()
      ensures caller.None? <==> r == ServerError
      ensures caller.Some? ==> r.Listing?
      ensures caller.Some? ==> forall d :: d in r.docs <==>
                d.id in items && d.item == items[d.id] && d.item.address == caller.value
      ensures caller.Some? ==> DistinctIds(r.docs)
    {
      if caller.None? then ServerError
      else
        OwnedBySubset(Collection(), caller.value);
        DistinctSubset(OwnedBy(Collection(), caller.value), Collection());
        Listing(OwnedBy(Collection(), caller.value))
    }

    /**
     GET /recent: at most three of the caller's documents, each once, newest
     first; an omitted document of the caller is no newer than the last one
     returned.
     */
    function ListRecent(caller: Option<string>): (r: Response)
      reads this
      requires Valid()
      ensures caller.None? <==> r == ServerError
      ensures caller.Some? ==> r.Listing? && |r.docs| <= RecentLimit && NewestFirst(r.docs)
      ensures caller.Some? ==> DistinctIds(r.docs)
      ensures caller.Some? ==> forall d :: d in r.docs ==>
                d.id in items && d.item == items[d.id] && d.item.address == caller.value
      ensures caller.Some? ==> forall id :: OwnedAt(items, id, caller.value) && Doc(id, items[id]) !in r.docs ==>
                |r.docs| == RecentLimit && items[id].dateAdded <= r.docs[|r.docs| - 1].item.dateAdded
    {
      if caller.None? then ServerError else Listing(Recent(Collection(), caller.value))
    }

    /** GET /all: every document, whoever owns it, with no authentication. */
    function ListAll(): (r: Response)
      reads this
      requires Valid()
      ensures r.Listing? && |r.docs| == |items| && DistinctIds(r.docs)
      ensures forall d :: d in r.docs <==> d.id in items && d.item == items[d.id]
    {
      Listing(Collection())
    }

    /**
     DELETE /:id: an item found under the caller's address loses one unit,
     or is removed when at most one unit is left; an item under any other
     address is reported as not found.
     */
    method DecrementOrDelete(caller: Option<string>, id: Id) returns (r: Response)
      requires Valid()
      modifies this
      ensures Valid() && nextId == old(nextId)
      ensures caller.None? ==> r == ServerError && unchanged(this)
      ensures caller.Some? && !OwnedAt(old(items), id, caller.value) ==> r == ItemNotFound && unchanged(this)
      ensures caller.Some? && OwnedAt(old(items), id, caller.value) && old(items)[id].quantity > 1 ==>
                var dec := old(items)[id].(quantity := old(items)[id].quantity - 1);
                if SchemaValid(dec) then
                  r == QuantityDecreased(Doc(id, dec)) && items == old(items)[id := dec] && order == old(order)
                else
                  r == ServerError && unchanged(this)
      ensures caller.Some? && OwnedAt(old(items), id, caller.value) && old(items)[id].quantity <= 1 ==>
                r == ItemDeleted && items == old(items) - {id} && order == Without(old(order), id)
    {
      if caller.None? {
        // reading the address of a missing user throws
        return ServerError;
      }
      if !OwnedAt(items, id, caller.value) {
        return ItemNotFound;
      }
      var item := items[id];
      if item.quantity > 1 {
        var dec := item.(quantity := item.quantity - 1);
        if !SchemaValid(dec) {
          // save() validates the whole document
          return ServerError;
        }
        items := items[id := dec];
        r := QuantityDecreased(Doc(id, dec));
      } else {
        items := items - {id};
        order := Without(order, id);
        r := ItemDeleted;
      }
    }

    /**
     PUT /:id: quantity 0 deletes the caller's item; otherwise the supplied
     name and quantity overwrite the caller's item without validation.
     */
    method Update(caller: Option<string>, id: Id, name: Option<string>, quantity: Option<int>) returns (r: Response)
      requires Valid()
      modifies this
      ensures Valid() && nextId == old(nextId)
      ensures caller.None? ==> r == UserNotFound && unchanged(this)
      ensures caller.Some? && !OwnedAt(old(items), id, caller.value) ==> r == ItemNotFound && unchanged(this)
      ensures caller.Some? && OwnedAt(old(items), id, caller.value) && quantity == Some(0) ==>
                r == ItemDeleted && items == old(items) - {id} && order == Without(old(order), id)
      ensures caller.Some? && OwnedAt(old(items), id, caller.value) && quantity != Some(0) ==>
                var patched := Patch(old(items)[id], name, quantity);
                r == ItemUpdated(Doc(id, patched)) && items == old(items)[id := patched] && order == old(order)
    {
      if caller.None? {
        return UserNotFound;
      }
      if !OwnedAt(items, id, caller.value) {
        return ItemNotFound;
      }
      if quantity == Some(0) {
        items := items - {id};
        order := Without(order, id);
        return ItemDeleted;
      }
      var patched := Patch(items[id], name, quantity);
      PatchKeepsDeletion(items[id], name, quantity);
      items := items[id := patched];
      r := ItemUpdated(Doc(id, patched));
    }

    /**
     PUT /delete/:id: looks the item up by id alone, with no caller at all,
     stamps the deletion time and keeps the record.
     */
    method SoftDelete(id: Id, now: Timestamp) returns (r: Response)
      requires Valid()
      modifies this
      ensures Valid() && nextId == old(nextId) && order == old(order)
      ensures id !in old(items) ==> r == ItemNotFound && unchanged(this)
      ensures id in old(items) ==>
                var stamped := Stamp(old(items)[id], now);
                if SchemaValid(stamped) then
                  r == SoftDeleted(Doc(id, stamped)) && items == old(items)[id := stamped]
                else
                  r == ServerError && unchanged(this)
    {
      if id !in items {
        return ItemNotFound;
      }
      var stamped := Stamp(items[id], now);
      if !SchemaValid(stamped) {
        return ServerError;
      }
      items := items[id := stamped];
      r := SoftDeleted(Doc(id, stamped));
    }

    /**
     POST /add-item: builds an item dated `now` from the request, owned by
     the request's `userAddress` when one is given, else by the caller, and
     saves it under a fresh id. `imagePath` is the stored upload's path,
     `None` when no file came with the request.
     */
    method AddItem(caller: Option<string>, name: Option<string>, quantity: Option<int>,
                   imagePath: Option<string>, userAddress: Option<string>, now: Timestamp) returns (r: Response)
      requires Valid()
      modifies this
      ensures Valid()
      ensures caller.None? ==> r == UserNotFound && unchanged(this)
      ensures caller.Some? && imagePath.None? ==> r == ServerError && unchanged(this)
      ensures caller.Some? && imagePath.Some? ==>
                var d := Draft(name, quantity, Some(now), imagePath, Some(AddressFor(caller.value, userAddress)));
                if NewItem(d, now).Ok? then
                  && r == Created(Doc(old(nextId), NewItem(d, now).value))
                  && items == old(items)[old(nextId) := NewItem(d, now).value]
                  && order == old(order) + [old(nextId)]
                  && nextId == old(nextId) + 1
                else
                  r == ServerError && unchanged(this)
      ensures r.Created? ==> old(nextId) !in old(items) && r.doc.item.dateAdded == now && NeverSoftDeleted(r.doc.item)
      ensures r.Created? ==> r.doc.item.address == AddressFor(caller.value, userAddress)
    {
      if caller.None? {
        return UserNotFound;
      }
      if imagePath.None? {
        // reading the path of a missing upload throws
        return ServerError;
      }
      var d := Draft(name, quantity, Some(now), imagePath, Some(AddressFor(caller.value, userAddress)));
      match NewItem(d, now)
      case ValidationError =>
        r := ServerError;
      case Ok(it) =>
        items := items[nextId := it];
        order := order + [nextId];
        r := Created(Doc(nextId, it));
        nextId := nextId + 1;
    }

    /**
     POST /bulk: maps every row to an item owned by the caller and inserts
     the batch all at once, or nothing when any row fails validation.
     */
    method Bulk(caller: Option<string>, rows: seq<Row>, now: Timestamp) returns (r: Response)
      requires Valid()
      modifies this
      ensures Valid()
      ensures caller.None? && rows != [] ==> r == ServerError && unchanged(this)
      ensures caller.None? && rows == [] ==> r == CreatedMany([]) && unchanged(this)
      ensures caller.Some? && BuildBatch(rows, caller.value, now).None? ==> r == ServerError && unchanged(this)
      ensures caller.Some? && BuildBatch(rows, caller.value, now).Some? ==>
                var ids := FreshIds(old(nextId), |rows|);
                && nextId == old(nextId) + |rows|
                && order == old(order) + ids
                && items == old(items) + Assign(old(nextId), BuildBatch(rows, caller.value, now).value)
                && r == CreatedMany(DocsOf(ids, items))
      ensures r.CreatedMany? ==> |r.docs| == |rows|
      ensures r.CreatedMany? ==> forall i :: 0 <= i < |rows| ==>
                  r.docs[i].id !in old(items) && ImportedFrom(r.docs[i].item, rows[i], caller.value, now)
    {
      if caller.None? {
        // The address is read only while mapping the rows, so an empty body never reads it.
        if rows == [] {
          return CreatedMany([]);
        }
        return ServerError;
      }
      var batch := BuildBatch(rows, caller.value, now);
      if batch.None? {
        return ServerError;
      }
      var ids := FreshIds(nextId, |rows|);
      InsertBatch(items, order, nextId, batch.value);
      items, order, nextId := items + Assign(nextId, batch.value), order + ids, nextId + |rows|;
      var inserted := DocsOf(ids, items);
      BulkReplyLists(inserted);
      r := BulkReply(inserted, Ledger.HistoryKey);
      forall i | 0 <= i < |rows|
        ensures r.docs[i].id !in old(items) && ImportedFrom(r.docs[i].item, rows[i], caller.value, now)
      {
        assert r.docs[i].id == old(nextId) + i && r.docs[i].item == batch.value[i];
      }
    }
  }

  /**
   A milk carton added with quantity 3 and then taken out three times by
   its owner: 2, then 1, then gone.
   */
  method DecrementScenario() returns (added: Response, first: Response, second: Response, third: Response)
    ensures added.Created? && added.doc.item.quantity == 3
    ensures first.QuantityDecreased? && first.doc.item.quantity == 2
    ensures second.QuantityDecreased? && second.doc.item.quantity == 1
    ensures third == ItemDeleted
  {
    var table := new ItemTable();
    added := table.AddItem(Some("123 Main St"), Some("Milk"), Some(3), Some("uploads/milk.png"), None, 1000);
    var id := added.doc.id;
    first := table.DecrementOrDelete(Some("123 Main St"), id);
    second := table.DecrementOrDelete(Some("123 Main St"), id);
    third := table.DecrementOrDelete(Some("123 Main St"), id);
  }
}
