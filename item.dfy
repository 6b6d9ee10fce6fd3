/**
 The item record of the inventory store and the rules its schema enforces
 whenever a document is saved or inserted: field set, required fields, the
 minimum quantity, and the defaults a freshly constructed item receives.
 */
module ItemModel {

  datatype Option<+T> = None | Some(value: T) {
    /** The carried value, or `default` when there is none. */
    function GetOr(default: T): T {
      match this
      case Some(v) => v
      case None => default
    }
  }

  /** Outcome of constructing a document and validating it against the schema. */
  datatype Result<+T> = Ok(value: T) | ValidationError

  /** A point in time, in milliseconds as the store keeps it. */
  type Timestamp = int

  /** A stored item. `dateDeleted` is null until the first soft delete. */
  datatype Item = Item(
    name: string,
    quantity: int,
    dateAdded: Timestamp,
    dateDeleted: Option<Timestamp>,
    dateDeletedArray: seq<Timestamp>,
    imageUrl: Option<string>,
    address: string)

  /** The fields a request hands to the document constructor; `None` is a field left out. */
  datatype Draft = Draft(
    name: Option<string>,
    quantity: Option<int>,
    dateAdded: Option<Timestamp>,
    imageUrl: Option<string>,
    address: Option<string>)

  /**
   The schema's validators on a whole document: a required string must be a
   non-empty string, and quantity has a minimum of 1. `imageUrl` is optional
   and the date fields carry no validator.
   */
  predicate SchemaValid(it: Item) {
    && it.name != ""
    && it.quantity >= 1
    && it.address != ""
  }

  /** The same validators on the fields a request supplies, where a field may also be missing. */
  predicate DraftValid(d: Draft) {
    && d.name.Some? && d.name.value != ""
    && d.quantity.Some? && d.quantity.value >= 1
    && d.address.Some? && d.address.value != ""
  }

  /** An item that has never been soft-deleted carries the schema's deletion defaults. */
  predicate NeverSoftDeleted(it: Item) {
    it.dateDeleted.None? && it.dateDeletedArray == []
  }

  /** `dateDeleted` is null before any soft delete and the latest deletion time after one. */
  predicate DeletionConsistent(it: Item) {
    if it.dateDeletedArray == [] then it.dateDeleted.None?
    else it.dateDeleted == Some(it.dateDeletedArray[|it.dateDeletedArray| - 1])
  }

  /**
   `new Item({...})` followed by validation on save: a draft is accepted
   exactly when the schema's required/min rules hold, and the accepted item
   takes the draft's fields, `now` for a missing `dateAdded`, and the
   deletion defaults.
   */
  function NewItem(d: Draft, now: Timestamp): (r: Result<Item>)
    ensures r.Ok? <==> DraftValid(d)
    ensures r.Ok? ==> SchemaValid(r.value) && NeverSoftDeleted(r.value) && DeletionConsistent(r.value)
    ensures r.Ok? ==> r.value.dateAdded == (if d.dateAdded.Some? then d.dateAdded.value else now)
    ensures r.Ok? ==> Some(r.value.name) == d.name && Some(r.value.quantity) == d.quantity
    ensures r.Ok? ==> Some(r.value.address) == d.address && r.value.imageUrl == d.imageUrl
  {
    if DraftValid(d) then
      Ok(Item(d.name.value, d.quantity.value, d.dateAdded.GetOr(now), None, [], d.imageUrl, d.address.value))
    else
      ValidationError
  }

  /** The fields of a stored item, as a request would supply them. */
  function ToDraft(it: Item): Draft {
    Draft(Some(it.name), Some(it.quantity), Some(it.dateAdded), it.imageUrl, Some(it.address))
  }

  /** Every valid, never-deleted item is what the constructor builds from its own fields. */
  lemma NewItemFromOwnFields(it: Item, now: Timestamp)
    requires SchemaValid(it) && NeverSoftDeleted(it)
    ensures NewItem(ToDraft(it), now) == Ok(it)
  {
  }

  /** Reading the fields back from an accepted item gives the draft, with the default date filled in. */
  lemma NewItemKeepsDraft(d: Draft, now: Timestamp)
    requires NewItem(d, now).Ok?
    ensures ToDraft(NewItem(d, now).value) == d.(dateAdded := Some(d.dateAdded.GetOr(now)))
  {
  }

  /** Leaving out `imageUrl` never decides whether an item is accepted. */
  lemma ImageUrlOptional(d: Draft, now: Timestamp)
    ensures NewItem(d.(imageUrl := None), now).Ok? <==> NewItem(d, now).Ok?
  {
  }

  /**
   The soft-delete stamp: `dateDeleted` becomes `now` and `now` is appended
   to the deletion history; every other field is kept.
   */
  function Stamp(it: Item, now: Timestamp): (r: Item)
    ensures |r.dateDeletedArray| == |it.dateDeletedArray| + 1
    ensures r.dateDeletedArray[..|it.dateDeletedArray|] == it.dateDeletedArray
    ensures r.dateDeletedArray[|it.dateDeletedArray|] == now && r.dateDeleted == Some(now)
    ensures DeletionConsistent(r)
    ensures r.(dateDeleted := it.dateDeleted, dateDeletedArray := it.dateDeletedArray) == it
  {
    it.(dateDeleted := Some(now), dateDeletedArray := it.dateDeletedArray + [now])
  }

  /** The stamp touches no field the schema validates. */
  lemma StampKeepsSchema(it: Item, now: Timestamp)
    ensures SchemaValid(Stamp(it, now)) <==> SchemaValid(it)
  {
  }

  /**
   Two soft deletes leave a history two entries longer, in call order, with
   `dateDeleted` equal to the second time.
   */
  lemma StampTwice(it: Item, t1: Timestamp, t2: Timestamp)
    ensures Stamp(Stamp(it, t1), t2).dateDeletedArray == it.dateDeletedArray + [t1, t2]
    ensures Stamp(Stamp(it, t1), t2).dateDeleted == Some(t2)
  {
  }

  /**
   The effect of an update query that sets `name` and `quantity`: a field
   the request left out keeps its value, and no validator runs, so the
   result may violate the schema.
   */
  function Patch(it: Item, name: Option<string>, quantity: Option<int>): (r: Item)
    ensures r.name == (if name.Some? then name.value else it.name)
    ensures r.quantity == (if quantity.Some? then quantity.value else it.quantity)
    ensures r.(name := it.name, quantity := it.quantity) == it
  {
    it.(name := name.GetOr(it.name), quantity := quantity.GetOr(it.quantity))
  }

  /** An update that supplies neither field leaves the item as it was. */
  lemma PatchNothing(it: Item)
    ensures Patch(it, None, None) == it
  {
  }

  /** Updates leave the deletion bookkeeping alone. */
  lemma PatchKeepsDeletion(it: Item, name: Option<string>, quantity: Option<int>)
    ensures DeletionConsistent(Patch(it, name, quantity)) <==> DeletionConsistent(it)
  {
  }
}
