/**
 The CSV ledger row that the bulk import appends for every inserted item.
 Writing the file is left out; what is modelled is whether the row can be
 built at all, which decides whether the append throws.
 */
module Ledger {
  import opened ItemModel

  /** One ledger row: the item's fields and its deletion history. */
  datatype LedgerRow = LedgerRow(
    name: string,
    quantity: int,
    dateAdded: Timestamp,
    address: string,
    dateDeleted: Option<Timestamp>,
    deletionDates: seq<Timestamp>)

  /** The property the ledger reads the deletion history from, as utils/csvUtils.js has it. */
  const HistoryKeyAsWritten: string := "deletionDates"

  /** The schema's own name for the deletion history. */
  const HistoryKey: string := "dateDeletedArray"

  /**
   Reading a list of timestamps off a stored document by property name: the
   schema defines only `dateDeletedArray`; any other name reads as undefined.
   */
  function DatesProperty(it: Item, key: string): (r: Option<seq<Timestamp>>)
    ensures r.Some? <==> key == HistoryKey
    ensures r.Some? ==> r.value == it.dateDeletedArray
  {
    if key == HistoryKey then Some(it.dateDeletedArray) else None
  }

  /**
   Building the ledger row, reading the history from property `key`; `None`
   is the TypeError raised by mapping over an undefined value.
   */
  function RowFor(it: Item, key: string): (r: Option<LedgerRow>)
    ensures r.Some? <==> key == HistoryKey
    ensures r.Some? ==> r.value.deletionDates == it.dateDeletedArray && r.value.dateDeleted == it.dateDeleted
    ensures r.Some? ==> r.value.name == it.name && r.value.quantity == it.quantity
    ensures r.Some? ==> r.value.dateAdded == it.dateAdded && r.value.address == it.address
  {
    match DatesProperty(it, key)
    case None => None
    case Some(dates) => Some(LedgerRow(it.name, it.quantity, it.dateAdded, it.address, it.dateDeleted, dates))
  }

  /** Whether appending each item in turn completes without throwing. */
  predicate AppendsAll(items: seq<Item>, key: string) {
    forall i :: 0 <= i < |items| ==> RowFor(items[i], key).Some?
  }

  /** As written, the append throws for every item, so any non-empty batch throws. */
  lemma AppendAsWrittenThrows(items: seq<Item>)
    requires |items| > 0
    ensures !AppendsAll(items, HistoryKeyAsWritten)
  {
    assert RowFor(items[0], HistoryKeyAsWritten).None?;
  }

  /** Reading the schema's own field, every append completes and records the full history. */
  lemma AppendWithSchemaKey(items: seq<Item>)
    ensures AppendsAll(items, HistoryKey)
    ensures forall i :: 0 <= i < |items| ==> RowFor(items[i], HistoryKey).value.deletionDates == items[i].dateDeletedArray
  {
  }
}
