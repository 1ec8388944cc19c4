/** The menu record, the errors the handlers report, and the store the
    handlers read and write. */
module Menu {
  import opened Wrappers

  /** An ISO-8601 instant as produced by `new Date().toISOString()`; the
      model never looks inside it. */
  datatype Timestamp = Instant(iso: string)

  /** One menu record. `calories` is `None` where the stored value is `NaN`
      (created without calories). */
  datatype MenuItem = MenuItem(
    id: int,
    name: string,
    category: string,
    price: int,
    calories: Option<int>,
    ingredients: seq<string>,
    description: string,
    createdAt: Timestamp,
    updatedAt: Timestamp)

  /** The failures the handlers answer with a 4xx status. */
  datatype MenuError =
    | MissingFields   // 400 "Required fields missing"
    | NotFound        // 404 "Menu not found"
    | InvalidMode     // 400 "Invalid mode"

  /** The `menus` collection: documents keyed by their numeric id. */
  type Store = map<int, MenuItem>

  /** Every document sits under the key its own `id` field names, as
      `createMenu` writes it and `updateMenu` re-pins it. */
  predicate WellKeyed(store: Store) {
    forall k :: k in store ==> store[k].id == k
  }
}
