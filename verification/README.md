# Item store model

A Dafny model of the item store of a small NestJS CRUD service
(`ItemsService`). The service keeps a list of `Item` records in one JSON file.
The calls are find-all, find-by-id, create, update (a shallow merge) and
remove. Create, update and remove read the whole file, change the list in
memory and write the whole list back. Find-all and find-by-id only read. A
NotFound writes nothing. A file that is empty reads as `[]`. A file that does not
parse, or parses to something other than an array, reads as no items and
raises no error.

Layout:

- `item_types.dfy` (module `ItemTypes`): `Item` with its optional
  `description` and `updatedAt` as `Option`s, the two request bodies
  `CreateItemDto` and `UpdateItemDto`, the `NotFound` error and `Result`.
- `item_file.dfy` (module `ItemFile`): the backing file as the JSON parser
  sees it (`Blank`, or text that is `Malformed`, `NotAnArray` or
  `ArrayOf(items)`), the corruption-tolerant read `ReadAll`, and `Written`,
  the file after a write.
- `item_list.dfy` (module `ItemList`): the pure list operations:
  first match by id, the update merge, the remove filter, and the effect of
  update and remove on the list, with their NotFound cases.
- `item_laws.dfy` (module `ItemLaws`): lemmas that relate the operations.
  They cover lookup after create, update and remove, idempotence of update,
  remove as the inverse of create, the order a remove keeps, and the fact that
  operations on one id do not disturb lookups of another.
- `items_service.dfy` (module `Items`): class `ItemsService`. Its field
  `file` is the backing file. `Create`, `Update` and `Remove` read the file,
  change the list and write it back. Their `ensures` give the new file and the
  result in terms of `ItemList`'s functions. `FindAll` and `FindOne` only read
  (no `modifies`); their results are `ReadAll` and `ItemList.FindOne` of the
  file. Error paths leave `file` as it was.

The fresh id and the current time come from the runtime's random generator
and clock. Here they are parameters of `Create` and `Update`, so every result
is a function of the store and the arguments.

The text of `CreateItemDto` and `UpdateItemDto` is not part of this model.
`CreateItemDto` is assumed to carry a required `name`. The assumption rests on
`name: string` in `Item` (`src/items/interfaces/item.interface.ts:3`), which the
create call copies from the request. It is not derived from the code: the
validation pipe (`src/main.ts:16`) only enforces the request type's own
decorators, which are not part of this model. `UpdateItemDto` carries an optional
`name` and an optional `description`, and nothing else.

Two behaviours of the code that the model keeps as they are:

- The code never checks that ids are unique. `FindAfterAppend` states what
  happens when a created id already exists: lookup keeps returning the older
  item.
- The code stamps `updatedAt` with whatever the clock says. The time is a free
  parameter here, so no ordering is claimed.

## Model

| member | source | states |
|---|---|---|
| `ItemFile.ReadAll` | src/items/items.service.ts:28-35 | An empty file reads as the empty list. A malformed file or a non-array reads as the empty list. An array reads as exactly its elements. |
| `ItemFile.ReadAfterWrite` | src/items/items.service.ts:41 | Records the assumed JSON round trip: after the whole list is serialised into the file, reading the file gives back that list in the same order. It holds by the definition of `Written`, so it is an assumption stated, not a property of the parser proved. |
| `Items.ItemsService.WriteAll` | src/items/items.service.ts:39-46 | The file is replaced by the serialised list, so the next read yields exactly that list. |
| `Items.ItemsService.FindAll` | src/items/items.service.ts:48-50 | Returns exactly what the corruption-tolerant read of the file yields, and writes nothing. |
| `ItemList.FindIndex` | src/items/items.service.ts:79 | Returns the position of the first item with the id, or None exactly when no item has it. Every earlier item has a different id. |
| `ItemList.FindOne` | src/items/items.service.ts:54-55 | Returns the first item in list order whose id matches. Returns NotFound for that id exactly when no item has it. |
| `Items.ItemsService.FindOne` | src/items/items.service.ts:52-57 | Returns the first match in the file's list, or NotFound exactly when the id is absent. The method has no modifies clause, so the store is not changed. |
| `Items.ItemsService.Create` | src/items/items.service.ts:59-75 | The new item has the fresh id, the request's name and description, `createdAt = now` and no `updatedAt`. The list afterwards is the old list plus this item at the end, so every earlier item keeps its position. The returned item is that last element, and the file holds the new list. |
| `ItemList.Merge` | src/items/items.service.ts:82-86 | Fields the request carries take the request's value. Absent fields keep the old value, and `id` and `createdAt` always do. `updatedAt` becomes `now`. |
| `ItemList.UpdateIn` | src/items/items.service.ts:78-89 | Returns NotFound exactly when no item has the id. Otherwise the length is unchanged and only the first matching position changes. That position holds the merged record, which is also the one returned. |
| `Items.ItemsService.Update` | src/items/items.service.ts:77-90 | Returns NotFound exactly when the id is absent, and then the file is not written. Otherwise the file holds the list from `UpdateIn` and the returned record is the stored one. |
| `ItemList.Without` | src/items/items.service.ts:94 | An item survives exactly when it is in the list and its id differs. The result is never longer than the input. The length is unchanged exactly when no item has the id. The contract speaks of membership only; `WithoutConcat` and `WithoutAbsent` fix the order and multiplicity of the survivors. |
| `ItemList.RemoveFrom` | src/items/items.service.ts:94-95 | Returns NotFound exactly when the filter removes nothing. Otherwise it returns the filtered list, which is strictly shorter. |
| `Items.ItemsService.Remove` | src/items/items.service.ts:92-97 | Returns NotFound exactly when the id is absent, and then the file is not written. Otherwise the file holds the old list with every item that has the id removed. |
| `ItemLaws.FindAfterAppend` | src/items/items.service.ts:52-75 | After a create, looking up the new id returns the created item, unless an earlier item already had that id and shadows it. |
| `ItemLaws.FindOneCons` | src/items/items.service.ts:54 | Lookup returns the head of the list if it matches, and otherwise looks in the tail. |
| `ItemLaws.FindAfterUpdate` | src/items/items.service.ts:77-89 | After a successful update, looking up the id returns the record the update returned. |
| `ItemLaws.UpdateTwice` | src/items/items.service.ts:82-87 | Repeating an update with the same request and time gives the same list and the same record. |
| `ItemLaws.UpdateKeepsOtherLookups` | src/items/items.service.ts:79-87 | An update of one id does not change the lookup result of any other id. |
| `ItemLaws.MergeNameOnly` | src/items/items.service.ts:82-86 | An update carrying only a name changes only `name` and `updatedAt`. |
| `ItemLaws.MergeDescriptionOnly` | src/items/items.service.ts:82-86 | An update carrying only a description keeps the name and `createdAt`, sets the description and stamps `updatedAt`. |
| `ItemLaws.FindAfterRemove` | src/items/items.service.ts:94-96 | After a successful remove, looking up the id returns NotFound. |
| `ItemLaws.RemoveTwice` | src/items/items.service.ts:94-95 | Removing the same id a second time returns NotFound. |
| `ItemLaws.WithoutConcat` | src/items/items.service.ts:94 | The filter works piece by piece. The survivors of a concatenation are the survivors of each part, in the original order. |
| `ItemLaws.WithoutAbsent` | src/items/items.service.ts:94-95 | Filtering a list that has no item with the id returns the list unchanged. |
| `ItemLaws.RemoveKeepsOtherLookups` | src/items/items.service.ts:94 | Removing one id does not change the lookup result of any other id. |
| `ItemLaws.CreateThenRemove` | src/items/items.service.ts:59-97 | Creating an item with a new id and then removing that id gives back the original list. |

## Left out

- File-system I/O is not modelled. This covers `ensureFile` (checking the file, creating the directory, seeding it with `[]`), the file path, and the reads and writes themselves. The file is the `file` field and is assumed to exist. A missing file would be seeded with `[]` and would read like `Blank`.
- The `writeQueue` promise chain is not modelled. Each write is a direct assignment that completes at once. So the model has no concurrent callers, no reads racing with pending writes, and no failed writes. In the source a failed write is swallowed, and the caller still gets its result. The model does not capture that either.
- Id generation (`crypto.randomUUID`, or `Date.now()` plus a random suffix) and the `Date.now()` timestamps are not modelled. They are parameters instead. Id uniqueness is not assumed.
- `JSON.parse` and `JSON.stringify` are not modelled. Only the decision on the parse outcome is. The model assumes that the serialised list parses back to the same list, and that an array in the file holds well-formed `Item` records. The source casts without checking.
- JSON `null` field values and `undefined` fields are not modelled. Both are absent in the model (`None`).
- Merge: in the source, an update field that is present with value `null` or `undefined` is copied by the spread (`src/items/items.service.ts:84`) and overwrites the stored field. In the model such a field is `None`, so `Merge` keeps the old value instead.
- The HTTP controller, module wiring and bootstrap are not modelled. They route calls and map `NotFound` to status 404.
