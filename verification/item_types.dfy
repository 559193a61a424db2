/** The records the item store works with: the persisted Item, the two request
    bodies (create and update), and the store's error and result types. */
module ItemTypes {

  /** An optional field: absent (None) or present with a value. */
  datatype Option<+T> = None | Some(value: T)

  /** One stored item. `description` and `updatedAt` are optional; the
      timestamps are milliseconds since the epoch. */
  datatype Item = Item(
    id: string,
    name: string,
    description: Option<string>,
    createdAt: int,
    updatedAt: Option<int>)

  /** The body of a create request: a name and an optional description. */
  datatype CreateItemDto = CreateItemDto(name: string, description: Option<string>)

  /** The body of an update request: every field may be absent. */
  datatype UpdateItemDto = UpdateItemDto(name: Option<string>, description: Option<string>)

  /** The only error the store raises: no item carries the requested id. */
  datatype Error = NotFound(id: string)

  datatype Result<+T> = Ok(value: T) | Err(error: Error)
}
