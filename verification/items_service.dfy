/** The item store: one object owning the backing file. Create, update and
    remove read the whole list, change it and write it back; find-all and
    find-by-id only read; a NotFound writes nothing. */
module Items {
  import opened ItemTypes
  import opened ItemFile
  import opened ItemList

  class ItemsService {
    /** The backing file, as the JSON parser sees its text. */
    var file: StoredText

    /** The list every read of the file yields. */
    function Contents(): seq<Item>
      reads this
    {
      ReadAll(file)
    }

    /** A store over a backing file that already exists with the given text. */
    constructor (initial: StoredText)
      ensures file == initial
    {
      file := initial;
    }

    /** Serialises the whole list into the backing file, replacing its text. */
    method WriteAll(items: seq<Item>)
      modifies this
      ensures file == Written(items)
      ensures Contents() == items
    {
      file := Written(items);
    }

    /** Every item, in file order; a corrupt file reads as no items. */
    method FindAll() returns (items: seq<Item>)
      ensures items == ReadAll(file)
    {
      items := ReadAll(file);
    }

    /** The first item carrying `id`, or NotFound; the file is never written. */
    method FindOne(id: string) returns (r: Result<Item>)
      ensures r == ItemList.FindOne(Contents(), id)
      ensures r.Err? <==> !HasId(Contents(), id)
    {
      var items := ReadAll(file);
      r := ItemList.FindOne(items, id);
    }

    /** Appends a new item built from the request, the fresh id and the current
        time, and writes the list back. */
    method Create(dto: CreateItemDto, freshId: string, now: int) returns (r: Item)
      modifies this
      ensures r.id == freshId && r.name == dto.name && r.description == dto.description
      ensures r.createdAt == now && r.updatedAt == None
      ensures Contents() == old(Contents()) + [r]
      ensures file == Written(Contents())
    {
      var items := ReadAll(file);
      r := Item(freshId, dto.name, dto.description, now, None);
      items := items + [r];
      WriteAll(items);
    }

    /** Overlays the request on the first item carrying `id`, stamps it with the
        current time and writes the list back; NotFound, with nothing written,
        when no item carries `id`. */
    method Update(id: string, dto: UpdateItemDto, now: int) returns (r: Result<Item>)
      modifies this
      ensures r.Err? <==> !HasId(old(Contents()), id)
      ensures r.Err? ==> r.error == NotFound(id) && file == old(file)
      ensures r.Ok? ==> UpdateIn(old(Contents()), id, dto, now) == Ok((Contents(), r.value))
      ensures r.Ok? ==> file == Written(Contents())
    {
      var items := ReadAll(file);
      var idx := FindIndex(items, id);
      if idx.None? {
        return Err(NotFound(id));
      }
      var updated := Merge(items[idx.value], dto, now);
      items := items[idx.value := updated];
      WriteAll(items);
      r := Ok(updated);
    }

    /** Drops every item carrying `id` and writes the rest back; NotFound, with
        nothing written, when that drops nothing. */
    method Remove(id: string) returns (r: Result<()>)
      modifies this
      ensures r.Err? <==> !HasId(old(Contents()), id)
      ensures r.Err? ==> r.error == NotFound(id) && file == old(file)
      ensures r.Ok? ==> Contents() == Without(old(Contents()), id) && file == Written(Contents())
    {
      var items := ReadAll(file);
      var newItems := Without(items, id);
      if |newItems| == |items| {
        return Err(NotFound(id));
      }
      WriteAll(newItems);
      r := Ok(());
    }
  }
}
