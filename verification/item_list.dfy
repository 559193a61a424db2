/** The list operations behind each store call: find by id, the shallow merge
    of an update, and the whole-list effect of create, update and remove. */
module ItemList {
  import opened ItemTypes

  /** Some item in the list carries `id`. */
  predicate HasId(items: seq<Item>, id: string)
  {
    exists j :: 0 <= j < |items| && items[j].id == id
  }

  /** The position of the first item carrying `id`, or None (the source's -1). */
  function FindIndex(items: seq<Item>, id: string): (r: Option<nat>)
    ensures r.None? <==> !HasId(items, id)
    ensures r.Some? ==> r.value < |items| && items[r.value].id == id
    ensures r.Some? ==> forall j :: 0 <= j < r.value ==> items[j].id != id
  {
    if |items| == 0 then None
    else if items[0].id == id then Some(0)
    else
      match FindIndex(items[1..], id)
      case None =>
        assert forall j :: 1 <= j < |items| ==> items[j] == items[1..][j - 1];
        None
      case Some(k) => Some(k + 1)
  }

  /** The first item carrying `id`, or NotFound. */
  function FindOne(items: seq<Item>, id: string): (r: Result<Item>)
    ensures r.Err? <==> !HasId(items, id)
    ensures r.Err? ==> r.error == NotFound(id)
    ensures r.Ok? ==> exists k :: 0 <= k < |items| && items[k] == r.value && r.value.id == id
                          && forall j :: 0 <= j < k ==> items[j].id != id
  {
    match FindIndex(items, id)
    case None => Err(NotFound(id))
    case Some(k) => Ok(items[k])
  }

  /** The record an update stores: the old record, overlaid with the fields the
      request carries, stamped with `now`. */
  function Merge(item: Item, dto: UpdateItemDto, now: int): (r: Item)
    ensures r.id == item.id && r.createdAt == item.createdAt
    ensures dto.name.Some? ==> r.name == dto.name.value
    ensures dto.name.None? ==> r.name == item.name
    ensures dto.description.Some? ==> r.description == dto.description
    ensures dto.description.None? ==> r.description == item.description
    ensures r.updatedAt == Some(now)
  {
    var name := if dto.name.Some? then dto.name.value else item.name;
    var description := if dto.description.Some? then dto.description else item.description;
    item.(name := name, description := description, updatedAt := Some(now))
  }

  /** The list with every item carrying `id` dropped, the rest in order. */
  function Without(items: seq<Item>, id: string): (r: seq<Item>)
    ensures forall x :: x in r <==> x in items && x.id != id
    ensures |r| <= |items|
    ensures |r| == |items| <==> !HasId(items, id)
  {
    if |items| == 0 then []
    else
      assert HasId(items, id) <==> items[0].id == id || HasId(items[1..], id) by {
        if HasId(items[1..], id) {
          var j :| 0 <= j < |items[1..]| && items[1..][j].id == id;
          assert items[j + 1].id == id;
        }
        if HasId(items, id) && items[0].id != id {
          var j :| 0 <= j < |items| && items[j].id == id;
          assert items[1..][j - 1].id == id;
        }
      }
      if items[0].id == id then Without(items[1..], id)
      else [items[0]] + Without(items[1..], id)
  }

  /** The effect of a remove on the list: the filtered list, or NotFound when
      filtering removed nothing. */
  function RemoveFrom(items: seq<Item>, id: string): (r: Result<seq<Item>>)
    ensures r.Err? <==> !HasId(items, id)
    ensures r.Err? ==> r.error == NotFound(id)
    ensures r.Ok? ==> r.value == Without(items, id) && |r.value| < |items|
  {
    var kept := Without(items, id);
    if |kept| == |items| then Err(NotFound(id)) else Ok(kept)
  }

  /** The effect of an update on the list: the new list and the merged record,
      or NotFound when no item carries `id`. */
  function UpdateIn(items: seq<Item>, id: string, dto: UpdateItemDto, now: int)
    : (r: Result<(seq<Item>, Item)>)
    ensures r.Err? <==> !HasId(items, id)
    ensures r.Err? ==> r.error == NotFound(id)
    ensures r.Ok? ==> |r.value.0| == |items|
    ensures r.Ok? ==>
      exists k :: 0 <= k < |items| && items[k].id == id
        && (forall j :: 0 <= j < k ==> items[j].id != id)
        && r.value.1 == Merge(items[k], dto, now)
        && r.value.0[k] == r.value.1
        && (forall j :: 0 <= j < |items| && j != k ==> r.value.0[j] == items[j])
  {
    match FindIndex(items, id)
    case None => Err(NotFound(id))
    case Some(k) =>
      var updated := Merge(items[k], dto, now);
      Ok((items[k := updated], updated))
  }
}
