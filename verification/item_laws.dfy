/** How the store operations relate to one another: lookups after create,
    update and remove, remove as the inverse of create, and the order a remove
    keeps. */
module ItemLaws {
  import opened ItemTypes
  import opened ItemList

  /** Lookup in a list with one item appended: the appended item is found by its
      id unless an earlier item already carries that id, which then shadows it. */
  lemma {:induction false} FindAfterAppend(items: seq<Item>, x: Item)
    ensures FindOne(items + [x], x.id)
            == if HasId(items, x.id) then FindOne(items, x.id) else Ok(x)
  {
    var grown := items + [x];
    assert grown[|items|] == x;
    assert HasId(grown, x.id);
    var k' := FindIndex(grown, x.id).value;
    assert forall j :: 0 <= j < |items| ==> grown[j] == items[j];
    if HasId(items, x.id) {
      var k := FindIndex(items, x.id).value;
      assert k' == k;
    } else {
      assert k' == |items|;
    }
  }

  /** After a successful update, looking the id up yields the merged record. */
  lemma {:induction false} FindAfterUpdate(items: seq<Item>, id: string, dto: UpdateItemDto, now: int)
    requires UpdateIn(items, id, dto, now).Ok?
    ensures FindOne(UpdateIn(items, id, dto, now).value.0, id)
            == Ok(UpdateIn(items, id, dto, now).value.1)
  {
  }

  /** Repeating an update with the same request and time changes nothing more. */
  lemma {:induction false} UpdateTwice(items: seq<Item>, id: string, dto: UpdateItemDto, now: int)
    requires UpdateIn(items, id, dto, now).Ok?
    ensures UpdateIn(UpdateIn(items, id, dto, now).value.0, id, dto, now)
            == UpdateIn(items, id, dto, now)
  {
    var (after, updated) := UpdateIn(items, id, dto, now).value;
    FindAfterUpdate(items, id, dto, now);
    var k := FindIndex(after, id).value;
    assert after[k] == updated;
    assert Merge(updated, dto, now) == updated;
    assert after[k := updated] == after;
  }

  /** An update to one id is invisible to lookups of every other id. */
  lemma {:induction false} UpdateKeepsOtherLookups(
    items: seq<Item>, id: string, dto: UpdateItemDto, now: int, other: string)
    requires UpdateIn(items, id, dto, now).Ok?
    requires other != id
    ensures FindOne(UpdateIn(items, id, dto, now).value.0, other) == FindOne(items, other)
  {
  }

  /** After a successful remove, the id is no longer found. */
  lemma FindAfterRemove(items: seq<Item>, id: string)
    requires RemoveFrom(items, id).Ok?
    ensures FindOne(RemoveFrom(items, id).value, id) == Err(NotFound(id))
  {
  }

  /** Removing the same id a second time fails with NotFound. */
  lemma RemoveTwice(items: seq<Item>, id: string)
    requires RemoveFrom(items, id).Ok?
    ensures RemoveFrom(RemoveFrom(items, id).value, id) == Err(NotFound(id))
  {
  }

  /** Filtering works piecewise: the survivors of a concatenation are the
      survivors of each part, in the original order. */
  lemma {:induction false} WithoutConcat(a: seq<Item>, b: seq<Item>, id: string)
    ensures Without(a + b, id) == Without(a, id) + Without(b, id)
  {
    if |a| == 0 {
      assert a + b == b;
    } else {
      assert (a + b)[1..] == a[1..] + b;
      WithoutConcat(a[1..], b, id);
    }
  }

  /** Filtering a list that does not carry the id leaves it as it was. */
  lemma {:induction false} WithoutAbsent(items: seq<Item>, id: string)
    requires !HasId(items, id)
    ensures Without(items, id) == items
  {
    if |items| > 0 {
      var tail := items[1..];
      forall j | 0 <= j < |tail|
        ensures tail[j].id != id
      {
        assert tail[j] == items[j + 1];
      }
      WithoutAbsent(tail, id);
      assert items == [items[0]] + tail;
    }
  }

  /** Removing the id of an item just created, when the id was new, gives back
      the list as it was before the create. */
  lemma CreateThenRemove(items: seq<Item>, x: Item)
    requires !HasId(items, x.id)
    ensures RemoveFrom(items + [x], x.id) == Ok(items)
  {
    WithoutConcat(items, [x], x.id);
    WithoutAbsent(items, x.id);
    assert [x][1..] == [];
    assert Without([x], x.id) == Without([], x.id) == [];
    assert Without(items + [x], x.id) == items;
  }

  /** A remove of one id is invisible to lookups of every other id. */
  lemma {:induction false} RemoveKeepsOtherLookups(items: seq<Item>, id: string, other: string)
    requires other != id
    ensures FindOne(Without(items, id), other) == FindOne(items, other)
  {
    if |items| > 0 {
      RemoveKeepsOtherLookups(items[1..], id, other);
      FindOneCons(items, other);
      if items[0].id != id {
        FindOneCons([items[0]] + Without(items[1..], id), other);
        assert ([items[0]] + Without(items[1..], id))[1..] == Without(items[1..], id);
      }
    }
  }

  /** Lookup in a non-empty list: the head if it matches, else lookup in the tail. */
  lemma FindOneCons(items: seq<Item>, id: string)
    requires |items| > 0
    ensures FindOne(items, id) == if items[0].id == id then Ok(items[0]) else FindOne(items[1..], id)
  {
  }

  /** An update that carries only a name changes only the name and `updatedAt`. */
  lemma MergeNameOnly(item: Item, name: string, now: int)
    ensures Merge(item, UpdateItemDto(Some(name), None), now)
            == item.(name := name, updatedAt := Some(now))
  {
  }

  /** An update that carries only a description keeps the name and `createdAt`
      and sets the description and `updatedAt`. */
  lemma MergeDescriptionOnly(item: Item, description: string, now: int)
    ensures Merge(item, UpdateItemDto(None, Some(description)), now)
            == item.(description := Some(description), updatedAt := Some(now))
  {
  }
}
