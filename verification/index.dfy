/** The named-item registry of `internal/model/index.go`. */
module Indexes {
  import opened Identity
  import Keyed

  datatype Item = Item(id: Uuid, name: string)

  datatype Index = Index(items: seq<Item>)

  function ItemId(item: Item): Uuid {
    item.id
  }

  /** The index invariant: no two items share an ID. */
  ghost predicate WellFormed(ix: Index) {
    Keyed.Unique(ix.items, ItemId)
  }

  function NewItem(id: Uuid, name: string): (item: Item)
    ensures item.id == id && item.name == name
  {
    Item(id, name)
  }

  function NewIndex(): (ix: Index)
    ensures ix.items == []
    ensures WellFormed(ix)
    ensures forall id :: !HasItem(ix, id)
  {
    Index([])
  }

  function HasItem(ix: Index, id: Uuid): (b: bool)
    ensures b <==> exists i :: 0 <= i < |ix.items| && ix.items[i].id == id
  {
    Keyed.Has(ix.items, ItemId, id)
  }

  /** Appends the item unless one with its ID is present; afterwards the ID is present. */
  function AddItem(ix: Index, item: Item): (r: Index)
    ensures HasItem(ix, item.id) ==> r == ix
    ensures !HasItem(ix, item.id) ==> r.items == ix.items + [item]
    ensures HasItem(r, item.id)
    ensures WellFormed(ix) ==> WellFormed(r)
  {
    Index(Keyed.Add(ix.items, item, ItemId))
  }

  /** Deletes the item with that ID, keeping the order of the others; a no-op when it is absent. */
  function RemoveItem(ix: Index, id: Uuid): (r: Index)
    ensures !HasItem(ix, id) ==> r == ix
    ensures HasItem(ix, id) ==>
              exists i :: 0 <= i < |ix.items| && ix.items[i].id == id && (forall j :: 0 <= j < i ==> ix.items[j].id != id)
                       && r.items == ix.items[..i] + ix.items[i + 1..]
    ensures forall other :: other != id ==> (HasItem(r, other) <==> HasItem(ix, other))
    ensures WellFormed(ix) ==> WellFormed(r) && !HasItem(r, id)
  {
    Index(Keyed.Remove(ix.items, ItemId, id))
  }

  /** Removing any ID from a fresh index leaves it empty. */
  lemma RemoveFromEmptyIndex(id: Uuid)
    ensures RemoveItem(NewIndex(), id) == NewIndex()
  {
  }
}
