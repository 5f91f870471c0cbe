/** The shopping-list items of App.tsx and the writes the voice commands make
    to them. The Firestore collection `lists/{id}/items` is a map from item
    id to item held by a `Store`; the React `items` state the handlers read
    is a separate snapshot, the `view`, which may lag behind the store. */
module ListStore {
  import opened Text
  import ItemParser

  /** `ShoppingItem`, the fields the voice path reads and writes. */
  datatype Item = Item(id: nat, name: string, quantity: int, isPurchased: bool)

  // ---------------------------------------------------------------------
  // findItemByName
  // ---------------------------------------------------------------------

  /** The normalized names of the items, in order. */
  function NormalizedNames(items: seq<Item>): (r: seq<string>)
    ensures |r| == |items|
    ensures forall k :: 0 <= k < |items| ==> r[k] == ItemParser.Normalize(items[k].name)
  {
    if items == [] then [] else [ItemParser.Normalize(items[0].name)] + NormalizedNames(items[1..])
  }

  /** One name contains the other. */
  predicate Overlaps(m: string, n: string) {
    Contains(m, n) || Contains(n, m)
  }

  /** The first index from `from` on holding `n`, or -1. */
  function FirstEqual(names: seq<string>, n: string, from: nat): (k: int)
    requires from <= |names|
    ensures k == -1 || from <= k < |names|
    ensures k >= 0 ==> names[k] == n && forall j :: from <= j < k ==> names[j] != n
    ensures k == -1 ==> forall j :: from <= j < |names| ==> names[j] != n
    decreases |names| - from
  {
    if from == |names| then -1
    else if names[from] == n then from
    else FirstEqual(names, n, from + 1)
  }

  /** The first index from `from` on holding a name that overlaps `n`, or -1. */
  function FirstOverlapping(names: seq<string>, n: string, from: nat): (k: int)
    requires from <= |names|
    ensures k == -1 || from <= k < |names|
    ensures k >= 0 ==> Overlaps(names[k], n) && forall j :: from <= j < k ==> !Overlaps(names[j], n)
    ensures k == -1 ==> forall j :: from <= j < |names| ==> !Overlaps(names[j], n)
    decreases |names| - from
  {
    if from == |names| then -1
    else if Overlaps(names[from], n) then from
    else FirstOverlapping(names, n, from + 1)
  }

  /** `findItemByName(name)` over the view, as an index (-1 for `null`): the
      first item whose normalized name equals the normalized query; failing
      that, the first whose normalized name contains the query or is
      contained in it. */
  function FindItemByName(items: seq<Item>, name: string): (k: int)
    ensures -1 <= k < |items|
    ensures var names, n := NormalizedNames(items), ItemParser.Normalize(name);
      && (k >= 0 && names[k] == n ==> forall j :: 0 <= j < k ==> names[j] != n)
      && (k >= 0 && names[k] != n ==>
            Overlaps(names[k], n) && (forall j :: 0 <= j < |items| ==> names[j] != n)
            && forall j :: 0 <= j < k ==> !Overlaps(names[j], n))
      && (k == -1 <==> forall j :: 0 <= j < |items| ==> names[j] != n && !Overlaps(names[j], n))
  {
    var names, n := NormalizedNames(items), ItemParser.Normalize(name);
    var exact := FirstEqual(names, n, 0);
    if exact >= 0 then exact else FirstOverlapping(names, n, 0)
  }

  /** An exact match anywhere wins over every partial match before it. */
  lemma ExactBeatsOverlap(items: seq<Item>, name: string, j: nat)
    requires j < |items| && ItemParser.Normalize(items[j].name) == ItemParser.Normalize(name)
    ensures 0 <= FindItemByName(items, name) <= j
    ensures ItemParser.Normalize(items[FindItemByName(items, name)].name) == ItemParser.Normalize(name)
  {
  }

  /** `items.find((i) => i.id === id)`, as an index (-1 when absent). */
  function FindById(items: seq<Item>, id: nat): (k: int)
    ensures -1 <= k < |items|
    ensures k >= 0 ==> items[k].id == id && forall j :: 0 <= j < k ==> items[j].id != id
    ensures k == -1 ==> forall j :: 0 <= j < |items| ==> items[j].id != id
  {
    if items == [] then -1
    else if items[0].id == id then 0
    else
      var k := FindById(items[1..], id);
      if k == -1 then -1 else k + 1
  }

  // ---------------------------------------------------------------------
  // the writes, as functions of the collection
  // ---------------------------------------------------------------------

  /** `updateDoc(..., { quantity: q })`: the doc, if there is one, gets the
      new quantity and keeps everything else. */
  function WithQuantity(docs: map<nat, Item>, id: nat, q: int): (r: map<nat, Item>)
    ensures r.Keys == docs.Keys
    ensures forall j :: j in docs && j != id ==> r[j] == docs[j]
    ensures id in docs ==> r[id] == docs[id].(quantity := q)
  {
    if id in docs then docs[id := docs[id].(quantity := q)] else docs
  }

  /** `updateQty(id, delta)`: a positive delta is an atomic increment of the
      stored quantity; any other delta sets the quantity the view shows plus
      delta, but never below 1, and does nothing for an item the view lacks. */
  function QtyUpdated(docs: map<nat, Item>, view: seq<Item>, id: nat, delta: int): map<nat, Item> {
    if delta > 0 then
      if id in docs then WithQuantity(docs, id, docs[id].quantity + delta) else docs
    else
      var k := FindById(view, id);
      if k < 0 then docs else WithQuantity(docs, id, Max(1, view[k].quantity + delta))
  }

  /** `togglePurchased(id)`: the stored flag becomes the opposite of the flag
      the view shows; nothing happens for an item the view lacks. */
  function Toggled(docs: map<nat, Item>, view: seq<Item>, id: nat): map<nat, Item> {
    var k := FindById(view, id);
    if k < 0 || id !in docs then docs else docs[id := docs[id].(isPurchased := !view[k].isPurchased)]
  }

  /** The view shows every item exactly as stored. */
  predicate Synced(view: seq<Item>, docs: map<nat, Item>) {
    forall k :: 0 <= k < |view| ==> view[k].id in docs && docs[view[k].id] == view[k]
  }

  /** A positive delta adds exactly that much to the stored quantity. */
  lemma IncreaseAdds(docs: map<nat, Item>, view: seq<Item>, id: nat, delta: int)
    requires delta > 0 && id in docs
    ensures var r := QtyUpdated(docs, view, id, delta);
      r.Keys == docs.Keys && r[id] == docs[id].(quantity := docs[id].quantity + delta)
      && forall j :: j in docs && j != id ==> r[j] == docs[j]
  {
  }

  /** A decrease by one on a view in step with the store takes the quantity
      to `max(1, q - 1)`: it never goes below 1, and an item at 1 stays at 1. */
  lemma DecreaseClamps(docs: map<nat, Item>, view: seq<Item>, id: nat)
    requires Synced(view, docs) && FindById(view, id) >= 0
    ensures id in docs
    ensures var r := QtyUpdated(docs, view, id, -1);
      && r[id] == docs[id].(quantity := Max(1, docs[id].quantity - 1))
      && r[id].quantity >= 1
      && (docs[id].quantity <= 1 ==> r[id].quantity == 1)
      && forall j :: j in docs && j != id ==> r[j] == docs[j]
  {
    var k := FindById(view, id);
    assert view[k].id == id;
  }

  /** On a view in step with the store, toggling flips the stored flag;
      toggling again from the same, now stale, view sets the same value. */
  lemma ToggleFromView(docs: map<nat, Item>, view: seq<Item>, id: nat)
    requires Synced(view, docs) && FindById(view, id) >= 0
    ensures id in docs
    ensures Toggled(docs, view, id)[id] == docs[id].(isPurchased := !docs[id].isPurchased)
    ensures Toggled(Toggled(docs, view, id), view, id) == Toggled(docs, view, id)
  {
    var k := FindById(view, id);
    assert view[k].id == id;
  }

  // ---------------------------------------------------------------------
  // the collection
  // ---------------------------------------------------------------------

  /** Every stored item sits under its own id, and every id is below the
      next fresh one. */
  predicate WellKeyed(docs: map<nat, Item>, nextId: nat) {
    forall id :: id in docs ==> id < nextId && docs[id].id == id
  }

  /** The items of one list. Fresh ids (`crypto.randomUUID()`) are drawn from
      a counter, which makes them distinct from every id in use. */
  class Store {
    var docs: map<nat, Item>
    var nextId: nat

    ghost predicate Valid()
      reads this
    {
      WellKeyed(docs, nextId)
    }

    constructor ()
      ensures docs == map[] && nextId == 0 && Valid()
    {
      docs := map[];
      nextId := 0;
    }

    /** `updateDoc(doc(id), { quantity: q })` */
    method SetQuantity(id: nat, q: int)
      requires Valid()
      modifies this
      ensures docs == WithQuantity(old(docs), id, q) && nextId == old(nextId)
      ensures Valid()
    {
      if id in docs {
        docs := docs[id := docs[id].(quantity := q)];
      }
    }

    /** `setDoc` of a new item with a fresh id, not purchased. */
    method CreateItem(name: string, qty: int) returns (id: nat)
      requires Valid()
      modifies this
      ensures id == old(nextId) && id !in old(docs)
      ensures docs == old(docs)[id := Item(id, name, qty, false)] && nextId == old(nextId) + 1
      ensures Valid()
    {
      id := nextId;
      docs := docs[id := Item(id, name, qty, false)];
      nextId := nextId + 1;
    }

    /** `deleteDoc(doc(id))`; deleting a missing doc changes nothing. */
    method DeleteItem(id: nat)
      requires Valid()
      modifies this
      ensures docs == old(docs) - {id} && nextId == old(nextId)
      ensures Valid()
    {
      docs := docs - {id};
    }

    /** `clearListServer`: every doc of the list is deleted. */
    method ClearList()
      requires Valid()
      modifies this
      ensures docs == map[] && nextId == old(nextId)
      ensures Valid()
    {
      docs := map[];
    }

    /** `updateQty(id, delta)` */
    method UpdateQty(view: seq<Item>, id: nat, delta: int)
      requires Valid()
      modifies this
      ensures docs == QtyUpdated(old(docs), view, id, delta) && nextId == old(nextId)
      ensures Valid()
    {
      if delta > 0 {
        Increment(id, delta);
        return;
      }
      var k := FindById(view, id);
      if k < 0 {
        return;
      }
      SetQuantity(id, Max(1, view[k].quantity + delta));
    }

    /** The atomic `increment(delta)` on the stored quantity. */
    method Increment(id: nat, delta: int)
      requires Valid()
      modifies this
      ensures docs == (if id in old(docs) then WithQuantity(old(docs), id, old(docs)[id].quantity + delta) else old(docs))
      ensures nextId == old(nextId) && Valid()
    {
      if id in docs {
        SetQuantity(id, docs[id].quantity + delta);
      }
    }

    /** `togglePurchased(id)` */
    method TogglePurchased(view: seq<Item>, id: nat)
      requires Valid()
      modifies this
      ensures docs == Toggled(old(docs), view, id) && nextId == old(nextId)
      ensures Valid()
    {
      var k := FindById(view, id);
      if k < 0 || id !in docs {
        return;
      }
      docs := docs[id := docs[id].(isPurchased := !view[k].isPurchased)];
    }
  }
}
