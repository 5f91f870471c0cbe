/** `executeVoiceTextWithUndo` and `runUndoActions` of App.tsx: one voice
    transcript becomes one command on the list, and an "add items" command
    returns the actions that take the list back to where it was. */
module Executor {
  import opened Text
  import opened ItemParser
  import opened Commands
  import opened ListStore

  /** `VoiceUndoAction`: delete an item the command created, or put back the
      quantity an existing item had. */
  datatype UndoAction = DeleteCreated(id: nat) | RestoreQty(id: nat, prevQty: int)

  /** The collection, the next fresh id and the undo actions recorded so far. */
  datatype Ledger = Ledger(docs: map<nat, Item>, nextId: nat, actions: seq<UndoAction>)

  // ---------------------------------------------------------------------
  // the add loop
  // ---------------------------------------------------------------------

  /** The first index from `from` on of an item that is not purchased and
      whose normalized name is `n`, or -1. */
  function FirstActive(view: seq<Item>, names: seq<string>, n: string, from: nat): (k: int)
    requires |names| == |view| && from <= |view|
    ensures k == -1 || from <= k < |view|
    ensures k >= 0 ==> !view[k].isPurchased && names[k] == n
    ensures k >= 0 ==> forall j :: from <= j < k ==> view[j].isPurchased || names[j] != n
    ensures k == -1 ==> forall j :: from <= j < |view| ==> view[j].isPurchased || names[j] != n
    decreases |view| - from
  {
    if from == |view| then -1
    else if !view[from].isPurchased && names[from] == n then from
    else FirstActive(view, names, n, from + 1)
  }

  /** `itemsNow.find((i) => !i.isPurchased && normalize(i.name) === normalize(name))` */
  function FindActive(view: seq<Item>, name: string): (k: int)
    ensures -1 <= k < |view|
    ensures k >= 0 ==> !view[k].isPurchased && Normalize(view[k].name) == Normalize(name)
    ensures k == -1 ==> forall j :: 0 <= j < |view| ==>
      view[j].isPurchased || NormalizedNames(view)[j] != Normalize(name)
  {
    FirstActive(view, NormalizedNames(view), Normalize(name), 0)
  }

  /** One parsed item: an unpurchased item of the same name gets the parsed
      quantity and its old quantity is recorded; otherwise a new item is
      created and its id recorded. A blank name is skipped. */
  function AddOne(st: Ledger, view: seq<Item>, p: ParsedItem): Ledger {
    var name := Trim(p.name);
    if name == "" then st
    else
      var k := FindActive(view, name);
      if k >= 0 then
        Ledger(WithQuantity(st.docs, view[k].id, p.qty), st.nextId,
               st.actions + [RestoreQty(view[k].id, view[k].quantity)])
      else
        Ledger(st.docs[st.nextId := Item(st.nextId, name, p.qty, false)], st.nextId + 1,
               st.actions + [DeleteCreated(st.nextId)])
  }

  /** The parsed items, one after the other. */
  function AddAll(st: Ledger, view: seq<Item>, ps: seq<ParsedItem>): Ledger
    decreases |ps|
  {
    if ps == [] then st else AddOne(AddAll(st, view, ps[..|ps| - 1]), view, ps[|ps| - 1])
  }

  // ---------------------------------------------------------------------
  // undo
  // ---------------------------------------------------------------------

  /** One undo action; a failing write (the doc is gone) changes nothing. */
  function UndoOne(docs: map<nat, Item>, a: UndoAction): (r: map<nat, Item>)
    ensures r.Keys <= docs.Keys
  {
    match a
    case DeleteCreated(id) => docs - {id}
    case RestoreQty(id, q) => WithQuantity(docs, id, q)
  }

  /** `runUndoActions(actions)`: the actions in the order they were recorded. */
  function UndoAll(docs: map<nat, Item>, acts: seq<UndoAction>): map<nat, Item>
    decreases |acts|
  {
    if acts == [] then docs else UndoOne(UndoAll(docs, acts[..|acts| - 1]), acts[|acts| - 1])
  }

  // ---------------------------------------------------------------------
  // the command
  // ---------------------------------------------------------------------

  /** The text the command is read from. */
  function CommandText(raw: string): (t: string)
    ensures SingleSpaced(t)
  {
    Normalize(NormalizeVoiceText(raw))
  }

  /** A command about one named item. */
  predicate NamesItem(cmd: Command) {
    cmd.DeleteItem? || cmd.MarkBought? || cmd.Increase? || cmd.Decrease?
  }

  /** A command about one named item on the collection `docs`: the item is
      looked up by name in the view, and a name that finds nothing changes
      nothing. Marking an item the view shows as purchased changes nothing. */
  function Edit(docs: map<nat, Item>, view: seq<Item>, cmd: Command): (r: map<nat, Item>)
    requires NamesItem(cmd)
    ensures FindItemByName(view, cmd.name) < 0 ==> r == docs
    ensures cmd.DeleteItem? && FindItemByName(view, cmd.name) >= 0 ==>
      r == docs - {view[FindItemByName(view, cmd.name)].id}
    ensures cmd.MarkBought? && FindItemByName(view, cmd.name) >= 0 && view[FindItemByName(view, cmd.name)].isPurchased ==>
      r == docs
  {
    var k := FindItemByName(view, cmd.name);
    if k < 0 then docs
    else
      match cmd
      case DeleteItem(_) => docs - {view[k].id}
      case MarkBought(_) => if view[k].isPurchased then docs else Toggled(docs, view, view[k].id)
      case Increase(_) => QtyUpdated(docs, view, view[k].id, 1)
      case Decrease(_) => QtyUpdated(docs, view, view[k].id, -1)
  }

  /** The command `cmd` on the collection `docs`, reading the items through
      `view` and parsing with `v`: the new collection, the next fresh id and
      the undo actions. */
  function Apply(v: Vocab, docs: map<nat, Item>, nextId: nat, view: seq<Item>, cmd: Command): (r: Ledger)
    ensures r.actions != [] ==> cmd.AddItems?
    ensures !cmd.AddItems? ==> r.nextId == nextId
  {
    match cmd
    case Nothing => Ledger(docs, nextId, [])
    case ClearList => Ledger(map[], nextId, [])
    case AddItems(payload) => AddAll(Ledger(docs, nextId, []), view, ParseSegments(v, Segments(payload)))
    case _ => Ledger(Edit(docs, view, cmd), nextId, [])
  }

  /** `executeVoiceTextWithUndo(raw)`: the transcript is classified and the
      command applied. */
  function Execute(v: Vocab, docs: map<nat, Item>, nextId: nat, view: seq<Item>, raw: string, lang: Lang): (r: Ledger)
    ensures r.actions != [] ==> Classify(CommandText(raw), lang).AddItems?
    ensures CommandText(raw) == "" ==> r == Ledger(docs, nextId, [])
  {
    Apply(v, docs, nextId, view, Classify(CommandText(raw), lang))
  }

  // ---------------------------------------------------------------------
  // undo takes an "add items" command back
  // ---------------------------------------------------------------------

  /** The ids of the items the actions delete. */
  function CreatedIds(acts: seq<UndoAction>): set<nat> {
    set k | 0 <= k < |acts| && acts[k].DeleteCreated? :: acts[k].id
  }

  /** The ids of the items whose quantity the actions put back. */
  function RestoredIds(acts: seq<UndoAction>): set<nat> {
    set k | 0 <= k < |acts| && acts[k].RestoreQty? :: acts[k].id
  }

  /** Every action fits the collection `d0` it is to bring back: a restored
      quantity is the one `d0` holds, and a deleted item is not in `d0`. */
  predicate ActionsFit(acts: seq<UndoAction>, d0: map<nat, Item>) {
    forall k :: 0 <= k < |acts| ==>
      match acts[k]
      case RestoreQty(id, q) => id in d0 && q == d0[id].quantity
      case DeleteCreated(id) => id !in d0
  }

  /** `d` differs from `d0` only in ways `acts` undoes: extra items the
      actions delete and quantities the actions restore. */
  predicate Undoable(d: map<nat, Item>, d0: map<nat, Item>, acts: seq<UndoAction>) {
    && ActionsFit(acts, d0)
    && d0.Keys <= d.Keys
    && (forall id :: id in d && id !in d0 ==> id in CreatedIds(acts))
    && (forall id :: id in d0 ==>
          d[id] == d0[id] || (id in RestoredIds(acts) && d[id] == d0[id].(quantity := d[id].quantity)))
  }

  lemma IdsOfTail(acts: seq<UndoAction>)
    requires acts != []
    ensures CreatedIds(acts) == CreatedIds(acts[1..]) + (if acts[0].DeleteCreated? then {acts[0].id} else {})
    ensures RestoredIds(acts) == RestoredIds(acts[1..]) + (if acts[0].RestoreQty? then {acts[0].id} else {})
  {
    var t := acts[1..];
    forall id | id in CreatedIds(acts)
      ensures id in CreatedIds(t) || (acts[0].DeleteCreated? && id == acts[0].id)
    {
      var k :| 0 <= k < |acts| && acts[k].DeleteCreated? && acts[k].id == id;
      if k > 0 { assert t[k - 1] == acts[k]; }
    }
    forall id | id in CreatedIds(t) ensures id in CreatedIds(acts) {
      var k :| 0 <= k < |t| && t[k].DeleteCreated? && t[k].id == id;
      assert acts[k + 1] == t[k];
    }
    forall id | id in RestoredIds(acts)
      ensures id in RestoredIds(t) || (acts[0].RestoreQty? && id == acts[0].id)
    {
      var k :| 0 <= k < |acts| && acts[k].RestoreQty? && acts[k].id == id;
      if k > 0 { assert t[k - 1] == acts[k]; }
    }
    forall id | id in RestoredIds(t) ensures id in RestoredIds(acts) {
      var k :| 0 <= k < |t| && t[k].RestoreQty? && t[k].id == id;
      assert acts[k + 1] == t[k];
    }
  }

  lemma IdsOfSnoc(acts: seq<UndoAction>, a: UndoAction)
    ensures CreatedIds(acts + [a]) == CreatedIds(acts) + (if a.DeleteCreated? then {a.id} else {})
    ensures RestoredIds(acts + [a]) == RestoredIds(acts) + (if a.RestoreQty? then {a.id} else {})
  {
    var s := acts + [a];
    forall id | id in CreatedIds(s) ensures id in CreatedIds(acts) || (a.DeleteCreated? && id == a.id) {
      var k :| 0 <= k < |s| && s[k].DeleteCreated? && s[k].id == id;
      if k < |acts| { assert s[k] == acts[k]; }
    }
    forall id | id in CreatedIds(acts) ensures id in CreatedIds(s) {
      var k :| 0 <= k < |acts| && acts[k].DeleteCreated? && acts[k].id == id;
      assert s[k] == acts[k];
    }
    if a.DeleteCreated? { assert s[|acts|] == a; }
    forall id | id in RestoredIds(s) ensures id in RestoredIds(acts) || (a.RestoreQty? && id == a.id) {
      var k :| 0 <= k < |s| && s[k].RestoreQty? && s[k].id == id;
      if k < |acts| { assert s[k] == acts[k]; }
    }
    forall id | id in RestoredIds(acts) ensures id in RestoredIds(s) {
      var k :| 0 <= k < |acts| && acts[k].RestoreQty? && acts[k].id == id;
      assert s[k] == acts[k];
    }
    if a.RestoreQty? { assert s[|acts|] == a; }
  }

  /** Undoing the first action leaves a collection the rest undoes. */
  lemma UndoStep(d: map<nat, Item>, d0: map<nat, Item>, acts: seq<UndoAction>)
    requires acts != [] && Undoable(d, d0, acts)
    ensures Undoable(UndoOne(d, acts[0]), d0, acts[1..])
  {
    IdsOfTail(acts);
    var t := acts[1..];
    forall k | 0 <= k < |t|
      ensures match t[k]
        case RestoreQty(id, q) => id in d0 && q == d0[id].quantity
        case DeleteCreated(id) => id !in d0
    {
      assert t[k] == acts[k + 1];
    }
    var a := acts[0];
    match a
    case RestoreQty(id, q) =>
      assert id in d0 && q == d0[id].quantity;
    case DeleteCreated(id) =>
      assert id !in d0;
  }

  /** After the first `i` actions the rest still undo what remains. */
  lemma {:induction false} UndoPrefix(d: map<nat, Item>, d0: map<nat, Item>, acts: seq<UndoAction>, i: nat)
    requires Undoable(d, d0, acts) && i <= |acts|
    ensures Undoable(UndoAll(d, acts[..i]), d0, acts[i..])
  {
    if i == 0 {
      assert acts[..0] == [] && acts[0..] == acts;
    } else {
      UndoPrefix(d, d0, acts, i - 1);
      var x := UndoAll(d, acts[..i - 1]);
      UndoStep(x, d0, acts[i - 1..]);
      assert acts[i - 1..][1..] == acts[i..];
      assert acts[..i][..i - 1] == acts[..i - 1];
    }
  }

  /** Running all the actions brings back `d0` exactly. */
  lemma UndoRestores(d: map<nat, Item>, d0: map<nat, Item>, acts: seq<UndoAction>)
    requires Undoable(d, d0, acts)
    ensures UndoAll(d, acts) == d0
  {
    UndoPrefix(d, d0, acts, |acts|);
    assert acts[..|acts|] == acts;
    var r := UndoAll(d, acts);
    assert r.Keys == d0.Keys;
  }

  /** What the add loop keeps, started on `d0` with next id `n0`. */
  predicate AddInv(d0: map<nat, Item>, n0: nat, view: seq<Item>, st: Ledger) {
    && Undoable(st.docs, d0, st.actions)
    && WellKeyed(st.docs, st.nextId) && n0 <= st.nextId
    && forall k :: 0 <= k < |view| && view[k].isPurchased ==> view[k].id in st.docs && st.docs[view[k].id] == view[k]
  }

  /** Giving an existing item a new quantity keeps the invariant. */
  lemma RestoreStep(d0: map<nat, Item>, n0: nat, view: seq<Item>, st: Ledger, k: nat, q: int)
    requires WellKeyed(d0, n0) && Synced(view, d0) && AddInv(d0, n0, view, st)
    requires k < |view| && !view[k].isPurchased
    ensures AddInv(d0, n0, view,
      Ledger(WithQuantity(st.docs, view[k].id, q), st.nextId, st.actions + [RestoreQty(view[k].id, view[k].quantity)]))
  {
    var a := RestoreQty(view[k].id, view[k].quantity);
    IdsOfSnoc(st.actions, a);
    var acts := st.actions + [a];
    forall j | 0 <= j < |acts|
      ensures match acts[j]
        case RestoreQty(id, q) => id in d0 && q == d0[id].quantity
        case DeleteCreated(id) => id !in d0
    {
      if j < |st.actions| { assert acts[j] == st.actions[j]; }
    }
    forall j | 0 <= j < |view| && view[j].isPurchased ensures view[j].id != view[k].id {
      assert d0[view[j].id] == view[j];
    }
  }

  /** Creating an item under the next fresh id keeps the invariant. */
  lemma CreateStep(d0: map<nat, Item>, n0: nat, view: seq<Item>, st: Ledger, name: string, q: int)
    requires WellKeyed(d0, n0) && AddInv(d0, n0, view, st)
    ensures AddInv(d0, n0, view,
      Ledger(st.docs[st.nextId := Item(st.nextId, name, q, false)], st.nextId + 1, st.actions + [DeleteCreated(st.nextId)]))
  {
    var a := DeleteCreated(st.nextId);
    IdsOfSnoc(st.actions, a);
    var acts := st.actions + [a];
    forall j | 0 <= j < |acts|
      ensures match acts[j]
        case RestoreQty(id, q) => id in d0 && q == d0[id].quantity
        case DeleteCreated(id) => id !in d0
    {
      if j < |st.actions| { assert acts[j] == st.actions[j]; }
    }
  }

  /** The add loop, started on a well-keyed collection the view shows as it
      is, keeps the collection well keyed, never removes an item, never
      changes an item the view shows as purchased, and records what it
      changes so that the actions undo it. */
  lemma {:induction false} AddAllUndoable(d0: map<nat, Item>, n0: nat, view: seq<Item>, ps: seq<ParsedItem>)
    requires WellKeyed(d0, n0) && Synced(view, d0)
    ensures AddInv(d0, n0, view, AddAll(Ledger(d0, n0, []), view, ps))
    decreases |ps|
  {
    if ps == [] {
      assert CreatedIds([]) == {};
    } else {
      var init := ps[..|ps| - 1];
      AddAllUndoable(d0, n0, view, init);
      var st := AddAll(Ledger(d0, n0, []), view, init);
      var p := ps[|ps| - 1];
      var name := Trim(p.name);
      if name != "" {
        var k := FindActive(view, name);
        if k >= 0 {
          RestoreStep(d0, n0, view, st, k, p.qty);
        } else {
          CreateStep(d0, n0, view, st, name, p.qty);
        }
      }
    }
  }

  /** Running the actions an "add items" command returns, on a collection
      the view shows as it is, gives back the collection as it was. */
  lemma UndoRestoresAddItems(v: Vocab, docs: map<nat, Item>, nextId: nat, view: seq<Item>, payload: string)
    requires WellKeyed(docs, nextId) && Synced(view, docs)
    ensures var r := Apply(v, docs, nextId, view, AddItems(payload));
      UndoAll(r.docs, r.actions) == docs
  {
    var ps := ParseSegments(v, Segments(payload));
    AddAllUndoable(docs, nextId, view, ps);
    var r := AddAll(Ledger(docs, nextId, []), view, ps);
    UndoRestores(r.docs, docs, r.actions);
  }

  /** The theorem behind the voice "undo" button: whenever a transcript
      returns undo actions, running them on a collection the view showed as
      it was gives back the collection as it was before the transcript. */
  lemma UndoRestoresCommand(v: Vocab, docs: map<nat, Item>, nextId: nat, view: seq<Item>, raw: string, lang: Lang)
    requires WellKeyed(docs, nextId) && Synced(view, docs)
    ensures var r := Execute(v, docs, nextId, view, raw, lang);
      r.actions != [] ==> UndoAll(r.docs, r.actions) == docs
  {
    var cmd := Classify(CommandText(raw), lang);
    if cmd.AddItems? {
      UndoRestoresAddItems(v, docs, nextId, view, cmd.payload);
    }
  }

  /** The ids created so far are exactly those from `n0` up to the next id. */
  ghost predicate CreatedFrom(n0: nat, st: Ledger) {
    n0 <= st.nextId && forall id :: id in CreatedIds(st.actions) <==> n0 <= id < st.nextId
  }

  /** One well-formed parsed item adds one action and keeps `CreatedFrom`. */
  lemma ActionStep(n0: nat, view: seq<Item>, st: Ledger, p: ParsedItem)
    requires WellFormedItem(p) && CreatedFrom(n0, st)
    ensures var r := AddOne(st, view, p);
      |r.actions| == |st.actions| + 1 && CreatedFrom(n0, r)
  {
    NormalFixed(p.name);
    var k := FindActive(view, p.name);
    var a := if k >= 0 then RestoreQty(view[k].id, view[k].quantity) else DeleteCreated(st.nextId);
    CreatedStep(n0, st, a, AddOne(st, view, p));
  }

  /** Recording one more action keeps `CreatedFrom` when a created id is the
      next fresh one and the next id moves past it. */
  lemma CreatedStep(n0: nat, st: Ledger, a: UndoAction, r: Ledger)
    requires CreatedFrom(n0, st) && r.actions == st.actions + [a]
    requires a.DeleteCreated? ==> a.id == st.nextId && r.nextId == st.nextId + 1
    requires !a.DeleteCreated? ==> r.nextId == st.nextId
    ensures CreatedFrom(n0, r)
  {
    IdsOfSnoc(st.actions, a);
  }

  /** Each parsed item of the item parser yields exactly one undo action:
      its name is never blank. The items created are exactly those with the
      ids from `n0` up to the new next id. */
  lemma {:induction false} ActionPerItem(d0: map<nat, Item>, n0: nat, view: seq<Item>, ps: seq<ParsedItem>)
    requires ItemsWellFormed(ps)
    ensures var r := AddAll(Ledger(d0, n0, []), view, ps);
      |r.actions| == |ps| && CreatedFrom(n0, r)
    decreases |ps|
  {
    if ps == [] {
      assert CreatedIds([]) == {};
    } else {
      var init := ps[..|ps| - 1];
      assert ItemsWellFormed(init) by {
        forall k | 0 <= k < |init| ensures WellFormedItem(init[k]) { assert init[k] == ps[k]; }
      }
      ActionPerItem(d0, n0, view, init);
      ActionStep(n0, view, AddAll(Ledger(d0, n0, []), view, init), ps[|ps| - 1]);
    }
  }

  /** "Decrease" on an item found by name, with a view in step with the
      store, takes its quantity to `max(1, q - 1)`: never below one. */
  lemma DecreaseNeverBelowOne(docs: map<nat, Item>, view: seq<Item>, name: string)
    requires Synced(view, docs) && FindItemByName(view, name) >= 0
    ensures var id := view[FindItemByName(view, name)].id;
      && id in docs
      && Edit(docs, view, Decrease(name))[id].quantity == Max(1, docs[id].quantity - 1) >= 1
  {
    var id := view[FindItemByName(view, name)].id;
    assert FindById(view, id) >= 0;
    DecreaseClamps(docs, view, id);
  }

  /** "Increase" on an item found by name, with a view in step with the
      store, adds one to its stored quantity and changes nothing else. */
  lemma IncreaseAddsOne(docs: map<nat, Item>, view: seq<Item>, name: string)
    requires Synced(view, docs) && FindItemByName(view, name) >= 0
    ensures var id := view[FindItemByName(view, name)].id;
      var r := Edit(docs, view, Increase(name));
      && id in docs && r.Keys == docs.Keys
      && r[id] == docs[id].(quantity := docs[id].quantity + 1)
      && forall j :: j in docs && j != id ==> r[j] == docs[j]
  {
    var id := view[FindItemByName(view, name)].id;
    IncreaseAdds(docs, view, id, 1);
  }

  /** "Mark bought" on an item found by name, with a view in step with the
      store, leaves it purchased, whether it was or not. */
  lemma MarkLeavesPurchased(docs: map<nat, Item>, view: seq<Item>, name: string)
    requires Synced(view, docs) && FindItemByName(view, name) >= 0
    ensures var id := view[FindItemByName(view, name)].id;
      id in docs && Edit(docs, view, MarkBought(name))[id].isPurchased
  {
    var id := view[FindItemByName(view, name)].id;
    assert FindById(view, id) >= 0;
    ToggleFromView(docs, view, id);
  }

  // ---------------------------------------------------------------------
  // the methods on the store
  // ---------------------------------------------------------------------

  /** `runUndoActions(actions)` */
  method RunUndoActions(store: Store, actions: seq<UndoAction>)
    requires store.Valid()
    modifies store
    ensures store.docs == UndoAll(old(store.docs), actions) && store.nextId == old(store.nextId)
    ensures store.Valid()
  {
    ghost var d0 := store.docs;
    for i := 0 to |actions|
      invariant store.docs == UndoAll(d0, actions[..i]) && store.nextId == old(store.nextId)
      invariant store.Valid()
    {
      assert actions[..i + 1][..i] == actions[..i];
      match actions[i]
      case DeleteCreated(id) => store.DeleteItem(id);
      case RestoreQty(id, q) => store.SetQuantity(id, q);
    }
    assert actions[..|actions|] == actions;
  }

  /** One step of the loop over the parsed items. */
  method AddItem(store: Store, view: seq<Item>, p: ParsedItem, acts: seq<UndoAction>) returns (actions: seq<UndoAction>)
    requires store.Valid()
    modifies store
    ensures Ledger(store.docs, store.nextId, actions) == AddOne(Ledger(old(store.docs), old(store.nextId), acts), view, p)
    ensures store.Valid()
  {
    actions := acts;
    var name := Trim(p.name);
    if name == "" {
      return;
    }
    var k := FindActive(view, name);
    if k >= 0 {
      store.SetQuantity(view[k].id, p.qty);
      actions := actions + [RestoreQty(view[k].id, view[k].quantity)];
    } else {
      var id := store.CreateItem(name, p.qty);
      actions := actions + [DeleteCreated(id)];
    }
  }

  lemma AddAllSnoc(st: Ledger, view: seq<Item>, ps: seq<ParsedItem>, i: nat)
    requires i < |ps|
    ensures AddAll(st, view, ps[..i + 1]) == AddOne(AddAll(st, view, ps[..i]), view, ps[i])
  {
    assert ps[..i + 1][..i] == ps[..i];
  }

  /** The loop over the parsed items. */
  method AddParsed(store: Store, view: seq<Item>, parsed: seq<ParsedItem>) returns (actions: seq<UndoAction>)
    requires store.Valid()
    modifies store
    ensures Ledger(store.docs, store.nextId, actions)
      == AddAll(Ledger(old(store.docs), old(store.nextId), []), view, parsed)
    ensures store.Valid()
  {
    ghost var start := Ledger(store.docs, store.nextId, []);
    actions := [];
    for i := 0 to |parsed|
      invariant Ledger(store.docs, store.nextId, actions) == AddAll(start, view, parsed[..i])
      invariant store.Valid()
    {
      AddAllSnoc(start, view, parsed, i);
      actions := AddItem(store, view, parsed[i], actions);
    }
    assert parsed[..|parsed|] == parsed;
  }

  /** The delete, mark, increase and decrease branches of
      `executeVoiceTextWithUndo`. */
  method EditItem(store: Store, view: seq<Item>, cmd: Command)
    requires store.Valid() && NamesItem(cmd)
    modifies store
    ensures store.docs == Edit(old(store.docs), view, cmd) && store.nextId == old(store.nextId)
    ensures store.Valid()
  {
    var k := FindItemByName(view, cmd.name);
    if k < 0 {
      return;
    }
    match cmd
    case DeleteItem(_) =>
      store.DeleteItem(view[k].id);
    case MarkBought(_) =>
      if !view[k].isPurchased {
        store.TogglePurchased(view, view[k].id);
      }
    case Increase(_) =>
      store.UpdateQty(view, view[k].id, 1);
    case Decrease(_) =>
      store.UpdateQty(view, view[k].id, -1);
  }

  /** The branches of `executeVoiceTextWithUndo` after the transcript is classified. */
  method Perform(v: Vocab, store: Store, view: seq<Item>, cmd: Command) returns (actions: seq<UndoAction>)
    requires store.Valid()
    modifies store
    ensures Ledger(store.docs, store.nextId, actions) == Apply(v, old(store.docs), old(store.nextId), view, cmd)
    ensures store.Valid()
  {
    actions := [];
    match cmd
    case Nothing =>
    case ClearList =>
      store.ClearList();
    case AddItems(payload) =>
      var parsed := ParseItemsFromText(v, payload);
      if |parsed| > 0 {
        actions := AddParsed(store, view, parsed);
      }
    case _ =>
      EditItem(store, view, cmd);
  }

  /** `executeVoiceTextWithUndo(raw)` */
  method ExecuteVoiceTextWithUndo(v: Vocab, store: Store, view: seq<Item>, raw: string, lang: Lang)
    returns (actions: seq<UndoAction>)
    requires store.Valid()
    modifies store
    ensures Ledger(store.docs, store.nextId, actions) == Execute(v, old(store.docs), old(store.nextId), view, raw, lang)
    ensures store.Valid()
  {
    var text := Normalize(NormalizeVoiceText(raw));
    var cmd := Classify(text, lang);
    actions := Perform(v, store, view, cmd);
  }
}
