/**
 The two judges of an attachment cell: canonicalize_attachment_list, which the request handlers use
 on stored values, and the flush-time validator, which every writer passes. Both work on raw JSON.
 */
module AttachmentValidation {
  import opened AttachmentModel
  import opened Options

  // A list element as the code sees it: id and key are None unless a non-empty string;
  // sizeParses says whether int(size or 0) returns.
  datatype Item = Scalar | Object(hasUrl: bool, id: Option<Id>, key: Option<ObjectKey>, sizeParses: bool)

  datatype Json = Null | NotList | List(items: seq<Item>)

  datatype Verdict = Rejected | Accepted(refs: seq<Ref>)

  predicate Named(i: Item) {
    i.Object? && i.id.Some? && i.key.Some?
  }

  function IdOf(i: Item): Id {
    if Named(i) then i.id.value else ""
  }

  predicate DistinctItems(items: seq<Item>) {
    forall i, j :: 0 <= i < j < |items| ==> IdOf(items[i]) != IdOf(items[j])
  }

  function ItemIds(items: seq<Item>): set<Id> {
    set i | i in items :: IdOf(i)
  }

  predicate Refers(registry: Registry, cell: Cell, i: Item) {
    Named(i) && IsActiveIn(registry, cell, IdOf(i)) && registry[IdOf(i)].key == i.key.value
  }

  // An element counts as a reference exactly if it is an object with an id and the object key of an ACTIVE row bound to
  // the cell.
  lemma RefersExactlyWhen(registry: Registry, cell: Cell, i: Item)
    ensures Refers(registry, cell, i) <==>
              && i.Object? && i.id.Some? && i.key.Some? && i.id.value in registry
              && registry[i.id.value].status == Active && registry[i.id.value].cell == cell
              && registry[i.id.value].key == i.key.value
  {
  }

  predicate AllRefer(registry: Registry, cell: Cell, items: seq<Item>) {
    forall k :: 0 <= k < |items| ==> Refers(registry, cell, items[k])
  }

  function ResolveItems(registry: Registry, items: seq<Item>): seq<Ref>
    requires forall k :: 0 <= k < |items| ==> IdOf(items[k]) in registry
  {
    seq(|items|, k requires 0 <= k < |items| => Metadata(IdOf(items[k]), registry[IdOf(items[k])]))
  }

  // ---------------------------------------------------------------- stable_attachment_list

  function Stable(items: seq<Item>): (r: seq<Item>)
    ensures forall i :: i in r <==> i in items && Named(i)
  {
    if items == [] then [] else
      var rest := Stable(items[..|items| - 1]);
      var last := items[|items| - 1];
      if Named(last) then rest + [last] else rest
  }

  // What is kept of a list is kept of its parts, in order; of one element it is the element itself, if it is an object
  // with an id and a key.
  lemma {:induction false} StableOfParts(a: seq<Item>, b: seq<Item>)
    ensures Stable(a + b) == Stable(a) + Stable(b)
    ensures |b| == 1 ==> Stable(b) == if b[0].Object? && b[0].id.Some? && b[0].key.Some? then b else []
  {
    if b == [] {
      assert a + b == a;
    } else {
      StableOfParts(a, b[..|b| - 1]);
      assert (a + b)[..|a + b| - 1] == a + b[..|b| - 1];
    }
  }

  function ItemsOf(value: Json): seq<Item> {
    if value.List? then value.items else []
  }

  predicate SizesParse(items: seq<Item>) {
    forall i :: i in items && Named(i) ==> i.sizeParses
  }

  // A value is refused exactly if it is a list with an element that has an id, a key and a bad size.
  lemma RefusedExactlyWhen(value: Json)
    ensures !SizesParse(ItemsOf(value)) <==>
              value.List? && exists i :: i in value.items && i.Object? && i.id.Some? && i.key.Some? && !i.sizeParses
  {
    if !SizesParse(ItemsOf(value)) {
      var i :| i in ItemsOf(value) && Named(i) && !i.sizeParses;
      assert i in value.items;
    }
  }

  method StableAttachmentList(value: Json) returns (result: Option<seq<Item>>)
    ensures result == if SizesParse(ItemsOf(value)) then Some(Stable(ItemsOf(value))) else None
  {
    if !value.List? {
      return Some([]);
    }
    var kept: seq<Item> := [];
    for k := 0 to |value.items|
      invariant kept == Stable(value.items[..k]) && SizesParse(value.items[..k])
    {
      var item := value.items[k];
      assert value.items[..k + 1][..k] == value.items[..k];
      if !item.Object? || item.id.None? || item.key.None? {
        continue;
      }
      if !item.sizeParses {
        assert item in value.items;
        return None;
      }
      kept := kept + [item];
    }
    assert value.items[..|value.items|] == value.items;
    return Some(kept);
  }

  // ---------------------------------------------------------------- canonicalize_attachment_list

  function Canonicalize(registry: Registry, cell: Cell, value: Json): Verdict {
    var items := Stable(ItemsOf(value));
    if SizesParse(ItemsOf(value)) && DistinctItems(items) && AllRefer(registry, cell, items)
    then Accepted(ResolveItems(registry, items)) else Rejected
  }

  method CanonicalizeAttachmentList(registry: Registry, cell: Cell, value: Json) returns (verdict: Verdict)
    ensures verdict == Canonicalize(registry, cell, value)
  {
    var stable := StableAttachmentList(value);
    if stable.None? {
      return Rejected;
    }
    var requested := stable.value;
    if requested == [] {
      return Accepted([]);
    }
    var duplicate := HasDuplicate(requested);
    if duplicate {
      return Rejected;
    }
    var canonical: seq<Ref> := [];
    for k := 0 to |requested|
      invariant AllRefer(registry, cell, requested[..k])
      invariant canonical == ResolveItems(registry, requested[..k])
    {
      assert requested[..k + 1] == requested[..k] + [requested[k]];
      assert requested[k] in requested;
      var id := IdOf(requested[k]);
      if id !in registry || registry[id].status != Active {
        return Rejected;
      }
      if registry[id].cell != cell || registry[id].key != requested[k].key.value {
        return Rejected;
      }
      canonical := canonical + [Metadata(id, registry[id])];
    }
    assert requested[..|requested|] == requested;
    return Accepted(canonical);
  }

  // len(ids) != len(set(ids))
  method HasDuplicate(items: seq<Item>) returns (duplicate: bool)
    ensures duplicate <==> !DistinctItems(items)
  {
    var ids: set<Id> := {};
    for k := 0 to |items|
      invariant ids == ItemIds(items[..k]) && DistinctItems(items[..k])
    {
      assert items[..k + 1] == items[..k] + [items[k]];
      if IdOf(items[k]) in ids {
        var i :| i in items[..k] && IdOf(i) == IdOf(items[k]);
        return true;
      }
      ids := ids + {IdOf(items[k])};
    }
    assert items[..|items|] == items;
    return false;
  }

  // What both judges write in place of a reference: all of it is the registry's.
  lemma ResolvedSays(registry: Registry, items: seq<Item>, k: nat)
    requires k < |items| && forall j :: 0 <= j < |items| ==> Named(items[j]) && items[j].id.value in registry
    ensures |ResolveItems(registry, items)| == |items|
    ensures var r, row := ResolveItems(registry, items)[k], registry[items[k].id.value];
            r == Ref(items[k].id.value, row.key, row.name, row.size,
                     if row.contentType == "" then "application/octet-stream" else row.contentType)
  {
  }

  // ---------------------------------------------------------------- the flush-time validator

  // The ids _active_registry_ids_for_cell arrives at: rows of the cell, each overlaid by a session
  // object of the same cell.
  function OverlaidActiveIds(persisted: Registry, session: Registry, cell: Cell): set<Id> {
    set id | id in persisted.Keys + session.Keys &&
      if id in session && session[id].cell == cell then session[id].status == Active
      else IsActiveIn(persisted, cell, id)
  }

  predicate Overlays(session: Registry, cell: Cell, done: set<Id>, id: Id) {
    id in done && id in session && session[id].cell == cell
  }

  // registry_by_id once the session objects in done have been laid over the persisted rows
  function Overlaid(persisted: Registry, session: Registry, cell: Cell, done: set<Id>): Registry {
    map id | id in persisted.Keys + done &&
             (Overlays(session, cell, done, id) || (id in persisted && persisted[id].cell == cell))
           :: if Overlays(session, cell, done, id) then session[id] else persisted[id]
  }

  lemma OverlayOneMore(persisted: Registry, session: Registry, cell: Cell, done: set<Id>, id: Id)
    requires id in session && id !in done
    ensures var rows := Overlaid(persisted, session, cell, done);
            Overlaid(persisted, session, cell, done + {id})
              == if session[id].cell == cell then rows[id := session[id]] else rows
  {
    forall x
      ensures Overlays(session, cell, done + {id}, x) <==>
              Overlays(session, cell, done, x) || (x == id && session[id].cell == cell)
    {
    }
  }

  function ActiveOf(rows: Registry): set<Id> {
    set id | id in rows && rows[id].status == Active
  }

  lemma OverlayEnds(persisted: Registry, session: Registry, cell: Cell)
    ensures Overlaid(persisted, session, cell, {})
         == map id | id in persisted && persisted[id].cell == cell :: persisted[id]
    ensures ActiveOf(Overlaid(persisted, session, cell, session.Keys)) == OverlaidActiveIds(persisted, session, cell)
  {
  }

  method ActiveRegistryIdsForCell(persisted: Registry, session: Registry, cell: Cell) returns (active: set<Id>)
    ensures active == OverlaidActiveIds(persisted, session, cell)
  {
    OverlayEnds(persisted, session, cell);
    var rows := map id | id in persisted && persisted[id].cell == cell :: persisted[id];
    var left := session.Keys;
    ghost var done: set<Id> := {};
    while left != {}
      invariant done + left == session.Keys && done !! left
      invariant rows == Overlaid(persisted, session, cell, done)
      decreases left
    {
      var id :| id in left;
      OverlayOneMore(persisted, session, cell, done, id);
      if session[id].cell == cell {
        rows := rows[id := session[id]];
      }
      left, done := left - {id}, done + {id};
    }
    assert done == session.Keys;
    active := ActiveOf(rows);
  }

  // The overlay is the transaction's own view of the cell exactly when no session object moves a
  // row the database still holds ACTIVE in this cell to another one.
  lemma OverlayIsTransactionView(persisted: Registry, session: Registry, cell: Cell)
    ensures OverlaidActiveIds(persisted, session, cell) == ActiveIds(persisted + session, cell) <==>
            forall id :: id in session && IsActiveIn(persisted, cell, id) ==> session[id].cell == cell
  {
    var merged := persisted + session;
    if forall id :: id in session && IsActiveIn(persisted, cell, id) ==> session[id].cell == cell {
      assert forall id :: id in OverlaidActiveIds(persisted, session, cell) <==> id in ActiveIds(merged, cell);
    } else {
      var id :| id in session && IsActiveIn(persisted, cell, id) && session[id].cell != cell;
      assert id in OverlaidActiveIds(persisted, session, cell) && id !in ActiveIds(merged, cell);
    }
  }

  predicate Acceptable(persisted: Registry, session: Registry, cell: Cell, value: Json) {
    var items := ItemsOf(value);
    && !value.NotList?
    && AllRefer(persisted + session, cell, items)
    && (forall k :: 0 <= k < |items| ==> items[k].Object? && !items[k].hasUrl)
    && DistinctItems(items)
    && ItemIds(items) == OverlaidActiveIds(persisted, session, cell)
  }

  function Validated(persisted: Registry, session: Registry, cell: Cell, value: Json): Verdict {
    if Acceptable(persisted, session, cell, value)
    then Accepted(ResolveItems(persisted + session, ItemsOf(value))) else Rejected
  }

  // One turn of the validator's loop: the element's row, unless something is wrong with it.
  method ValidateItem(persisted: Registry, session: Registry, cell: Cell, item: Item, seen: set<Id>)
    returns (row: Option<Row>)
    ensures row.Some? <==> Refers(persisted + session, cell, item) && !item.hasUrl && IdOf(item) !in seen
    ensures row.Some? ==> row.value == (persisted + session)[IdOf(item)]
  {
    if !item.Object? || item.hasUrl || item.id.None? || item.key.None? {
      return None;
    }
    var id := item.id.value;
    if id in seen || (id !in session && id !in persisted) {
      return None;
    }
    var found := if id in session then session[id] else persisted[id];
    if found.status != Active || found.cell != cell || found.key != item.key.value {
      return None;
    }
    return Some(found);
  }

  lemma NextItem(merged: Registry, cell: Cell, items: seq<Item>, k: nat)
    requires k < |items| && AllRefer(merged, cell, items[..k]) && DistinctItems(items[..k])
    requires Refers(merged, cell, items[k]) && IdOf(items[k]) !in ItemIds(items[..k])
    ensures AllRefer(merged, cell, items[..k + 1]) && DistinctItems(items[..k + 1])
    ensures ItemIds(items[..k + 1]) == ItemIds(items[..k]) + {IdOf(items[k])}
    ensures ResolveItems(merged, items[..k + 1])
         == ResolveItems(merged, items[..k]) + [Metadata(IdOf(items[k]), merged[IdOf(items[k])])]
  {
    assert items[..k + 1] == items[..k] + [items[k]];
    assert forall j :: 0 <= j < k ==> items[j] in items[..k];
  }

  method ValidateAttachmentValue(persisted: Registry, session: Registry, cell: Cell, value: Json)
    returns (verdict: Verdict)
    ensures verdict == Validated(persisted, session, cell, value)
  {
    if value.NotList? {
      return Rejected;
    }
    var items := if value.Null? then [] else value.items;
    ghost var merged := persisted + session;
    var canonical: seq<Ref> := [];
    var seen: set<Id> := {};
    for k := 0 to |items|
      invariant AllRefer(merged, cell, items[..k]) && DistinctItems(items[..k])
      invariant forall j :: 0 <= j < k ==> items[j].Object? && !items[j].hasUrl
      invariant seen == ItemIds(items[..k])
      invariant canonical == ResolveItems(merged, items[..k])
    {
      var row := ValidateItem(persisted, session, cell, items[k], seen);
      if row.None? {
        if IdOf(items[k]) in seen {
          var i :| i in items[..k] && IdOf(i) == IdOf(items[k]);
        }
        return Rejected;
      }
      NextItem(merged, cell, items, k);
      seen := seen + {IdOf(items[k])};
      canonical := canonical + [Metadata(IdOf(items[k]), row.value)];
    }
    assert items[..|items|] == items;
    var active := ActiveRegistryIdsForCell(persisted, session, cell);
    if seen != active {
      return Rejected;
    }
    return Accepted(canonical);
  }

  // ---------------------------------------------------------------- the two judges agree

  function AsItem(r: Ref): Item { Object(false, Some(r.id), Some(r.key), true) }

  // The JSON of a list the hook has rewritten.
  function AsJson(refs: seq<Ref>): Json {
    List(seq(|refs|, k requires 0 <= k < |refs| => AsItem(refs[k])))
  }

  lemma {:induction false} StableKeepsNamed(items: seq<Item>)
    requires forall k :: 0 <= k < |items| ==> Named(items[k])
    ensures Stable(items) == items
  {
    if items != [] {
      var init, last := items[..|items| - 1], items[|items| - 1];
      StableKeepsNamed(init);
      assert items == init + [last];
    }
  }

  lemma SameIds(items: seq<Item>, refs: seq<Ref>)
    requires |items| == |refs| && forall k :: 0 <= k < |items| ==> IdOf(items[k]) == refs[k].id
    ensures ItemIds(items) == Ids(refs) && (DistinctItems(items) <==> DistinctIds(refs))
  {
    forall k | 0 <= k < |items|
      ensures IdOf(items[k]) in Ids(refs) && refs[k].id in ItemIds(items)
    {
      assert refs[k] in refs && items[k] in items;
    }
    forall id
      ensures id in ItemIds(items) <==> id in Ids(refs)
    {
      if id in ItemIds(items) {
        var i :| i in items && IdOf(i) == id;
      }
      if id in Ids(refs) {
        var r :| r in refs && r.id == id;
      }
    }
  }

  // The validator's own output is an exact cell of the transaction's view.
  lemma AcceptedIsExact(persisted: Registry, session: Registry, cell: Cell, value: Json)
    requires Acceptable(persisted, session, cell, value)
    requires OverlaidActiveIds(persisted, session, cell) == ActiveIds(persisted + session, cell)
    ensures ExactCell(persisted + session, cell, ResolveItems(persisted + session, ItemsOf(value)))
  {
    SameIds(ItemsOf(value), ResolveItems(persisted + session, ItemsOf(value)));
  }

  lemma RewrittenRefers(registry: Registry, cell: Cell, refs: seq<Ref>)
    requires ExactCell(registry, cell, refs)
    ensures var items := AsJson(refs).items;
            && AllRefer(registry, cell, items) && DistinctItems(items) && ItemIds(items) == ActiveIds(registry, cell)
            && ResolveItems(registry, items) == refs
  {
    var items := AsJson(refs).items;
    SameIds(items, refs);
    forall k | 0 <= k < |items|
      ensures Refers(registry, cell, items[k])
    {
      assert refs[k] in refs && refs[k].id in Ids(refs);
    }
    assert ResolveItems(registry, items) == refs;
  }

  // What the validator writes back is accepted again unchanged, by itself and by the handlers.
  lemma RewrittenValueIsStable(registry: Registry, cell: Cell, refs: seq<Ref>)
    requires ExactCell(registry, cell, refs)
    ensures Validated(registry, map[], cell, AsJson(refs)) == Accepted(refs)
    ensures Canonicalize(registry, cell, AsJson(refs)) == Accepted(refs)
  {
    RewrittenRefers(registry, cell, refs);
    StableKeepsNamed(AsJson(refs).items);
    assert OverlaidActiveIds(registry, map[], cell) == ActiveIds(registry, cell);
    assert registry + map[] == registry;
  }

  // On a raw value the validator accepts, the handlers' canonical form is the validator's exactly
  // when every size parses: the validator never looks at sizes, while int() raises on bad ones.
  lemma JudgesAgreeOnAccepted(registry: Registry, cell: Cell, value: Json)
    requires Acceptable(registry, map[], cell, value)
    ensures Canonicalize(registry, cell, value) == Validated(registry, map[], cell, value)
        <==> SizesParse(ItemsOf(value))
  {
    assert registry + map[] == registry;
    StableKeepsNamed(ItemsOf(value));
  }

  // One reference to a cell's only attachment, with a size that is no number: accepted by the one, refused by the
  // others.
  lemma BadSizeDivides(registry: Registry, cell: Cell, id: Id)
    requires ActiveIds(registry, cell) == {id}
    ensures id in registry
    ensures var value := List([Object(false, Some(id), Some(registry[id].key), false)]);
            Acceptable(registry, map[], cell, value) && Canonicalize(registry, cell, value) == Rejected
  {
    assert id in ActiveIds(registry, cell);
    var item := Object(false, Some(id), Some(registry[id].key), false);
    assert item in [item] && IdOf(item) in ItemIds([item]);
    assert registry + map[] == registry;
    assert ItemIds([item]) == {id} == OverlaidActiveIds(registry, map[], cell);
  }

  // Conversely the handlers accept stored values the validator refuses: they read what is no list as empty, skip
  // elements without an id or key, ignore "url", and do not notice ACTIVE rows the list omits.
  lemma CanonicalizeIsLaxer(registry: Registry, cell: Cell, value: Json)
    requires Canonicalize(registry, cell, value).Accepted?
    ensures Acceptable(registry, map[], cell, value) <==>
            && !value.NotList?
            && (forall i :: i in ItemsOf(value) ==> Named(i) && !i.hasUrl)
            && ItemIds(Stable(ItemsOf(value))) == ActiveIds(registry, cell)
  {
    var items := ItemsOf(value);
    assert registry + map[] == registry;
    assert OverlaidActiveIds(registry, map[], cell) == ActiveIds(registry, cell);
    if forall k :: 0 <= k < |items| ==> Named(items[k]) {
      StableKeepsNamed(items);
    }
    forall k | 0 <= k < |items|
      ensures items[k] in items
    {
    }
  }
}
