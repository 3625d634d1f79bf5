/**
 The vocabulary the attachment modules share: registry rows, the stable references a record cell
 stores, and what it means for a cell to agree exactly with the registry.
 */
module AttachmentModel {

  type Id = string

  datatype RecordKey = RecordKey(table: string, record: string)

  datatype Cell = Cell(owner: RecordKey, field: string)

  datatype FieldKey = FieldKey(table: string, field: string)

  function FieldOf(cell: Cell): FieldKey {
    FieldKey(cell.owner.table, cell.field)
  }

  // "attachments/{table}/{record}/{attachment}" kept in its parts
  datatype ObjectKey = ObjectKey(owner: RecordKey, id: Id)

  datatype Status = UploadPending | Active | DeletePending | PurgePending

  datatype Row = Row(cell: Cell, key: ObjectKey, name: string, size: nat, contentType: string,
                     status: Status, createdAt: int, attempts: nat)

  type Registry = map<Id, Row>

  // One element of the list stored in a record's attachment cell
  datatype Ref = Ref(id: Id, key: ObjectKey, name: string, size: nat, contentType: string)

  // The lists in one record's cells, of attachment fields and of any others; a missing field, or a value that is
  // not a list, reads as the empty list
  type Data = map<string, seq<Ref>>

  const DEFAULT_CONTENT_TYPE := "application/octet-stream"

  function Value(data: Data, field: string): seq<Ref> {
    if field in data then data[field] else []
  }

  function Metadata(id: Id, row: Row): Ref {
    Ref(id, row.key, row.name, row.size,
        if row.contentType == "" then DEFAULT_CONTENT_TYPE else row.contentType)
  }

  function Ids(refs: seq<Ref>): set<Id> {
    set r | r in refs :: r.id
  }

  predicate DistinctIds(refs: seq<Ref>) {
    forall i, j :: 0 <= i < j < |refs| ==> refs[i].id != refs[j].id
  }

  predicate IsActiveIn(registry: Registry, cell: Cell, id: Id) {
    id in registry && registry[id].status == Active && registry[id].cell == cell
  }

  function ActiveIds(registry: Registry, cell: Cell): set<Id> {
    set id | id in registry && IsActiveIn(registry, cell, id)
  }

  // The cell lists each ACTIVE row bound to it once, with the registry's metadata, and nothing else.
  predicate ExactCell(registry: Registry, cell: Cell, refs: seq<Ref>) {
    && DistinctIds(refs)
    && Ids(refs) == ActiveIds(registry, cell)
    && forall r :: r in refs ==> r.id in registry && r == Metadata(r.id, registry[r.id])
  }

  // An attachment cell is exact; any other has no ACTIVE row bound to it, whatever it holds.
  predicate SoundCell(fields: set<FieldKey>, registry: Registry, cell: Cell, refs: seq<Ref>) {
    if FieldOf(cell) in fields then ExactCell(registry, cell, refs) else ActiveIds(registry, cell) == {}
  }

  // What canonicalize_attachment_list demands of a stored list before it resolves it.
  predicate Resolvable(registry: Registry, cell: Cell, refs: seq<Ref>) {
    DistinctIds(refs) &&
    forall r :: r in refs ==> IsActiveIn(registry, cell, r.id) && registry[r.id].key == r.key
  }

  // The list with every element replaced by the registry's metadata.
  function Resolve(registry: Registry, refs: seq<Ref>): (out: seq<Ref>)
    requires forall r :: r in refs ==> r.id in registry
    ensures |out| == |refs|
    ensures forall i :: 0 <= i < |refs| ==> out[i] == Metadata(refs[i].id, registry[refs[i].id])
  {
    seq(|refs|, i requires 0 <= i < |refs| => Metadata(refs[i].id, registry[refs[i].id]))
  }

  lemma ExactCellResolvesToItself(registry: Registry, cell: Cell, refs: seq<Ref>)
    requires ExactCell(registry, cell, refs)
    ensures Resolvable(registry, cell, refs) && Resolve(registry, refs) == refs
  {
    forall r | r in refs
      ensures IsActiveIn(registry, cell, r.id)
    {
      assert r.id in Ids(refs);
    }
  }

  ghost predicate SameActiveRows(before: Registry, after: Registry, cell: Cell) {
    forall id :: (IsActiveIn(before, cell, id) <==> IsActiveIn(after, cell, id)) &&
                 (IsActiveIn(before, cell, id) ==> Metadata(id, before[id]) == Metadata(id, after[id]))
  }

  // Two registries that bind the same ACTIVE rows to a cell judge its value the same way.
  lemma ExactCellDependsOnActiveRows(before: Registry, after: Registry, cell: Cell, refs: seq<Ref>)
    requires ExactCell(before, cell, refs) && SameActiveRows(before, after, cell)
    ensures ExactCell(after, cell, refs)
  {
    forall r | r in refs
      ensures r.id in after && r == Metadata(r.id, after[r.id])
    {
      assert r.id in Ids(refs);
      assert IsActiveIn(before, cell, r.id);
    }
    assert ActiveIds(before, cell) == ActiveIds(after, cell);
  }

  lemma SoundCellDependsOnActiveRows(fields: set<FieldKey>, before: Registry, after: Registry, cell: Cell, refs: seq<Ref>)
    requires SoundCell(fields, before, cell, refs) && SameActiveRows(before, after, cell)
    ensures SoundCell(fields, after, cell, refs)
  {
    if FieldOf(cell) in fields {
      ExactCellDependsOnActiveRows(before, after, cell, refs);
    } else {
      assert ActiveIds(before, cell) == ActiveIds(after, cell);
    }
  }
}
