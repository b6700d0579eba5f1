/** What each staging operation changes, what it leaves alone, and what the grid then shows. */
module StagingEffect {
  import opened Relations
  import opened GridData
  import opened IdentityKeys
  import opened StringOrder
  import opened Staging

  /** The value staged for a column of the row with that key. */
  function StagedAt(s: Staged, key: string, column: string): Option<StagedValue> {
    if key in s.updates && column in s.updates[key].values then Some(s.updates[key].values[column]) else None
  }

  function DraftAt(s: Staged, index: nat, column: string): Option<StagedValue>
    requires index < |s.inserts|
  {
    if column in s.inserts[index].values then Some(s.inserts[index].values[column]) else None
  }

  /** The row has that value in its `i`th cell. */
  predicate Shows(row: Row, i: nat, value: StagedValue) {
    i < |row.cells| &&
    ((value == NullValue && row.cells[i].isNull) ||
     (value.Text? && !row.cells[i].isNull && row.cells[i].edit == value.text))
  }

  /** How a cell with a staged value looks. */
  predicate LooksLike(cell: Cell, value: StagedValue) {
    match value
    case NullValue => cell.isNull && cell.display == "NULL"
    case DefaultValue => !cell.isNull && cell.display == "DEFAULT" && cell.edit == ""
    case Text(text) => !cell.isNull && cell.display == text && cell.edit == text
  }

  lemma {:induction false} IndexOfColumn(columns: seq<Column>, i: nat)
    requires DistinctNames(columns) && i < |columns|
    ensures ColumnIndex(columns, columns[i].name) == i
  {
    FindsOwnColumn(columns, i);
    var k := ColumnIndex(columns, columns[i].name);
    assert k >= 0 && columns[k].name == columns[i].name;
  }

  ghost predicate NoEmptyUpdate(s: Staged) { forall k :: k in s.updates ==> s.updates[k].values != map[] }

  // ----- a value of a page row -----

  ghost predicate OtherKeysKept(s: Staged, t: Staged, key: string) {
    (forall k :: k != key ==> (k in t.updates <==> k in s.updates)) &&
    forall k :: k != key && k in s.updates ==> t.updates[k] == s.updates[k]
  }

  /** Staging a value of a page row changes that one cell. Drafts, tombstones and the changes of
      other rows stay; so do the other values staged for this row. The value is staged unless
      the row shows it, in which case none is. An update stays the update of the row it was
      begun on; a new one is of the row shown. */
  lemma StagingChangesOneCell(relation: Relation, s: Staged, ref: RowRef, i: nat, value: StagedValue)
    requires !ref.insert && DistinctNames(relation.columns) && i < |relation.columns| && NoEmptyUpdate(s)
    ensures
      var t := StageValue(relation, s, ref, relation.columns[i].name, value);
      t.inserts == s.inserts && t.deletes == s.deletes && t.nextDraft == s.nextDraft &&
      OtherKeysKept(s, t, ref.key) && NoEmptyUpdate(t)
    ensures
      var t := StageValue(relation, s, ref, relation.columns[i].name, value);
      (forall d :: d != relation.columns[i].name ==> StagedAt(t, ref.key, d) == StagedAt(s, ref.key, d)) &&
      StagedAt(t, ref.key, relation.columns[i].name) == if Shows(ref.row, i, value) then None else Some(value)
    ensures
      var t := StageValue(relation, s, ref, relation.columns[i].name, value);
      ref.key in t.updates ==>
        t.updates[ref.key].kind == (if ref.key in s.updates then s.updates[ref.key].kind else UpdateRow) &&
        t.updates[ref.key].original == (if ref.key in s.updates then s.updates[ref.key].original else ref.row)
  {
    var column := relation.columns[i].name;
    var m := UpdateFor(s, ref);
    var values := AfterStaging(m.values, column, value, Shows(ref.row, i, value));
    StagingPuts(relation, s, ref, i, value);
    PutStaged(s, ref.key, m, values);
    assert forall d :: StagedAt(s, ref.key, d) == if d in m.values then Some(m.values[d]) else None;
  }

  function AfterStaging(values: map<string, StagedValue>, column: string, value: StagedValue, shown: bool):
    map<string, StagedValue>
  {
    if shown then values - {column} else values[column := value]
  }

  /** Replaces the values of one update, which goes when it has none. */
  function Put(s: Staged, key: string, m: Mutation, values: map<string, StagedValue>): Staged {
    if values == map[] then s.(updates := s.updates - {key}) else s.(updates := s.updates[key := m.(values := values)])
  }

  lemma StagingPuts(relation: Relation, s: Staged, ref: RowRef, i: nat, value: StagedValue)
    requires !ref.insert && DistinctNames(relation.columns) && i < |relation.columns|
    ensures StageValue(relation, s, ref, relation.columns[i].name, value) ==
      Put(s, ref.key, UpdateFor(s, ref),
          AfterStaging(UpdateFor(s, ref).values, relation.columns[i].name, value, Shows(ref.row, i, value)))
  {
    IndexOfColumn(relation.columns, i);
    assert StagedMatchesOriginal(value, ref.row, i) <==> Shows(ref.row, i, value);
  }

  lemma PutStaged(s: Staged, key: string, m: Mutation, values: map<string, StagedValue>)
    requires NoEmptyUpdate(s)
    ensures
      var t := Put(s, key, m, values);
      t.inserts == s.inserts && t.deletes == s.deletes && t.nextDraft == s.nextDraft &&
      OtherKeysKept(s, t, key) && NoEmptyUpdate(t) &&
      (key in t.updates ==> t.updates[key] == m.(values := values)) &&
      forall d :: StagedAt(t, key, d) == if d in values then Some(values[d]) else None
  {
  }

  /** And the grid shows it so: that cell as the value staged, or again as the row has it; every
      other cell of the row and every cell of other rows as before. */
  lemma StagingShowsOneCell(
    relation: Relation, s: Staged, ref: RowRef, i: nat, value: StagedValue, other: RowRef, j: nat)
    requires !ref.insert && DistinctNames(relation.columns) && i < |relation.columns| && NoEmptyUpdate(s)
    requires (other.insert ==> other.insertIdx < |s.inserts|) && j < |relation.columns|
    ensures
      var t := StageValue(relation, s, ref, relation.columns[i].name, value);
      (other.insert ==> other.insertIdx < |t.inserts|) &&
      (other.insert || other.key != ref.key || j != i ==>
        CellAt(relation, t, other, j) == CellAt(relation, s, other, j)) &&
      (!other.insert && other.key == ref.key && j == i && !Shows(ref.row, i, value) ==>
         LooksLike(CellAt(relation, t, other, j), value)) &&
      (other == ref && j == i && Shows(ref.row, i, value) ==> CellAt(relation, t, ref, i) == ref.row.cells[i])
  {
    StagingChangesOneCell(relation, s, ref, i, value);
    var t := StageValue(relation, s, ref, relation.columns[i].name, value);
    if j != i { assert relation.columns[j].name != relation.columns[i].name; }
    RowCell(relation, s, other, j);
    RowCell(relation, t, other, j);
    if !other.insert {
      SameStagedElsewhere(s, t, ref.key, relation.columns[i].name, other.key, relation.columns[j].name);
    }
  }

  lemma SameStagedElsewhere(s: Staged, t: Staged, key: string, column: string, k: string, d: string)
    requires OtherKeysKept(s, t, key) && forall c :: c != column ==> StagedAt(t, key, c) == StagedAt(s, key, c)
    ensures k != key || d != column ==> StagedAt(t, k, d) == StagedAt(s, k, d)
  {
  }

  /** A cell of a page row by what is staged for it. */
  lemma RowCell(relation: Relation, s: Staged, ref: RowRef, j: nat)
    requires j < |relation.columns| && (ref.insert ==> ref.insertIdx < |s.inserts|)
    ensures !ref.insert ==>
      CellAt(relation, s, ref, j) ==
        var staged := StagedAt(s, ref.key, relation.columns[j].name);
        if staged.Some? then StagedCell(staged.value)
        else if j < |ref.row.cells| then ref.row.cells[j] else EMPTY_CELL
    ensures ref.insert ==>
      CellAt(relation, s, ref, j) ==
        var staged := DraftAt(s, ref.insertIdx, relation.columns[j].name);
        StagedCell(if staged.Some? then staged.value else DefaultValue)
  {
  }

  // ----- a value of a draft -----

  /** Staging a value of a draft changes that one cell of it; DEFAULT takes the value away. */
  lemma StagingChangesOneDraft(relation: Relation, s: Staged, ref: RowRef, column: string, value: StagedValue)
    requires ref.insert && ref.insertIdx < |s.inserts|
    ensures
      var t := StageValue(relation, s, ref, column, value);
      t.updates == s.updates && t.deletes == s.deletes && t.nextDraft == s.nextDraft &&
      |t.inserts| == |s.inserts| &&
      (forall k :: 0 <= k < |s.inserts| && k != ref.insertIdx ==> t.inserts[k] == s.inserts[k]) &&
      t.inserts[ref.insertIdx] == s.inserts[ref.insertIdx].(values := t.inserts[ref.insertIdx].values) &&
      (forall d :: d != column ==> DraftAt(t, ref.insertIdx, d) == DraftAt(s, ref.insertIdx, d)) &&
      DraftAt(t, ref.insertIdx, column) == if value == DefaultValue then None else Some(value)
  {
  }

  lemma StagingShowsOneDraft(
    relation: Relation, s: Staged, ref: RowRef, i: nat, value: StagedValue, other: RowRef, j: nat)
    requires ref.insert && ref.insertIdx < |s.inserts| && DistinctNames(relation.columns) && i < |relation.columns|
    requires (other.insert ==> other.insertIdx < |s.inserts|) && j < |relation.columns|
    ensures
      var t := StageValue(relation, s, ref, relation.columns[i].name, value);
      (other.insert ==> other.insertIdx < |t.inserts|) &&
      if other.insert && other.insertIdx == ref.insertIdx && j == i then LooksLike(CellAt(relation, t, other, j), value)
      else CellAt(relation, t, other, j) == CellAt(relation, s, other, j)
  {
    StagingChangesOneDraft(relation, s, ref, relation.columns[i].name, value);
    var t := StageValue(relation, s, ref, relation.columns[i].name, value);
    if j != i { assert relation.columns[j].name != relation.columns[i].name; }
    RowCell(relation, s, other, j);
    RowCell(relation, t, other, j);
  }

  // ----- drafts, tombstones, and taking back -----

  /** A new draft has no values and comes last; everything else stays. */
  lemma InsertAddsOneDraft(s: Staged)
    ensures
      var t := StageInsert(s);
      |t.inserts| == |s.inserts| + 1 && t.inserts[..|s.inserts|] == s.inserts &&
      t.inserts[|s.inserts|].kind == MutationKind.InsertRow && t.inserts[|s.inserts|].values == map[] &&
      t.inserts[|s.inserts|].draftId == s.nextDraft && t.nextDraft > s.nextDraft &&
      t.updates == s.updates && t.deletes == s.deletes
  {
  }

  /** Removing a draft closes the gap; everything else stays. */
  lemma RemovingTakesOneDraft(s: Staged, index: nat, k: nat)
    requires index < |s.inserts|
    ensures
      var t := RemoveDraft(s, index);
      |t.inserts| == |s.inserts| - 1 && t.updates == s.updates && t.deletes == s.deletes &&
      t.nextDraft == s.nextDraft &&
      (k < |t.inserts| ==> t.inserts[k] == s.inserts[if k < index then k else k + 1])
  {
  }

  /** A tombstone is set for the row shown, or taken away; twice is as before. */
  lemma TogglingSetsOneTombstone(s: Staged, ref: RowRef)
    ensures
      var t := ToggleDelete(s, ref);
      (ref.key in t.deletes <==> ref.key !in s.deletes) &&
      (ref.key in t.deletes ==> t.deletes[ref.key].kind == DeleteRow && t.deletes[ref.key].original == ref.row) &&
      (forall k :: k != ref.key ==> (k in t.deletes <==> k in s.deletes)) &&
      (forall k :: k != ref.key && k in s.deletes ==> t.deletes[k] == s.deletes[k]) &&
      t.inserts == s.inserts && t.updates == s.updates && t.nextDraft == s.nextDraft &&
      (ref.key !in s.deletes ==> ToggleDelete(t, ref) == s)
  {
    var t := ToggleDelete(s, ref);
    if ref.key !in s.deletes { assert ToggleDelete(t, ref).deletes == s.deletes; }
  }

  /** Reverting a row takes away its update and its tombstone, and nothing else. */
  lemma RevertingTakesOneRow(s: Staged, ref: RowRef)
    ensures
      var t := RevertRow(s, ref);
      ref.key !in t.updates && ref.key !in t.deletes && OtherKeysKept(s, t, ref.key) &&
      (forall k :: k != ref.key ==> (k in t.deletes <==> k in s.deletes)) &&
      (forall k :: k != ref.key && k in s.deletes ==> t.deletes[k] == s.deletes[k]) &&
      t.inserts == s.inserts && t.nextDraft == s.nextDraft
  {
  }
}
