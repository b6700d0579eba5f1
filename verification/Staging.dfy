/** Staged edits of one table tab: draft rows, updates and tombstones held beside the page. */
module Staging {
  import opened Relations
  import opened GridData
  import opened IdentityKeys
  import opened StringOrder

  datatype Staged = Staged(
    inserts: seq<Mutation>, updates: map<string, Mutation>, deletes: map<string, Mutation>, nextDraft: nat)

  /** What a grid row index refers to: a draft, or a row of the page with its key. */
  datatype RowRef = RowRef(insert: bool, insertIdx: nat, pageIdx: nat, key: string, row: Row)

  const NOTHING_STAGED := Staged([], map[], map[], 1)

  function TotalRows(s: Staged, page: Page): nat { |s.inserts| + |page.rows| }

  // ----- what a row and a cell show -----

  function StagedCell(value: StagedValue): Cell {
    match value
    case NullValue => Cell(NIL, "NULL", "", true)
    case DefaultValue => Cell(NIL, "DEFAULT", "", false)
    case Text(text) => Cell(Raw("string", text), text, text, false)
  }

  function DraftCell(values: map<string, StagedValue>, column: string): Cell {
    if column in values then StagedCell(values[column]) else Cell(NIL, "DEFAULT", "", false)
  }

  function StagedInsertRow(relation: Relation, mutation: Mutation): Row {
    Row(map[], 0, seq(|relation.columns|, i requires 0 <= i < |relation.columns| =>
                        DraftCell(mutation.values, relation.columns[i].name)))
  }

  function RowReferenceAt(relation: Relation, s: Staged, page: Page, index: int): Option<RowRef> {
    if index < 0 || index >= TotalRows(s, page) then None
    else if index < |s.inserts| then
      Some(RowRef(true, index, 0, "", StagedInsertRow(relation, s.inserts[index])))
    else
      var row := page.rows[index - |s.inserts|];
      Some(RowRef(false, 0, index - |s.inserts|, Key(relation.identity, row.identity), row))
  }

  const EMPTY_CELL := Cell(NIL, "", "", false)

  function CellAt(relation: Relation, s: Staged, ref: RowRef, column: int): Cell
    requires ref.insert ==> ref.insertIdx < |s.inserts|
  {
    if column < 0 || column >= |relation.columns| then EMPTY_CELL
    else
      var name := relation.columns[column].name;
      if ref.insert then StagedInsertRow(relation, s.inserts[ref.insertIdx]).cells[column]
      else if ref.key in s.updates && name in s.updates[ref.key].values then
        StagedCell(s.updates[ref.key].values[name])
      else if column < |ref.row.cells| then ref.row.cells[column]
      else EMPTY_CELL
  }

  // ----- staging operations -----

  function StageInsert(s: Staged): Staged {
    s.(inserts := s.inserts + [Mutation(MutationKind.InsertRow, s.nextDraft, NO_ROW, map[])],
      nextDraft := s.nextDraft + 1)
  }

  function ColumnIndex(columns: seq<Column>, name: string): (i: int)
    ensures -1 <= i < |columns|
    ensures i >= 0 ==> columns[i].name == name
    ensures i < 0 <==> FindColumn(columns, name).None?
  {
    if columns == [] then -1
    else if columns[0].name == name then 0
    else
      var rest := ColumnIndex(columns[1..], name);
      if rest < 0 then -1 else rest + 1
  }

  function StagedMatchesOriginal(value: StagedValue, row: Row, column: int): bool {
    0 <= column < |row.cells| &&
    match value
    case NullValue => row.cells[column].isNull
    case DefaultValue => false
    case Text(text) => !row.cells[column].isNull && text == row.cells[column].edit
  }

  /** The update staged for a row, or a fresh one against the row as it is shown. */
  function UpdateFor(s: Staged, ref: RowRef): Mutation {
    if ref.key in s.updates then s.updates[ref.key] else Mutation(UpdateRow, 0, ref.row, map[])
  }

  function StageValue(relation: Relation, s: Staged, ref: RowRef, column: string, value: StagedValue): Staged
    requires ref.insert ==> ref.insertIdx < |s.inserts|
  {
    if ref.insert then
      var draft := s.inserts[ref.insertIdx];
      var values := if value == DefaultValue then draft.values - {column} else draft.values[column := value];
      s.(inserts := s.inserts[ref.insertIdx := draft.(values := values)])
    else
      var mutation := UpdateFor(s, ref);
      var values :=
        if StagedMatchesOriginal(value, ref.row, ColumnIndex(relation.columns, column)) then mutation.values - {column}
        else mutation.values[column := value];
      if values == map[] then s.(updates := s.updates - {ref.key})
      else s.(updates := s.updates[ref.key := mutation.(values := values)])
  }

  function RemoveDraft(s: Staged, index: nat): Staged
    requires index < |s.inserts|
  {
    s.(inserts := s.inserts[..index] + s.inserts[index + 1..])
  }

  function ToggleDelete(s: Staged, ref: RowRef): Staged {
    if ref.key in s.deletes then s.(deletes := s.deletes - {ref.key})
    else s.(deletes := s.deletes[ref.key := Mutation(DeleteRow, 0, ref.row, map[])])
  }

  function RevertRow(s: Staged, ref: RowRef): Staged {
    s.(updates := s.updates - {ref.key}, deletes := s.deletes - {ref.key})
  }

  /** Dropping every change keeps the draft counter. */
  function ClearStaged(s: Staged): Staged { Staged([], map[], map[], s.nextDraft) }

  // ----- the snapshot -----

  function ChangeCount(s: Staged): nat {
    |s.inserts| + |s.deletes| + |s.updates.Keys - s.deletes.Keys|
  }

  predicate Dirty(s: Staged) { ChangeCount(s) > 0 }

  /** The keys not in `gone`, in the same order. */
  function Without(keys: seq<string>, gone: set<string>): seq<string> {
    if keys == [] then []
    else
      var rest := Without(keys[..|keys| - 1], gone);
      if keys[|keys| - 1] in gone then rest else rest + [keys[|keys| - 1]]
  }

  const NO_MUTATION := Mutation(UnknownKind(""), 0, NO_ROW, map[])

  function Chosen(m: map<string, Mutation>, keys: seq<string>): (r: seq<Mutation>)
    ensures |r| == |keys|
  {
    seq(|keys|, i requires 0 <= i < |keys| => if keys[i] in m then m[keys[i]] else NO_MUTATION)
  }

  ghost function DeleteKeys(s: Staged): seq<string> { SortedStrings(s.deletes.Keys) }

  ghost function UpdateKeys(s: Staged): seq<string> { Without(SortedStrings(s.updates.Keys), s.deletes.Keys) }

  /** Deletes by key, then updates of rows not deleted by key, then drafts in order. */
  ghost function Snapshot(s: Staged): seq<Mutation> { RowMutations(s) + s.inserts }

  ghost function RowMutations(s: Staged): seq<Mutation> {
    Chosen(s.deletes, DeleteKeys(s)) + Chosen(s.updates, UpdateKeys(s))
  }

  /** The mutations of the keys that are not in `gone`, in key order. */
  method ChooseFrom(m: map<string, Mutation>, keys: seq<string>, gone: set<string>) returns (result: seq<Mutation>)
    requires forall k :: k in keys ==> k in m
    ensures result == Chosen(m, Without(keys, gone))
  {
    result := [];
    for i := 0 to |keys|
      invariant result == Chosen(m, Without(keys[..i], gone))
    {
      var key := keys[i];
      assert key in keys && keys[..i + 1][..i] == keys[..i];
      if key !in gone {
        result := result + [m[key]];
      }
    }
    assert keys[..|keys|] == keys;
  }

  lemma {:induction false} WithoutNothing(keys: seq<string>)
    ensures Without(keys, {}) == keys
  {
    if keys != [] { WithoutNothing(keys[..|keys| - 1]); }
  }

  method SnapshotOf(s: Staged) returns (result: seq<Mutation>)
    ensures result == Snapshot(s)
  {
    SortedStringsFacts(s.deletes.Keys);
    SortedStringsFacts(s.updates.Keys);
    var deleteKeys := SortStrings(s.deletes.Keys);
    WithoutNothing(deleteKeys);
    var deletes := ChooseFrom(s.deletes, deleteKeys, {});
    var updateKeys := SortStrings(s.updates.Keys);
    var updates := ChooseFrom(s.updates, updateKeys, s.deletes.Keys);
    result := deletes + updates + s.inserts;
  }

  method CountOutside(keys: set<string>, gone: set<string>) returns (count: nat)
    ensures count == |keys - gone|
  {
    count := 0;
    var rest := keys;
    ghost var counted: set<string> := {};
    while rest != {}
      invariant rest <= keys && counted == (keys - rest) - gone && count == |counted|
      decreases |rest|
    {
      var key :| key in rest;
      rest := rest - {key};
      if key !in gone {
        counted := counted + {key};
        count := count + 1;
      }
    }
    assert counted == keys - gone;
  }

  method CountChanges(s: Staged) returns (count: nat)
    ensures count == ChangeCount(s)
  {
    var updates := CountOutside(s.updates.Keys, s.deletes.Keys);
    count := |s.inserts| + |s.deletes| + updates;
  }

  // ----- the staging invariant -----

  /** Whether the grid lets a column of a draft (or of an existing row) be edited. */
  predicate ColumnWritable(relation: Relation, insert: bool, column: Column) {
    !column.generated && !column.identity &&
    if insert then relation.canInsert && column.canInsert else relation.canUpdate && column.canUpdate
  }

  predicate WritableName(relation: Relation, insert: bool, name: string) {
    var column := FindColumn(relation.columns, name);
    column.Some? && ColumnWritable(relation, insert, column.value)
  }

  predicate UpdateEntry(relation: Relation, key: string, m: Mutation) {
    m.kind == UpdateRow && m.values != map[] && Key(relation.identity, m.original.identity) == key &&
    forall c :: c in m.values ==> WritableName(relation, false, c)
  }

  predicate DeleteEntry(relation: Relation, key: string, m: Mutation) {
    relation.canDelete && m.kind == DeleteRow && Key(relation.identity, m.original.identity) == key
  }

  predicate DraftEntry(relation: Relation, m: Mutation) {
    relation.canInsert && m.kind == MutationKind.InsertRow && m.original == NO_ROW &&
    forall c :: c in m.values ==> WritableName(relation, true, c) && m.values[c] != DefaultValue
  }

  /** Every entry is non-empty, keyed by the identity of its original row and stages only
      columns the relation lets the grid write; draft ids ascend below the counter. */
  ghost predicate Consistent(relation: Relation, s: Staged) {
    (forall k :: k in s.updates ==> UpdateEntry(relation, k, s.updates[k])) &&
    (forall k :: k in s.deletes ==> DeleteEntry(relation, k, s.deletes[k])) &&
    (forall i :: 0 <= i < |s.inserts| ==> DraftEntry(relation, s.inserts[i]) && s.inserts[i].draftId < s.nextDraft) &&
    forall i, j :: 0 <= i < j < |s.inserts| ==> s.inserts[i].draftId < s.inserts[j].draftId
  }

  /** A reference resolved against the current drafts and page. */
  ghost predicate Resolves(relation: Relation, s: Staged, ref: RowRef) {
    if ref.insert then ref.insertIdx < |s.inserts| else ref.key == Key(relation.identity, ref.row.identity)
  }

  lemma StageInDraftConsistent(relation: Relation, s: Staged, index: nat, column: string, value: StagedValue)
    requires Consistent(relation, s) && index < |s.inserts| && WritableName(relation, true, column)
    ensures
      var draft := s.inserts[index];
      var values := if value == DefaultValue then draft.values - {column} else draft.values[column := value];
      Consistent(relation, s.(inserts := s.inserts[index := draft.(values := values)]))
  {
  }

  lemma PutUpdateConsistent(relation: Relation, s: Staged, key: string, m: Mutation)
    requires Consistent(relation, s) && UpdateEntry(relation, key, m)
    ensures Consistent(relation, s.(updates := s.updates[key := m]))
  {
  }

  lemma DropUpdateConsistent(relation: Relation, s: Staged, key: string)
    requires Consistent(relation, s)
    ensures Consistent(relation, s.(updates := s.updates - {key}))
  {
  }

  lemma StageValueConsistent(relation: Relation, s: Staged, ref: RowRef, column: string, value: StagedValue)
    requires Consistent(relation, s) && Resolves(relation, s, ref) && WritableName(relation, ref.insert, column)
    ensures Consistent(relation, StageValue(relation, s, ref, column, value))
  {
    if ref.insert {
      StageInDraftConsistent(relation, s, ref.insertIdx, column, value);
    } else {
      var mutation := UpdateFor(s, ref);
      assert ref.key in s.updates ==> UpdateEntry(relation, ref.key, s.updates[ref.key]);
      var values :=
        if StagedMatchesOriginal(value, ref.row, ColumnIndex(relation.columns, column)) then mutation.values - {column}
        else mutation.values[column := value];
      if values == map[] {
        DropUpdateConsistent(relation, s, ref.key);
      } else {
        PutUpdateConsistent(relation, s, ref.key, mutation.(values := values));
      }
    }
  }

  lemma RemoveDraftConsistent(relation: Relation, s: Staged, index: nat)
    requires Consistent(relation, s) && index < |s.inserts|
    ensures Consistent(relation, RemoveDraft(s, index))
  {
  }

  lemma ToggleDeleteConsistent(relation: Relation, s: Staged, ref: RowRef)
    requires Consistent(relation, s) && Resolves(relation, s, ref) && !ref.insert && relation.canDelete
    ensures Consistent(relation, ToggleDelete(s, ref))
  {
  }

  lemma RevertRowConsistent(relation: Relation, s: Staged, ref: RowRef)
    requires Consistent(relation, s)
    ensures Consistent(relation, RevertRow(s, ref))
  {
  }

  // ----- what the snapshot contains -----

  lemma {:induction false} WithoutMembers(keys: seq<string>, gone: set<string>)
    ensures forall k :: k in Without(keys, gone) <==> k in keys && k !in gone
  {
    if keys != [] {
      WithoutMembers(keys[..|keys| - 1], gone);
      assert keys == keys[..|keys| - 1] + [keys[|keys| - 1]];
    }
  }

  lemma {:induction false} WithoutKeepsDistinct(keys: seq<string>, gone: set<string>)
    requires Distinct(keys)
    ensures Distinct(Without(keys, gone))
  {
    if keys != [] {
      var front := keys[..|keys| - 1];
      WithoutKeepsDistinct(front, gone);
      WithoutMembers(front, gone);
      var rest := Without(front, gone);
      forall i | 0 <= i < |rest| ensures rest[i] != keys[|keys| - 1] {
        assert rest[i] in front;
      }
    }
  }

  lemma {:induction false} DistinctCount(keys: seq<string>, members: set<string>)
    requires Distinct(keys) && forall k :: k in keys <==> k in members
    ensures |keys| == |members|
  {
    if keys == [] {
      assert members == {};
    } else {
      var front, last := keys[..|keys| - 1], keys[|keys| - 1];
      assert keys == front + [last];
      assert last !in front;
      DistinctCount(front, members - {last});
    }
  }

  lemma KeyListsFacts(s: Staged)
    ensures Distinct(DeleteKeys(s)) && forall k :: k in DeleteKeys(s) <==> k in s.deletes
    ensures Distinct(UpdateKeys(s)) && forall k :: k in UpdateKeys(s) <==> k in s.updates && k !in s.deletes
    ensures |DeleteKeys(s)| == |s.deletes|
  {
    SortedStringsFacts(s.deletes.Keys);
    SortedStringsFacts(s.updates.Keys);
    AscendingIsDistinct(SortedStrings(s.deletes.Keys));
    AscendingIsDistinct(SortedStrings(s.updates.Keys));
    WithoutKeepsDistinct(SortedStrings(s.updates.Keys), s.deletes.Keys);
    WithoutMembers(SortedStrings(s.updates.Keys), s.deletes.Keys);
  }

  /** The change counter counts exactly the mutations an apply would send. */
  lemma ChangeCountIsSnapshotLength(s: Staged)
    ensures ChangeCount(s) == |Snapshot(s)|
    ensures Dirty(s) <==> Snapshot(s) != []
  {
    KeyListsFacts(s);
    DistinctCount(UpdateKeys(s), s.updates.Keys - s.deletes.Keys);
  }

  /** Two mutations of a snapshot never touch the same row: drafts have different ids, and the
      original rows of the others differ in some identity column. */
  predicate DifferentTargets(relation: Relation, m: Mutation, n: Mutation) {
    if m.kind == MutationKind.InsertRow || n.kind == MutationKind.InsertRow
    then m.kind != n.kind || m.draftId != n.draftId
    else !SameIdentity(relation.identity, m.original.identity, n.original.identity)
  }

  ghost predicate WellFormedOriginals(s: Staged) {
    (forall k :: k in s.updates ==> WellFormedIdentity(s.updates[k].original.identity)) &&
    forall k :: k in s.deletes ==> WellFormedIdentity(s.deletes[k].original.identity)
  }

  ghost function RowKeys(s: Staged): seq<string> { DeleteKeys(s) + UpdateKeys(s) }

  /** A staged change of an existing row, and the key it is staged under. */
  predicate RowEntry(relation: Relation, key: string, m: Mutation) {
    UpdateEntry(relation, key, m) || DeleteEntry(relation, key, m)
  }

  /** The mutation at a position of the snapshot is the one staged under the key there. */
  lemma RowMutationAt(s: Staged, i: nat)
    requires i < |RowKeys(s)|
    ensures |RowMutations(s)| == |RowKeys(s)|
    ensures
      var key, m := RowKeys(s)[i], RowMutations(s)[i];
      if i < |DeleteKeys(s)| then key in s.deletes && m == s.deletes[key] else key in s.updates && m == s.updates[key]
  {
    KeyListsFacts(s);
    var d := |DeleteKeys(s)|;
    if i < d { assert DeleteKeys(s)[i] in DeleteKeys(s); } else { assert UpdateKeys(s)[i - d] in UpdateKeys(s); }
  }

  lemma RowMutationEntry(relation: Relation, s: Staged, i: nat)
    requires Consistent(relation, s) && i < |RowKeys(s)|
    ensures |RowMutations(s)| == |RowKeys(s)| && RowEntry(relation, RowKeys(s)[i], RowMutations(s)[i])
    ensures WellFormedOriginals(s) ==> WellFormedIdentity(RowMutations(s)[i].original.identity)
  {
    RowMutationAt(s, i);
  }

  lemma RowKeysDistinct(s: Staged)
    ensures Distinct(RowKeys(s))
  {
    KeyListsFacts(s);
    ConcatDistinct(DeleteKeys(s), UpdateKeys(s));
  }

  lemma ConcatDistinct(a: seq<string>, b: seq<string>)
    requires Distinct(a) && Distinct(b) && forall k :: k in a ==> k !in b
    ensures Distinct(a + b)
  {
    forall i, j | 0 <= i < j < |a + b| ensures (a + b)[i] != (a + b)[j] {
      if i < |a| <= j { assert a[i] in a && b[j - |a|] in b; }
    }
  }

  lemma DifferentKeysDifferentTargets(relation: Relation, k: string, m: Mutation, l: string, n: Mutation)
    requires k != l && RowEntry(relation, k, m) && RowEntry(relation, l, n)
    requires WellFormedIdentity(m.original.identity) && WellFormedIdentity(n.original.identity)
    ensures DifferentTargets(relation, m, n)
  {
    KeyIdentifiesRow(relation.identity, m.original.identity, n.original.identity);
  }

  /** No row, and no draft, occurs twice in a snapshot. */
  lemma SnapshotHasNoRepeats(relation: Relation, s: Staged, i: nat, j: nat)
    requires Consistent(relation, s) && WellFormedOriginals(s) && i < j < |Snapshot(s)|
    ensures DifferentTargets(relation, Snapshot(s)[i], Snapshot(s)[j])
  {
    var r := |RowKeys(s)|;
    if j < r {
      RowMutationEntry(relation, s, i);
      RowMutationEntry(relation, s, j);
      RowKeysDistinct(s);
      DifferentKeysDifferentTargets(relation, RowKeys(s)[i], RowMutations(s)[i], RowKeys(s)[j], RowMutations(s)[j]);
    } else {
      assert Snapshot(s)[j] == s.inserts[j - r] && DraftEntry(relation, s.inserts[j - r]);
      if i < r {
        RowMutationEntry(relation, s, i);
      } else {
        assert Snapshot(s)[i] == s.inserts[i - r] && DraftEntry(relation, s.inserts[i - r]);
      }
    }
  }

  // ----- no value is staged that the row already has -----

  /** No staged value of an update equals what its original row shows. */
  ghost predicate NothingRedundant(relation: Relation, m: Mutation) {
    forall c :: c in m.values ==> !StagedMatchesOriginal(m.values[c], m.original, ColumnIndex(relation.columns, c))
  }

  /** Exactly when staging keeps it so for an update that is there already: if the value staged
      equals the original's, then it also equals what the row shows, because that is what the
      value is compared with. */
  lemma StagingKeepsClean(relation: Relation, s: Staged, ref: RowRef, column: string, value: StagedValue)
    requires !ref.insert && ref.key in s.updates && NothingRedundant(relation, s.updates[ref.key])
    ensures
      var t := StageValue(relation, s, ref, column, value);
      var i := ColumnIndex(relation.columns, column);
      (ref.key in t.updates ==> NothingRedundant(relation, t.updates[ref.key])) <==>
      (StagedMatchesOriginal(value, s.updates[ref.key].original, i) ==> StagedMatchesOriginal(value, ref.row, i))
  {
    var original, i := s.updates[ref.key].original, ColumnIndex(relation.columns, column);
    if StagedMatchesOriginal(value, original, i) && !StagedMatchesOriginal(value, ref.row, i) {
      var values := s.updates[ref.key].values[column := value];
      assert column in values && values[column] == value;
    }
  }

  /** Staging keeps it so for the row staged, provided the row shown still has the cells the
      update was begun on: typing the shown value back removes the staged one. */
  lemma StagingRemovesRedundant(relation: Relation, s: Staged, ref: RowRef, column: string, value: StagedValue)
    requires !ref.insert && ref.key in s.updates ==> s.updates[ref.key].original.cells == ref.row.cells
    requires !ref.insert && (ref.key in s.updates ==> NothingRedundant(relation, s.updates[ref.key]))
    ensures
      var t := StageValue(relation, s, ref, column, value);
      ref.key in t.updates ==> NothingRedundant(relation, t.updates[ref.key])
  {
  }

  /** Once the row shown differs from the original in a column, typing the original's value
      back stages it although the original has it. */
  lemma ShownRowDecides(relation: Relation, s: Staged, ref: RowRef, column: string)
    requires !ref.insert && ref.key in s.updates
    requires
      var i := ColumnIndex(relation.columns, column);
      var original := s.updates[ref.key].original;
      0 <= i < |original.cells| == |ref.row.cells| && !original.cells[i].isNull &&
      (ref.row.cells[i].isNull || ref.row.cells[i].edit != original.cells[i].edit)
    ensures
      var i := ColumnIndex(relation.columns, column);
      var t := StageValue(relation, s, ref, column, Text(s.updates[ref.key].original.cells[i].edit));
      ref.key in t.updates && column in t.updates[ref.key].values && !NothingRedundant(relation, t.updates[ref.key])
  {
    var i := ColumnIndex(relation.columns, column);
    var original := s.updates[ref.key].original;
    var value := Text(original.cells[i].edit);
    assert !StagedMatchesOriginal(value, ref.row, i) && StagedMatchesOriginal(value, original, i);
    var values := s.updates[ref.key].values[column := value];
    assert column in values;
  }
}
