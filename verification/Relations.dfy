/** Relation metadata and page requests shared by the table browser and the record grid. */
module Relations {

  datatype Option<+T> = None | Some(value: T)

  datatype Result<+T, +E> = Success(value: T) | Failure(error: E)

  datatype RelationId = RelationId(schema: string, name: string)

  const NO_RELATION := RelationId("", "")

  datatype RelationKind = Table | PartitionedTable | View | MaterializedView | ForeignTable

  datatype Column = Column(
    name: string, typeOid: nat, nullable: bool, hasDefault: bool, generated: bool, identity: bool,
    canInsert: bool, canUpdate: bool, sortable: bool)

  datatype Relation = Relation(
    id: RelationId, kind: RelationKind, columns: seq<Column>, identity: seq<string>,
    canInsert: bool, canUpdate: bool, canDelete: bool, hasXMin: bool)

  /** An empty column name is the default order. */
  datatype Sort = Sort(column: string, ascending: bool)

  datatype PageDirection = Unspecified | First | Next | Previous | Unrecognized(text: string)

  datatype PageRequest<+Cursor> = PageRequest(
    relation: RelationId, cursor: Cursor, direction: PageDirection, sort: Sort, limit: int)

  const DEFAULT_PAGE_SIZE := 100

  function Min(a: int, b: int): int { if a < b then a else b }

  function Max(a: int, b: int): int { if a > b then a else b }

  /** The first column of that name, as the linear lookup returns it. */
  function FindColumn(columns: seq<Column>, name: string): (c: Option<Column>)
    ensures c.Some? <==> exists i :: 0 <= i < |columns| && columns[i].name == name
    ensures c.Some? ==> c.value in columns && c.value.name == name
  {
    if columns == [] then None
    else if columns[0].name == name then Some(columns[0])
    else
      var rest := FindColumn(columns[1..], name);
      assert columns == [columns[0]] + columns[1..];
      rest
  }

  /** Column names of a relation are distinct. */
  predicate DistinctNames(columns: seq<Column>) {
    forall i, j :: 0 <= i < j < |columns| ==> columns[i].name != columns[j].name
  }

  lemma FindsOwnColumn(columns: seq<Column>, k: nat)
    requires DistinctNames(columns) && k < |columns|
    ensures FindColumn(columns, columns[k].name) == Some(columns[k])
  {
    var found := FindColumn(columns, columns[k].name);
    var i :| 0 <= i < |columns| && columns[i] == found.value;
    assert columns[i].name == columns[k].name;
  }
}
