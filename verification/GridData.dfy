/** Records, staged values and mutations of the grid. */
module GridData {
  import opened Relations

  /** A driver value, known by the type and the syntax that %T and %#v print for it. */
  datatype Raw = Raw(goType: string, syntax: string)

  const NIL := Raw("<nil>", "<nil>")

  datatype Cell = Cell(raw: Raw, display: string, edit: string, isNull: bool)

  datatype Row = Row(identity: map<string, Raw>, xmin: nat, cells: seq<Cell>)

  const NO_ROW := Row(map[], 0, [])

  datatype StagedValue = Text(text: string) | NullValue | DefaultValue

  datatype MutationKind = InsertRow | UpdateRow | DeleteRow | UnknownKind(text: string)

  datatype Mutation = Mutation(kind: MutationKind, draftId: nat, original: Row, values: map<string, StagedValue>)

  datatype ApplyResult = ApplyResult(inserted: nat, updated: nat, deleted: nat)

  /** A fetched page; an empty cursor means no page on that side. */
  datatype Page = Page(rows: seq<Row>, next: string, prev: string)

  const NO_PAGE := Page([], "", "")

  /** No type name that %T prints contains a colon. */
  predicate WellFormedRaw(r: Raw) { ':' !in r.goType }

  predicate WellFormedIdentity(identity: map<string, Raw>) {
    forall c :: c in identity ==> WellFormedRaw(identity[c])
  }

  function IdentityValue(identity: map<string, Raw>, column: string): Raw {
    if column in identity then identity[column] else NIL
  }

  /** Two identities agree on every identity column. */
  predicate SameIdentity(columns: seq<string>, a: map<string, Raw>, b: map<string, Raw>) {
    forall c :: c in columns ==> IdentityValue(a, c) == IdentityValue(b, c)
  }

  function ColumnNames(columns: seq<Column>): set<string> {
    set c | c in columns :: c.name
  }
}
