/** The database behind `db_query`, `db_fetch_assoc` and `db_insert_id`,
    reduced to what the entity's statements do: one table per entity type,
    each a map from id to row with an auto-increment counter. A statement
    carries the rendered SQL literal of each column; the engine keeps what
    `evalLiteral` says the literal denotes, and hands that back on a fetch.
    A statement against a table that does not exist fails. */
module Storage {
  import opened Wrappers
  import opened PhpValues

  type Row = map<string, Value>

  datatype Table = Table(rows: map<int, Row>, nextId: int)

  /** The counter is positive and above every id in use. */
  predicate TableValid(t: Table) {
    t.nextId >= 1 && forall id :: id in t.rows ==> id < t.nextId
  }

  predicate TablesValid(tables: map<string, Table>) {
    forall name :: name in tables ==> TableValid(tables[name])
  }

  /** The row kept for a list of column literals. */
  function Stored(cells: map<string, string>, evalLiteral: string -> Value): (row: Row)
    ensures row.Keys == cells.Keys
  {
    map c | c in cells :: evalLiteral(cells[c])
  }

  /** `SELECT * ... WHERE id = $id`. */
  function Fetch(tables: map<string, Table>, name: string, id: int): Option<Row> {
    if name in tables && id in tables[name].rows then Some(tables[name].rows[id]) else None
  }

  /** `INSERT INTO name (...) VALUES (...)`: the row gets the next id. */
  function AfterInsert(tables: map<string, Table>, name: string, cells: map<string, string>,
                       evalLiteral: string -> Value): map<string, Table>
  {
    if name in tables then
      var t := tables[name];
      tables[name := Table(t.rows[t.nextId := Stored(cells, evalLiteral)], t.nextId + 1)]
    else
      tables
  }

  /** `UPDATE name SET ... WHERE id = $id`: only the listed columns change;
      no row matching is not a failure. */
  function AfterUpdate(tables: map<string, Table>, name: string, id: int, cells: map<string, string>,
                       evalLiteral: string -> Value): map<string, Table>
  {
    if name in tables && id in tables[name].rows then
      var t := tables[name];
      tables[name := t.(rows := t.rows[id := t.rows[id] + Stored(cells, evalLiteral)])]
    else
      tables
  }

  /** `DELETE FROM name WHERE id = $id`. */
  function AfterDelete(tables: map<string, Table>, name: string, id: int): map<string, Table> {
    if name in tables then tables[name := tables[name].(rows := tables[name].rows - {id})] else tables
  }

  /** An insert never overwrites a row: the new id was free, every earlier
      row is kept, and a fetch of the new id returns the stored literals. */
  lemma InsertKeepsRows(tables: map<string, Table>, name: string, cells: map<string, string>,
                        evalLiteral: string -> Value)
    requires TablesValid(tables) && name in tables
    ensures var id := tables[name].nextId;
      id >= 1 && id !in tables[name].rows &&
      Fetch(AfterInsert(tables, name, cells, evalLiteral), name, id) == Some(Stored(cells, evalLiteral)) &&
      (forall other :: other in tables[name].rows ==>
        Fetch(AfterInsert(tables, name, cells, evalLiteral), name, other) == Fetch(tables, name, other))
    ensures TablesValid(AfterInsert(tables, name, cells, evalLiteral))
  {
  }

  /** An update writes the listed columns of the matching row and keeps
      every other column and every other row. */
  lemma UpdateTouchesListedColumns(tables: map<string, Table>, name: string, id: int,
                                   cells: map<string, string>, evalLiteral: string -> Value, column: string)
    requires Fetch(tables, name, id).Some?
    ensures var after := Fetch(AfterUpdate(tables, name, id, cells, evalLiteral), name, id);
      after.Some? &&
      (column in cells ==> column in after.value && after.value[column] == evalLiteral(cells[column])) &&
      (column !in cells ==> (column in after.value <==> column in Fetch(tables, name, id).value)) &&
      (column !in cells && column in after.value ==> after.value[column] == Fetch(tables, name, id).value[column])
    ensures forall other :: other != id ==>
      Fetch(AfterUpdate(tables, name, id, cells, evalLiteral), name, other) == Fetch(tables, name, other)
  {
  }

  /** After a delete, the id fetches nothing and other rows are kept. */
  lemma DeleteRemovesRow(tables: map<string, Table>, name: string, id: int)
    ensures Fetch(AfterDelete(tables, name, id), name, id).None?
    ensures forall other :: other != id ==> Fetch(AfterDelete(tables, name, id), name, other) == Fetch(tables, name, other)
  {
  }

  class Database {
    var tables: map<string, Table>
    /** The value a column keeps for a rendered literal. */
    const evalLiteral: string -> Value

    ghost predicate Valid()
      reads this
    {
      TablesValid(tables)
    }

    constructor (tables: map<string, Table>, evalLiteral: string -> Value)
      requires TablesValid(tables)
      ensures Valid() && this.tables == tables && this.evalLiteral == evalLiteral
    {
      this.tables := tables;
      this.evalLiteral := evalLiteral;
    }

    /** An INSERT followed by `db_insert_id()`; `None` when the query fails. */
    method Insert(name: string, cells: map<string, string>) returns (id: Option<int>)
      requires Valid()
      modifies this
      ensures Valid()
      ensures id.Some? <==> name in old(tables)
      ensures id.Some? ==> id.value == old(tables)[name].nextId && id.value >= 1 && id.value !in old(tables)[name].rows
      ensures tables == AfterInsert(old(tables), name, cells, evalLiteral)
    {
      if name !in tables {
        return None;
      }
      var t := tables[name];
      id := Some(t.nextId);
      tables := tables[name := Table(t.rows[t.nextId := Stored(cells, evalLiteral)], t.nextId + 1)];
    }

    method Update(name: string, id: int, cells: map<string, string>) returns (ok: bool)
      requires Valid()
      modifies this
      ensures Valid()
      ensures ok <==> name in old(tables)
      ensures tables == AfterUpdate(old(tables), name, id, cells, evalLiteral)
    {
      ok := name in tables;
      if ok && id in tables[name].rows {
        var t := tables[name];
        tables := tables[name := t.(rows := t.rows[id := t.rows[id] + Stored(cells, evalLiteral)])];
      }
    }

    method Delete(name: string, id: int) returns (ok: bool)
      requires Valid()
      modifies this
      ensures Valid()
      ensures ok <==> name in old(tables)
      ensures tables == AfterDelete(old(tables), name, id)
    {
      ok := name in tables;
      if ok {
        tables := tables[name := tables[name].(rows := tables[name].rows - {id})];
      }
    }

    /** A SELECT by id followed by `db_fetch_assoc`; `None` when the query
      fails or matches no row. */
    method Select(name: string, id: int) returns (row: Option<Row>)
      ensures row == Fetch(tables, name, id)
    {
      if name in tables && id in tables[name].rows {
        row := Some(tables[name].rows[id]);
      } else {
        row := None;
      }
    }
  }
}
