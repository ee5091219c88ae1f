/** SQL values and tables, and the two row statements that a Mutate can put in the ledger. */
module Tables {
  import opened Wrappers

  type byte = x: int | 0 <= x < 256

  datatype Value = Null | Int(n: int) | Bool(b: bool) | Str(s: string) | Blob(bytes: seq<byte>)

  /** REPLACE INTO table (fields) VALUES(values), or DELETE FROM table WHERE fields[i] = values[i]. */
  datatype Dml =
    | Upsert(table: string, fields: seq<string>, values: seq<Value>)
    | Delete(table: string, fields: seq<string>, values: seq<Value>)

  /** One ledger statement: a transaction marker or a row statement. */
  datatype Statement = TxBegin | TxEnd | Row(dml: Dml)

  /** A table: its columns in order, its key columns, and its rows by key. */
  datatype Table = Table(columns: seq<string>, key: seq<string>, rows: map<seq<Value>, seq<Value>>)

  type Tables = map<string, Table>

  function IndexOf(names: seq<string>, name: string): (i: nat)
    requires name in names
    ensures i < |names| && names[i] == name
  {
    if names[0] == name then 0 else 1 + IndexOf(names[1..], name)
  }

  function KeyOf(t: Table, values: seq<Value>): (key: seq<Value>)
    requires |values| == |t.columns|
    requires forall k :: k in t.key ==> k in t.columns
    ensures |key| == |t.key|
  {
    seq(|t.key|, i requires 0 <= i < |t.key| => values[IndexOf(t.columns, t.key[i])])
  }

  /** Executes one row statement; None is an SQL error. A key value of NULL cannot be
      stored, and in a WHERE clause it equals nothing. */
  function Exec(db: Tables, d: Dml): Option<Tables> {
    if d.table !in db then None
    else
      var t := db[d.table];
      match d
      case Upsert(name, fields, values) =>
        if fields != t.columns || |values| != |fields| || !(forall k :: k in t.key ==> k in t.columns) then None
        else
          var key := KeyOf(t, values);
          if Null in key then None
          else Some(db[name := t.(rows := t.rows[key := values])])
      case Delete(name, fields, values) =>
        if fields != t.key || |values| != |fields| then None
        else if Null in values then Some(db)
        else Some(db[name := t.(rows := t.rows - {values})])
  }

  /** Executes row statements in order. */
  function ExecAll(db: Tables, ds: seq<Dml>): Option<Tables> {
    if ds == [] then Some(db)
    else
      match ExecAll(db, ds[..|ds| - 1])
      case None => None
      case Some(t) => Exec(t, ds[|ds| - 1])
  }
}
