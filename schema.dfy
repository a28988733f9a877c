/** The `websites` table as the SQL queries see it: a row of eight column values in the
    order the table declares them (id, url, description, updated_by, first_referenced,
    last_referenced, last_updated, reference_count). */
module Schema {
  import opened Records

  /** A column value: an INTEGER, a TEXT or NULL. */
  datatype Value = Int(n: nat) | Text(s: string) | Null

  function OptText(o: Option<string>): Value
  {
    match o
    case None => Null
    case Some(s) => Text(s)
  }

  /** The row `SELECT *` returns for a record. */
  function Columns(w: Website): (row: seq<Value>)
    ensures |row| == 8
  {
    [Int(w.id), Text(w.url), Text(w.description), OptText(w.updatedBy),
     Text(w.firstReferenced), Text(w.lastReferenced), OptText(w.lastUpdated),
     Int(w.referenceCount)]
  }

  function TextOf(v: Value): Option<string>
  {
    if v.Text? then Some(v.s) else None
  }

  /** Reads a record back from a row; fails on a row whose NOT NULL columns are missing. */
  function FromColumns(row: seq<Value>): (r: Option<Website>)
    ensures r.Some? ==> Columns(r.value) == row
    ensures r.None? ==> forall w :: Columns(w) != row
  {
    if |row| == 8 && row[0].Int? && row[1].Text? && row[2].Text? && row[4].Text?
       && row[5].Text? && row[7].Int?
       && (row[3].Null? || row[3].Text?) && (row[6].Null? || row[6].Text?)
    then Some(Website(row[0].n, row[1].s, row[2].s, TextOf(row[3]), row[4].s, row[5].s,
                      TextOf(row[6]), row[7].n))
    else None
  }

  /** Storing a record and reading it back loses nothing. */
  lemma ColumnsRoundTrip(w: Website)
    ensures FromColumns(Columns(w)) == Some(w)
  {
  }
}
