/** The snapshot the collection job writes after each run: one entry per row of `SELECT *`,
    with its columns under the names the JSON file uses. */
module Export {
  import opened Records
  import opened Schema

  datatype Entry = Entry(
    id: Value,
    url: Value,
    description: Value,
    firstReferenced: Value,
    lastReferenced: Value,
    lastUpdated: Value,
    updatedBy: Value,
    referenceCount: Value)

  /** The entry for a `SELECT *` row, taking each field from its column position. */
  function ToEntry(row: seq<Value>): Entry
    requires |row| == 8
  {
    Entry(row[0], row[1], row[2], row[4], row[5], row[6], row[3], row[7])
  }

  /** Reads a record back from an entry, field by field name. */
  function FromEntry(e: Entry): Option<Website>
  {
    if e.id.Int? && e.url.Text? && e.description.Text? && e.firstReferenced.Text?
       && e.lastReferenced.Text? && e.referenceCount.Int?
       && (e.lastUpdated.Null? || e.lastUpdated.Text?) && (e.updatedBy.Null? || e.updatedBy.Text?)
    then Some(Website(e.id.n, e.url.s, e.description.s, TextOf(e.updatedBy), e.firstReferenced.s,
                      e.lastReferenced.s, TextOf(e.lastUpdated), e.referenceCount.n))
    else None
  }

  /** Each positional column lands under the field of the same name, so the entry for a
      record gives the record back. */
  lemma EntryRoundTrip(w: Website)
    ensures FromEntry(ToEntry(Columns(w))) == Some(w)
  {
  }
}
