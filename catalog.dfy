/** The catalog as a value: the rows of the `websites` table in insertion order and the id
    the next insert receives, with the lookup, insert and update statements the bot runs. */
module Catalog {
  import opened Records

  datatype Table = Table(rows: seq<Website>, nextId: nat)

  /** The table `init_db.py` creates. */
  function Empty(): Table
  {
    Table([], 1)
  }

  ghost predicate UniqueUrls(rows: seq<Website>)
  {
    forall i, j :: 0 <= i < j < |rows| ==> rows[i].url != rows[j].url
  }

  /** The table's invariant: the UNIQUE constraint on `url`, and ids handed out as SQLite
      hands out an INTEGER PRIMARY KEY when nothing is ever deleted (1, then one more than
      the largest id so far). */
  ghost predicate Valid(t: Table)
  {
    && UniqueUrls(t.rows)
    && (forall i, j :: 0 <= i < j < |t.rows| ==> t.rows[i].id < t.rows[j].id)
    && (|t.rows| > 0 ==> t.rows[0].id >= 1)
    && t.nextId == (if |t.rows| == 0 then 1 else t.rows[|t.rows| - 1].id + 1)
  }

  /** `rows'` keeps every record of `rows`, in place, with the same identity and reference
      timestamps and a count no smaller: no record is removed and no count goes down. */
  ghost predicate Extends(rows: seq<Website>, rows': seq<Website>)
  {
    && |rows| <= |rows'|
    && forall i :: 0 <= i < |rows| ==>
         && rows'[i].id == rows[i].id
         && rows'[i].url == rows[i].url
         && rows'[i].firstReferenced == rows[i].firstReferenced
         && rows'[i].lastReferenced == rows[i].lastReferenced
         && rows[i].referenceCount <= rows'[i].referenceCount
  }

  lemma ExtendsTransitive(a: seq<Website>, b: seq<Website>, c: seq<Website>)
    requires Extends(a, b) && Extends(b, c)
    ensures Extends(a, c)
  {
  }

  /** Position of the record whose url is exactly `url` (`WHERE url = ?`). */
  function IndexOf(rows: seq<Website>, url: string): (r: Option<nat>)
    ensures r.Some? ==> r.value < |rows| && rows[r.value].url == url
    ensures r.Some? ==> forall j :: 0 <= j < r.value ==> rows[j].url != url
    ensures r.None? ==> forall j :: 0 <= j < |rows| ==> rows[j].url != url
  {
    if rows == [] then None
    else if rows[0].url == url then Some(0)
    else
      match IndexOf(rows[1..], url)
      case None => None
      case Some(k) => Some(k + 1)
  }

  /** The record stored under exactly `url`, if any. */
  function Lookup(rows: seq<Website>, url: string): (r: Option<Website>)
    ensures r.Some? ==> r.value in rows && r.value.url == url
    ensures r.None? <==> forall j :: 0 <= j < |rows| ==> rows[j].url != url
  {
    match IndexOf(rows, url)
    case None => None
    case Some(i) => Some(rows[i])
  }

  /** The first record with url `u` sits at position i. */
  lemma IndexOfFirst(rows: seq<Website>, u: string, i: nat)
    requires i < |rows| && rows[i].url == u
    requires forall j :: 0 <= j < i ==> rows[j].url != u
    ensures IndexOf(rows, u) == Some(i)
  {
  }

  /** In a valid table, looking a record's url up finds exactly that record. */
  lemma LookupFindsMember(t: Table, w: Website)
    requires Valid(t)
    ensures Lookup(t.rows, w.url) == Some(w) <==> w in t.rows
  {
    if w in t.rows {
      var k :| 0 <= k < |t.rows| && t.rows[k] == w;
      IndexOfFirst(t.rows, w.url, k);
    }
  }

  /** Appending a record changes the lookup only for its own url, and then only when the
      url was absent. */
  lemma LookupAppend(rows: seq<Website>, w: Website, u: string)
    ensures Lookup(rows + [w], u) ==
            if Lookup(rows, u).Some? then Lookup(rows, u)
            else if w.url == u then Some(w) else None
  {
    var rows' := rows + [w];
    assert forall j :: 0 <= j < |rows| ==> rows'[j] == rows[j];
    match IndexOf(rows, u)
    case Some(i) =>
      IndexOfFirst(rows', u, i);
    case None =>
      if w.url == u {
        IndexOfFirst(rows', u, |rows|);
      }
  }

  /** Replacing the record at i by one with the same url leaves every other url's lookup
      unchanged, and makes that url's lookup find the replacement when i was its first match. */
  lemma LookupReplace(rows: seq<Website>, i: nat, w: Website, u: string)
    requires IndexOf(rows, w.url) == Some(i)
    ensures Lookup(rows[i := w], u) == if u == w.url then Some(w) else Lookup(rows, u)
  {
    var rows' := rows[i := w];
    assert forall j :: 0 <= j < |rows| ==> rows'[j].url == rows[j].url;
    match IndexOf(rows, u)
    case Some(k) =>
      IndexOfFirst(rows', u, k);
    case None =>
  }

  /** Appending a record with a fresh url and the next id keeps the table valid. */
  lemma AppendKeepsValid(t: Table, w: Website)
    requires Lookup(t.rows, w.url).None? && w.id == t.nextId
    ensures Valid(t) ==> Valid(Table(t.rows + [w], t.nextId + 1))
  {
  }

  /** Replacing a record by one with the same id and url keeps the table valid. */
  lemma ReplaceKeepsValid(t: Table, i: nat, w: Website)
    requires i < |t.rows| && w.id == t.rows[i].id && w.url == t.rows[i].url
    ensures Valid(t) ==> Valid(t.(rows := t.rows[i := w]))
  {
  }

  /** Why `add_website` can fail. */
  datatype AddError = MissingDescription | AlreadyAdded

  /** `add_website`: reject a missing description, otherwise INSERT the url exactly as given
      and let the UNIQUE constraint reject a url that is already stored. A failure leaves
      the table as it was. */
  function Add(t: Table, url: string, description: Option<string>, now: Timestamp): (r: Result<Table, AddError>)
    ensures description.None? ==> r == Failure(MissingDescription)
    ensures description.Some? && Lookup(t.rows, url).Some? ==> r == Failure(AlreadyAdded)
    ensures description.Some? && Lookup(t.rows, url).None? ==>
      && r.Success?
      && |r.value.rows| == |t.rows| + 1
      && r.value.rows[..|t.rows|] == t.rows
      && Lookup(r.value.rows, url).Some?
      && var w := Lookup(r.value.rows, url).value;
         && w.id == t.nextId && w.url == url && w.description == description.value
         && w.referenceCount == 0
         && w.firstReferenced == w.lastReferenced == now
         && w.updatedBy.None? && w.lastUpdated.None?
    ensures r.Success? ==> forall u :: u != url ==> Lookup(r.value.rows, u) == Lookup(t.rows, u)
    ensures r.Success? ==> Extends(t.rows, r.value.rows)
    ensures r.Success? && Valid(t) ==> Valid(r.value)
  {
    if description.None? then Failure(MissingDescription)
    else if IndexOf(t.rows, url).Some? then Failure(AlreadyAdded)
    else
      var w := Manual(t.nextId, url, description.value, now);
      var rows' := t.rows + [w];
      assert rows'[..|t.rows|] == t.rows;
      forall u ensures Lookup(rows', u) == if u == url then Some(w) else Lookup(t.rows, u) {
        LookupAppend(t.rows, w, u);
      }
      AppendKeepsValid(t, w);
      Success(Table(rows', t.nextId + 1))
  }

  /** Adding the same url a second time is refused, whatever the description, so the first
      record stays as it was. */
  lemma AddTwiceRejected(t: Table, url: string, first: string, second: Option<string>, now: Timestamp, later: Timestamp)
    requires Add(t, url, Some(first), now).Success?
    requires second.Some?
    ensures Add(Add(t, url, Some(first), now).value, url, second, later) == Failure(AlreadyAdded)
  {
  }

  /** `update_description` on an already normalised key: NotFound (`None`) when no record has
      that url; otherwise only the description, the editor and the last-updated time of that
      record change. */
  function Describe(t: Table, key: string, description: string, editor: string, now: Timestamp): (r: Option<Table>)
    ensures r.None? <==> Lookup(t.rows, key).None?
    ensures r.Some? ==>
      && |r.value.rows| == |t.rows| && r.value.nextId == t.nextId
      && var w := Lookup(t.rows, key).value;
         Lookup(r.value.rows, key) ==
           Some(w.(description := description, updatedBy := Some(editor), lastUpdated := Some(now)))
    ensures r.Some? ==> forall u :: u != key ==> Lookup(r.value.rows, u) == Lookup(t.rows, u)
    ensures r.Some? ==> Extends(t.rows, r.value.rows)
    ensures r.Some? ==> forall i :: 0 <= i < |t.rows| ==> r.value.rows[i].referenceCount == t.rows[i].referenceCount
    ensures r.Some? && Valid(t) ==> Valid(r.value)
  {
    match IndexOf(t.rows, key)
    case None => None
    case Some(i) =>
      var w := t.rows[i].(description := description, updatedBy := Some(editor), lastUpdated := Some(now));
      forall u ensures Lookup(t.rows[i := w], u) == if u == key then Some(w) else Lookup(t.rows, u) {
        LookupReplace(t.rows, i, w, u);
      }
      ReplaceKeepsValid(t, i, w);
      Some(t.(rows := t.rows[i := w]))
  }

  /** The collection job's insert-or-increment for one message whose whole content is `url`.
      Its properties are the lemmas that follow. */
  function Increment(t: Table, url: string, now: Timestamp): Table
  {
    match IndexOf(t.rows, url)
    case Some(i) => t.(rows := t.rows[i := t.rows[i].(referenceCount := t.rows[i].referenceCount + 1)])
    case None => Table(t.rows + [Scraped(t.nextId, url, now)], t.nextId + 1)
  }

  /** An existing record gets exactly one more reference and nothing else about it changes. */
  lemma IncrementExisting(t: Table, url: string, now: Timestamp)
    requires Lookup(t.rows, url).Some?
    ensures var r := Increment(t, url, now);
            var w := Lookup(t.rows, url).value;
            && |r.rows| == |t.rows| && r.nextId == t.nextId
            && Lookup(r.rows, url) == Some(w.(referenceCount := w.referenceCount + 1))
  {
    var i := IndexOf(t.rows, url).value;
    LookupReplace(t.rows, i, t.rows[i].(referenceCount := t.rows[i].referenceCount + 1), url);
  }

  /** An absent url gets one new record at the end: the next id, count 1, the placeholder
      description, the bot as editor and all three timestamps equal to `now`. */
  lemma IncrementNew(t: Table, url: string, now: Timestamp)
    requires Lookup(t.rows, url).None?
    ensures var r := Increment(t, url, now);
            && |r.rows| == |t.rows| + 1
            && r.rows[..|t.rows|] == t.rows
            && Lookup(r.rows, url).Some?
            && var w := Lookup(r.rows, url).value;
               && w.id == t.nextId && w.url == url
               && w.referenceCount == 1
               && w.description == ScrapedDescription
               && w.updatedBy == Some(BotEditor)
               && w.firstReferenced == w.lastReferenced && w.lastUpdated == Some(w.firstReferenced)
               && w.firstReferenced == now
  {
    var rows' := t.rows + [Scraped(t.nextId, url, now)];
    assert rows'[..|t.rows|] == t.rows;
    LookupAppend(t.rows, Scraped(t.nextId, url, now), url);
  }

  /** The record of every other url is untouched. */
  lemma IncrementFrame(t: Table, url: string, now: Timestamp, u: string)
    requires u != url
    ensures Lookup(Increment(t, url, now).rows, u) == Lookup(t.rows, u)
  {
    match IndexOf(t.rows, url)
    case Some(i) =>
      LookupReplace(t.rows, i, t.rows[i].(referenceCount := t.rows[i].referenceCount + 1), u);
    case None =>
      LookupAppend(t.rows, Scraped(t.nextId, url, now), u);
  }

  /** No record is removed, no count goes down, and no identity or reference timestamp
      changes; the table stays valid. */
  lemma IncrementExtends(t: Table, url: string, now: Timestamp)
    ensures Extends(t.rows, Increment(t, url, now).rows)
    ensures Valid(t) ==> Valid(Increment(t, url, now))
  {
    match IndexOf(t.rows, url)
    case Some(i) =>
      ReplaceKeepsValid(t, i, t.rows[i].(referenceCount := t.rows[i].referenceCount + 1));
    case None =>
      AppendKeepsValid(t, Scraped(t.nextId, url, now));
  }
}
