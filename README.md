# Website reference catalog of the Discord site bot

This project models the core of a Discord bot that keeps a catalog of websites mentioned in a
channel. The catalog is one SQLite table, `websites`. Each row holds an id, a unique url, a
description, the last editor (`updated_by`), three timestamps (first referenced, last
referenced, last updated) and a reference count.

Four chat commands read or change the table: `add_website`, `update_description`,
`site_info` and `list_websites`. A daily job, `collect_messages`, reads the last day's
messages (at most 100, the history call's default limit). For each message that is not the
bot's own, does not start with `!` and contains `http://` or `https://`, it runs an
insert-or-increment keyed by the whole message text. It then exports every row as an
eight-field entry.

Layout:

- `records.dfy` (`Records`): the row as a datatype, the two shapes of a newly inserted row,
  and the collection job's constants.
- `urls.dfy` (`Urls`): the trailing-slash strip and Python's substring test.
- `schema.dfy` (`Schema`): a row as `SELECT *` returns it, eight column values in the
  table's declared order.
- `catalog.dfy` (`Catalog`): the table as a value (rows in insertion order plus the next id).
  It holds the table's invariant and the lookup, insert, update and insert-or-increment
  statements as functions.
- `collection.dfy` (`Collection`): message eligibility and the job's fold over a run's
  messages, with the lemmas about a whole run.
- `rendering.dfy` (`Rendering`): decimal numbers, the count ordering, and the text that
  `list_websites` and `site_info` send.
- `export.dfy` (`Export`): the row-to-entry projection of the snapshot.
- `sitebot.dfy` (`SiteBot`): the class `WebsiteStore`. Its fields `rows` and `nextId` are the
  table. Its methods are the command handlers and the collection run. `AddWebsite`,
  `UpdateDescription`, `Increment` and `CollectMessages` change the fields in place;
  `SiteInfo`, `ListWebsites` and `Export` only read them. Each is proved against the
  `Catalog`, `Collection` and `Rendering` functions.

Clock readings are opaque `Timestamp` strings supplied by the caller. The collection run gets
one reading per message (`clock[i]`). The channel lookup becomes a boolean `channelFound`.
The bot's own identity becomes a parameter `bot`. The messages are a sequence that is already
limited to the last 24 hours and to the history call's limit of 100.

## Where the code and the design differ

The design is the behaviour the catalog is meant to have: every url is normalised to one
key, normalising twice changes nothing, editors are either a person or the bot, and the
ranking breaks ties by insertion order. The model follows the code wherever the code
does otherwise.

- The design says every operation normalises the url. In the code only `site_info` and
  `update_description` strip the slash (main.py:38-39, main.py:65-66). `add_website` and the
  collection job store the url exactly as given (main.py:89-90, main.py:146). So a site added
  as `https://a.com/` is found by `site_info` neither with the url it was added with nor with
  `https://a.com`; only `https://a.com//`, one slash more, reaches it
  (`Collection.SlashedSiteIsUnreachable`).
- The design calls the normalisation idempotent. It removes only one slash, so `"a//"`
  becomes `"a/"` and then `"a"` (`Urls.StripIsNotIdempotent`).
- The design breaks ties in the ranking by insertion order. `ORDER BY reference_count DESC`
  (main.py:102) fixes no tie order, so the model claims none: `list_websites` takes the
  query's result as an input `ranked`, constrained only to be the table's rows in
  non-increasing count order (`Rendering.IsRanking`).
- Only messages whose whole text passes the link test are counted, and the key is that whole
  text (main.py:145-146). A site added by hand without `http://` or `https://`, or starting
  with `!`, is therefore never counted by the job (`Collection.UnlinkedSiteNeverCounted`).
- The design wants a tagged `Human | Automated` editor. The code stores the string `"BOT"`,
  and the model does the same.

## Model

| member | source | states |
|---|---|---|
| Urls.StripTrailingSlash | main.py:38-39 | A url ending in `/` loses exactly that one character; any other url is returned unchanged |
| Urls.SlashFormsShareKey | main.py:65-66 | For a url `u` not ending in `/`, `u` and `u + "/"` give the same lookup key, and that key is `u` |
| Urls.StripIsNotIdempotent | main.py:38-39 | Stripping twice can differ from stripping once (`"a//"`), so only one slash is removed |
| Urls.Contains | main.py:145 | Python's `sub in s`: true exactly when `sub` occurs in `s` at some index |
| Collection.IsEligible | main.py:145 | The text test of the job; `Collection.EligibleMeans` states what it accepts |
| Collection.Counted | main.py:141-145 | A message counts when the bot did not write it and its text is eligible; the bot check comes first, as in the source's `continue` |
| Collection.EligibleMeans | main.py:145 | A text is eligible exactly when its first character is not `!` and `http://` or `https://` occurs somewhere in it |
| Collection.CommandIsNotALink | main.py:145 | `"!add_website https://x.io"` is not counted, because it starts with the command prefix |
| Collection.BareLinkIsALink | main.py:145 | `"https://x.io"` is counted |
| Records.Manual | main.py:89-90 | The record `add_website` inserts: count 0 from the column default (init_db.py:16), both reference timestamps now, no editor and no last-updated; `Catalog.Add` states it |
| Records.Scraped | main.py:154-158 | The record the job inserts: count 1, the placeholder description, editor `BOT`, all three timestamps now; `Catalog.IncrementNew` states it |
| Schema.Columns | init_db.py:7-17 | A record's `SELECT *` row has the table's eight columns |
| Schema.FromColumns | init_db.py:7-17 | Reading a row succeeds exactly on the rows that are some record's columns, and then yields the record whose columns the row is |
| Schema.ColumnsRoundTrip | init_db.py:7-17 | Reading back the row of a record gives that record |
| Catalog.IndexOf | main.py:70-71 | `WHERE url = ?` finds the first row whose url is exactly the key; it finds nothing only when no row has that url |
| Catalog.Lookup | main.py:43-44 | The record found is a row of the table with exactly that url; nothing is found only when no row has that url |
| Catalog.LookupFindsMember | init_db.py:10 | In a table satisfying the UNIQUE constraint, looking up a record's url finds exactly that record |
| Catalog.Add | main.py:82-96 | No description: refused. A url already stored: refused. A refusal leaves the table as it was. Otherwise exactly one record is appended: the url as typed, the next id, count 0, first = last referenced = now, no editor, no last-updated. No other url's lookup changes, and validity is kept |
| Catalog.AddTwiceRejected | init_db.py:10 | Adding the same url again fails with `AlreadyAdded`, so the first record is left unmodified |
| Catalog.Describe | main.py:70-78 | NotFound exactly when the key has no record. Otherwise only that record's description, editor and last-updated change; its id, url, count and reference timestamps stay the same, and so do all other records |
| Catalog.Increment | main.py:146-158 | The insert-or-increment as the two SQL statements do it; what it guarantees is stated by `Catalog.IncrementExisting`, `Catalog.IncrementNew`, `Catalog.IncrementFrame` and `Catalog.IncrementExtends` |
| Catalog.IncrementExisting | main.py:146-150 | An existing record gains exactly one reference and nothing else about it changes; the table's length and next id stay the same |
| Catalog.IncrementNew | main.py:151-158 | An absent url gets exactly one record, appended after the unchanged existing rows: the next id, count 1, the placeholder description, editor `BOT` and all three timestamps equal to now |
| Catalog.IncrementFrame | main.py:146-158 | The insert-or-increment of one url leaves every other url's record as it was |
| Catalog.IncrementExtends | main.py:146-158 | The insert-or-increment removes no record, lowers no count, changes no id, url or reference timestamp, and keeps the table valid |
| Collection.Collect | main.py:140-159 | The table after folding a run's messages in order, one insert-or-increment per counted message; the `Collection.Collect*` lemmas state what a run guarantees |
| Collection.CollectKeepsValid | main.py:140-159 | A run keeps urls unique and ids increasing |
| Collection.CollectExtends | main.py:140-159 | A run removes no record, lowers no count and changes no id, url or reference timestamp |
| Collection.CollectCountsExisting | main.py:146-150 | A record that exists before a run ends with its count raised by the number of counted messages whose text is its url, and with nothing else changed |
| Collection.CollectCountsNew | main.py:151-158 | A url new to the table has a record after the run exactly when N > 0 counted messages are exactly that url. The record then has count N, the placeholder description, editor `BOT` and equal timestamps |
| Collection.BotMessageIgnored | main.py:141-142 | Appending a message written by the bot, whatever its text, to a run leaves the run's resulting table unchanged |
| Collection.BotMessagesIgnored | main.py:141-142 | A run made only of messages written by the bot leaves the table unchanged |
| Collection.AddThenCollect | main.py:89-90 | On the empty table, `https://x.io` added by hand has count 0, and count 1 after a run that sees one non-bot message whose text is exactly `https://x.io` |
| Collection.UnlinkedUrlNeverMentioned | main.py:145 | A url that is empty, starts with `!` or names neither `http://` nor `https://` is the text of no counted message, so its mention count is 0 |
| Collection.UnlinkedSiteNeverCounted | main.py:145-150 | For such a url, a run leaves its lookup exactly as it was, so a site added by hand as `a.com` keeps its count |
| Collection.SlashedSiteIsUnreachable | main.py:89-90 | A site added as `https://a.com/` is stored under that string. The stripped keys of `https://a.com/` and `https://a.com` find nothing; the stripped key of `https://a.com//` finds it |
| Rendering.NatToString | main.py:112 | The decimal text of a count or rank is non-empty and made only of digits |
| Rendering.NatToStringRoundTrip | main.py:112 | The digits read back as the number written |
| Rendering.NatToStringNoLeadingZero | main.py:112 | Only 0 is written with a leading `0` |
| Rendering.SortByCount | main.py:102 | An insertion sort by count yields a permutation of the table in non-increasing count order, so every table has a ranking (`Rendering.RankingExists`) |
| Rendering.RankingExists | main.py:102 | Every table has at least one order the query may return |
| Rendering.TiesAreOpen | main.py:102 | Two rows with equal counts may be ranked either way round, so the model fixes no tie order |
| Rendering.Line | main.py:112 | One listing line, `{rank}. {url} - Description: {description} - Referenced: {count} times` and a newline; `Rendering.LineOfRank` places it in the listing |
| Rendering.Lines | main.py:110-112 | The appended lines for a ranking, numbered from 1; `Rendering.LinesPrefix` and `Rendering.LineOfRank` state their layout |
| Rendering.InfoTextOfRecord | main.py:52-58 | The breakdown of a record's row shows its description, first and last referenced, last updated, editor and count, in that order, with a missing value shown as `None` |
| Rendering.InfoText | main.py:52-58 | The `site_info` breakdown, taking description, timestamps, editor and count from columns 2, 4, 5, 6, 3 and 7 of the row; `SiteBot.WebsiteStore.SiteInfo` states when it is sent |
| Rendering.LinesPrefix | main.py:110-112 | The lines for the top k records form the start of the full listing |
| Rendering.LineOfRank | main.py:111-112 | The record at rank k+1 has its line, numbered k+1, right after the lines of ranks 1 to k |
| Rendering.ListReplies | main.py:106-118 | An empty table gets exactly `No websites have been added yet!`, and only an empty table does. Otherwise the header and the lines of the ranking the query returned, numbered from 1, are sent as one message when they fit in 2000 characters. Longer text gets a notice, then its first 1990 characters plus `...`. Every message is at most 2000 characters |
| Export.ToEntry | main.py:166-175 | The entry built from a row's column positions; `Export.EntryRoundTrip` states that each position lands under its named field |
| Export.EntryRoundTrip | main.py:165-176 | Each column of the row becomes the field of the same name, `updated_by` from column 3, so the entry gives back the record |
| SiteBot.WebsiteStore.constructor | init_db.py:7-17 | A new store is empty, is valid, and gives id 1 to its first row |
| SiteBot.WebsiteStore.SiteInfo | main.py:37-60 | Looks up the stripped url. It returns the stored record and its breakdown, or the not-found reply naming the stripped url |
| SiteBot.WebsiteStore.UpdateDescription | main.py:63-79 | The new state is `Describe` of the old state at the stripped url. When nothing is found, the table is unchanged. The reply says which case happened |
| SiteBot.WebsiteStore.AddWebsite | main.py:81-96 | The new state is `Add` of the old state, or the table is unchanged on either refusal. Each outcome gets its own reply |
| SiteBot.WebsiteStore.ListWebsites | main.py:98-118 | Given any ranking the query may return (`Rendering.IsRanking`), the loop over it sends exactly `ListReplies` of the table and that ranking |
| SiteBot.WebsiteStore.Increment | main.py:146-158 | The new state is `Increment` of the old state, and the table stays valid |
| SiteBot.WebsiteStore.Export | main.py:161-176 | One entry per row, in insertion order. Each entry is the projection of its row and reads back as that record |
| SiteBot.WebsiteStore.CollectMessages | main.py:121-181 | A missing channel changes nothing and exports nothing. Otherwise the loop leaves the table equal to `Collect` over the messages, and exports one entry per row |

## Left out

- Discord plumbing is not modelled: bot setup, intents, the `help` embed, sending and the "Running Daily Website Reference Collection" announcement (main.py:9-31, main.py:129). A missing channel is modelled as a run that does nothing.
- Fetching the message history and computing the 24-hour window with `datetime.utcnow()` and `timedelta` are not modelled (main.py:132-135). The run receives the messages already filtered. `history()` is called without a `limit`, so discord.py returns at most 100 messages (main.py:134); the model takes whatever sequence that call returned and does not state the bound.
- The `tasks.loop(hours=24)` scheduling and its start in `on_ready` are left out (main.py:120, main.py:184-189), as are the `.secrets` parsing (main.py:191-199) and `init_db.py` run as a script. These are runtime and I/O concerns.
- SQLite connections, cursors and commits are replaced by the in-memory table. The UNIQUE constraint becomes the lookup that precedes the insert. Each fold step commits on its own in the bot; the model has no failures to roll back.
- Writing the JSON file (main.py:178-179) is not modelled; only the row-to-entry projection is.
- Timestamps are opaque strings. The two timestamp formats the bot writes (`strftime` text in the commands, `datetime` objects in the job) are not distinguished. Nor is the documented invariant that `first_referenced` is at most the other timestamps, because readings are never compared.
- SiteBot.WebsiteStore.AddWebsite: `add_website` reads the clock twice (main.py:90). The model uses one reading `now` for both reference timestamps, so it states first = last referenced, although the two real readings could straddle a second boundary.
- A non-bot message with empty text makes the bot raise at `content[0]` (main.py:145). The model requires such texts to be non-empty (`Collection.Readable`) instead of inventing a behaviour.
- `WHERE url = ?` in `update_description` updates every row with that url. The model updates the first one, which is the same thing in a table that satisfies the UNIQUE constraint.
- The platform's own way of splitting command arguments is not modelled. The url and description arrive as separate parameters, and a missing description arrives as `None`.
- Description and both reference timestamps are modelled as always present. The schema allows NULL in those columns (init_db.py:11-14), but no modelled operation writes NULL to them. The url is NOT NULL in the schema (init_db.py:10).
- SiteBot.WebsiteStore.Export: `SELECT * FROM websites` has no `ORDER BY` (main.py:161), so SQL does not fix the order of the entries. The model assumes the insertion (rowid) order that a plain scan of the table gives.
- Ids and counts are unbounded `nat`s. SQLite INTEGER is 64-bit, so `row[2] + 1` (main.py:149) would fail past 2^63-1; the model leaves out that limit.
