/** The shape of one row of the `websites` table and the small wrappers shared by every module. */
module Records {

  /** A clock reading. The bot stores readings as text; the model never interprets them. */
  type Timestamp = string

  datatype Option<T> = None | Some(value: T)

  datatype Result<T, E> = Success(value: T) | Failure(error: E)

  /** One record of the catalog: the columns of the `websites` table, by name.
      `updatedBy` and `lastUpdated` stay NULL until someone edits the description
      or the collection job creates the record. */
  datatype Website = Website(
    id: nat,
    url: string,
    description: string,
    updatedBy: Option<string>,
    firstReferenced: Timestamp,
    lastReferenced: Timestamp,
    lastUpdated: Option<Timestamp>,
    referenceCount: nat)

  /** The description the collection job gives to a URL it discovers. */
  const ScrapedDescription: string := "Scraped from channel - description unknown"

  /** The `updated_by` sentinel the collection job writes. */
  const BotEditor: string := "BOT"

  /** The record the `add_website` command inserts. */
  function Manual(id: nat, url: string, description: string, now: Timestamp): Website
  {
    Website(id, url, description, None, now, now, None, 0)
  }

  /** The record the collection job inserts for a URL it has not seen before. */
  function Scraped(id: nat, url: string, now: Timestamp): Website
  {
    Website(id, url, ScrapedDescription, Some(BotEditor), now, now, Some(now), 1)
  }
}
