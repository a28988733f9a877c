/** The bot's command handlers and its daily collection job, over an in-memory `websites`
    table that they update in place. */
module SiteBot {
  import opened Records
  import opened Urls
  import opened Schema
  import opened Catalog
  import opened Collection
  import opened Rendering
  import opened Export

  class WebsiteStore {
    /** The rows of the table, in insertion order. */
    var rows: seq<Website>
    /** The id the next inserted row receives. */
    var nextId: nat

    ghost function State(): Table
      reads this
    {
      Table(rows, nextId)
    }

    ghost predicate Valid()
      reads this
    {
      Catalog.Valid(State())
    }

    /** A freshly created, empty table. */
    constructor ()
      ensures Valid() && State() == Empty()
    {
      rows := [];
      nextId := 1;
    }

    /** `site_info`: strip one trailing slash, look the key up, and describe the record or
        report that there is none. */
    method SiteInfo(url: string) returns (found: Option<Website>, reply: string)
      requires Valid()
      ensures found == Lookup(rows, StripTrailingSlash(url))
      ensures found.Some? ==> found.value in rows && found.value.url == StripTrailingSlash(url)
      ensures found.None? ==> reply == "No information found for URL: " + StripTrailingSlash(url)
      ensures found.Some? ==> reply == InfoText(StripTrailingSlash(url), Columns(found.value))
    {
      var key := StripTrailingSlash(url);
      match IndexOf(rows, key)
      case None =>
        found := None;
        reply := "No information found for URL: " + key;
      case Some(i) =>
        found := Some(rows[i]);
        reply := InfoText(key, Columns(rows[i]));
    }

    /** `update_description`: strip one trailing slash; if a record has that url, set its
        description, editor and last-updated time; otherwise change nothing. */
    method UpdateDescription(url: string, newDescription: string, author: string, now: Timestamp)
      returns (reply: string)
      requires Valid()
      modifies this
      ensures Valid()
      ensures var key := StripTrailingSlash(url);
              match Describe(old(State()), key, newDescription, author, now)
              case None =>
                && rows == old(rows) && nextId == old(nextId)
                && reply == "No record found for URL: " + key
              case Some(t) =>
                && State() == t
                && reply == "Description for " + key + " has been updated!"
    {
      var key := StripTrailingSlash(url);
      match IndexOf(rows, key)
      case None =>
        reply := "No record found for URL: " + key;
      case Some(i) =>
        rows := rows[i := rows[i].(description := newDescription, updatedBy := Some(author),
                                   lastUpdated := Some(now))];
        reply := "Description for " + key + " has been updated!";
    }

    /** `add_website`: refuse a missing description; otherwise insert the url exactly as
        given, unless a record for it already exists. A refusal changes nothing. */
    method AddWebsite(url: string, description: Option<string>, now: Timestamp) returns (reply: string)
      requires Valid()
      modifies this
      ensures Valid()
      ensures match Add(old(State()), url, description, now)
              case Failure(MissingDescription) =>
                && rows == old(rows) && nextId == old(nextId)
                && reply == "Failed to provide description, please add description to last command."
              case Failure(AlreadyAdded) =>
                && rows == old(rows) && nextId == old(nextId)
                && reply == "This website is already added!"
              case Success(t) =>
                && State() == t
                && reply == "Website added successfully!"
    {
      if description.None? {
        reply := "Failed to provide description, please add description to last command.";
        return;
      }
      if IndexOf(rows, url).Some? {
        reply := "This website is already added!";
        return;
      }
      rows := rows + [Manual(nextId, url, description.value, now)];
      nextId := nextId + 1;
      reply := "Website added successfully!";
    }

    /** `list_websites`: the ranked listing, cut to the platform's message size. `ranked` is
        what `ORDER BY reference_count DESC` returns: the table's rows in some order of
        non-increasing count, with ties in an order the database chooses. */
    method ListWebsites(ranked: seq<Website>) returns (replies: seq<string>)
      requires IsRanking(rows, ranked)
      ensures replies == ListReplies(rows, ranked)
    {
      if |ranked| == 0 {
        assert rows == [] by {
          assert |multiset(rows)| == |multiset(ranked)| == 0;
        }
        replies := [EmptyListReply];
        return;
      }
      var response := ListHeader;
      var i := 0;
      while i < |ranked|
        invariant 0 <= i <= |ranked|
        invariant response == ListHeader + Lines(ranked[..i])
      {
        var line := Line(i + 1, ranked[i]);
        LinesStep(ranked, i, ListHeader);
        response := response + line;
        i := i + 1;
      }
      assert ranked[..i] == ranked;
      assert rows != [];
      if |response| > MessageLimit {
        replies := [TooLongNotice, response[..KeptPrefix] + "..."];
      } else {
        replies := [response];
      }
    }

    /** The insert-or-increment the collection job runs for one eligible message. */
    method Increment(url: string, now: Timestamp)
      requires Valid()
      modifies this
      ensures Valid()
      ensures State() == Catalog.Increment(old(State()), url, now)
    {
      IncrementExtends(State(), url, now);
      match IndexOf(rows, url)
      case Some(i) =>
        rows := rows[i := rows[i].(referenceCount := rows[i].referenceCount + 1)];
      case None =>
        rows := rows + [Scraped(nextId, url, now)];
        nextId := nextId + 1;
    }

    /** The snapshot of the whole table: one entry per row, in insertion order. */
    method Export() returns (data: seq<Entry>)
      ensures |data| == |rows|
      ensures forall k :: 0 <= k < |rows| ==> data[k] == ToEntry(Columns(rows[k]))
      ensures forall k :: 0 <= k < |rows| ==> FromEntry(data[k]) == Some(rows[k])
    {
      data := [];
      var i := 0;
      while i < |rows|
        invariant 0 <= i <= |rows|
        invariant |data| == i
        invariant forall k :: 0 <= k < i ==> data[k] == ToEntry(Columns(rows[k]))
      {
        data := data + [ToEntry(Columns(rows[i]))];
        i := i + 1;
      }
      forall k | 0 <= k < |rows| ensures FromEntry(data[k]) == Some(rows[k]) {
        EntryRoundTrip(rows[k]);
      }
    }

    /** One run of the daily job over the last day's `messages`, in order. When the channel
        cannot be found the run does nothing. Otherwise every message not written by the bot
        whose text is eligible is folded into the table, and the whole table is exported. */
    method CollectMessages(channelFound: bool, messages: seq<Message>, bot: string, clock: seq<Timestamp>)
      returns (snapshot: Option<seq<Entry>>)
      requires Valid()
      requires |clock| == |messages| && Readable(messages, bot)
      modifies this
      ensures Valid()
      ensures !channelFound ==> snapshot.None? && rows == old(rows) && nextId == old(nextId)
      ensures channelFound ==> State() == Collect(old(State()), messages, bot, clock)
      ensures channelFound ==>
        && snapshot.Some? && |snapshot.value| == |rows|
        && forall k :: 0 <= k < |rows| ==> snapshot.value[k] == ToEntry(Columns(rows[k]))
    {
      if !channelFound {
        return None;
      }
      var i := 0;
      while i < |messages|
        invariant 0 <= i <= |messages|
        invariant Valid()
        invariant Readable(messages[..i], bot)
        invariant State() == Collect(old(State()), messages[..i], bot, clock[..i])
      {
        assert messages[..i + 1][..i] == messages[..i];
        assert clock[..i + 1][..i] == clock[..i];
        var message := messages[i];
        if message.author != bot {
          if IsEligible(message.content) {
            Increment(message.content, clock[i]);
          }
        }
        i := i + 1;
      }
      assert messages[..i] == messages && clock[..i] == clock;
      var data := Export();
      snapshot := Some(data);
    }
  }
}
