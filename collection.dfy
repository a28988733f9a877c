/** The body of the daily collection job: which messages count as website references, and the
    insert-or-increment fold of those messages into the catalog. */
module Collection {
  import opened Records
  import opened Urls
  import opened Catalog

  /** A chat message from the last day's history: who wrote it and its full text. */
  datatype Message = Message(author: string, content: string)

  /** A message's text counts as a link when it does not start with the command prefix '!'
      and mentions one of the two URL schemes anywhere. */
  predicate IsEligible(content: string)
    requires |content| > 0
  {
    content[0] != '!' && (Contains(content, "http://") || Contains(content, "https://"))
  }

  /** Eligibility in terms of where the scheme occurs: anywhere in the text, not only at the
      start. */
  lemma EligibleMeans(content: string)
    requires |content| > 0
    ensures IsEligible(content) <==>
              content[0] != '!'
              && ((exists i :: OccursAt(content, "http://", i))
                  || (exists i :: OccursAt(content, "https://", i)))
  {
  }

  /** The job skips the bot's own messages before it looks at the text. */
  predicate Counted(m: Message, bot: string)
    requires m.author != bot ==> |m.content| > 0
  {
    m.author != bot && IsEligible(m.content)
  }

  /** Every message the job reads the first character of has one (`content[0]` raises on an
      empty text). */
  ghost predicate Readable(msgs: seq<Message>, bot: string)
  {
    forall i :: 0 <= i < |msgs| && msgs[i].author != bot ==> |msgs[i].content| > 0
  }

  /** The table after folding `msgs` in order; `clock[i]` is the time read while message i is
      handled. */
  function Collect(t: Table, msgs: seq<Message>, bot: string, clock: seq<Timestamp>): Table
    requires |clock| == |msgs| && Readable(msgs, bot)
    decreases |msgs|
  {
    if msgs == [] then t
    else
      var n := |msgs| - 1;
      var before := Collect(t, msgs[..n], bot, clock[..n]);
      if Counted(msgs[n], bot) then Increment(before, msgs[n].content, clock[n]) else before
  }

  /** How many messages of `msgs` the job counts as a reference to exactly `url`. */
  function Mentions(msgs: seq<Message>, bot: string, url: string): nat
    requires Readable(msgs, bot)
    decreases |msgs|
  {
    if msgs == [] then 0
    else
      var n := |msgs| - 1;
      Mentions(msgs[..n], bot, url) + (if Counted(msgs[n], bot) && msgs[n].content == url then 1 else 0)
  }

  lemma ReadablePrefix(msgs: seq<Message>, bot: string, n: nat)
    requires Readable(msgs, bot) && n <= |msgs|
    ensures Readable(msgs[..n], bot)
  {
  }

  /** A run keeps the table valid. */
  lemma {:induction false} CollectKeepsValid(t: Table, msgs: seq<Message>, bot: string, clock: seq<Timestamp>)
    requires |clock| == |msgs| && Readable(msgs, bot) && Valid(t)
    ensures Valid(Collect(t, msgs, bot, clock))
  {
    if msgs != [] {
      var n := |msgs| - 1;
      ReadablePrefix(msgs, bot, n);
      CollectKeepsValid(t, msgs[..n], bot, clock[..n]);
      if Counted(msgs[n], bot) {
        IncrementExtends(Collect(t, msgs[..n], bot, clock[..n]), msgs[n].content, clock[n]);
      }
    }
  }

  /** A run removes no record, lowers no count and changes no record's identity or
      reference timestamps. */
  lemma {:induction false} CollectExtends(t: Table, msgs: seq<Message>, bot: string, clock: seq<Timestamp>)
    requires |clock| == |msgs| && Readable(msgs, bot)
    ensures Extends(t.rows, Collect(t, msgs, bot, clock).rows)
  {
    if msgs != [] {
      var n := |msgs| - 1;
      ReadablePrefix(msgs, bot, n);
      CollectExtends(t, msgs[..n], bot, clock[..n]);
      var before := Collect(t, msgs[..n], bot, clock[..n]);
      if Counted(msgs[n], bot) {
        IncrementExtends(before, msgs[n].content, clock[n]);
        ExtendsTransitive(t.rows, before.rows, Increment(before, msgs[n].content, clock[n]).rows);
      }
    }
  }

  /** A record that exists before a run gains exactly one reference per counted message
      whose whole text is its url, and nothing else about it changes. */
  lemma {:induction false} CollectCountsExisting(t: Table, msgs: seq<Message>, bot: string, clock: seq<Timestamp>, url: string)
    requires |clock| == |msgs| && Readable(msgs, bot)
    requires Lookup(t.rows, url).Some?
    ensures var w := Lookup(t.rows, url).value;
            Lookup(Collect(t, msgs, bot, clock).rows, url) ==
              Some(w.(referenceCount := w.referenceCount + Mentions(msgs, bot, url)))
  {
    if msgs != [] {
      var n := |msgs| - 1;
      ReadablePrefix(msgs, bot, n);
      CollectCountsExisting(t, msgs[..n], bot, clock[..n], url);
      var before := Collect(t, msgs[..n], bot, clock[..n]);
      var w := Lookup(t.rows, url).value;
      var k := Mentions(msgs[..n], bot, url);
      assert Lookup(before.rows, url) == Some(w.(referenceCount := w.referenceCount + k));
      if Counted(msgs[n], bot) {
        assert Collect(t, msgs, bot, clock) == Increment(before, msgs[n].content, clock[n]);
        if msgs[n].content == url {
          IncrementExisting(before, url, clock[n]);
        } else {
          IncrementFrame(before, msgs[n].content, clock[n], url);
        }
      } else {
        assert Collect(t, msgs, bot, clock) == before;
        assert Mentions(msgs, bot, url) == k;
      }
    }
  }

  /** A url without a record before a run has one afterwards exactly when some counted
      message's whole text is that url; the record is a scraped one (placeholder description,
      the bot as editor, all three timestamps equal) whose count is the number of those
      messages. */
  lemma {:induction false} CollectCountsNew(t: Table, msgs: seq<Message>, bot: string, clock: seq<Timestamp>, url: string)
    requires |clock| == |msgs| && Readable(msgs, bot)
    requires Lookup(t.rows, url).None?
    ensures var after := Lookup(Collect(t, msgs, bot, clock).rows, url);
            && (after.Some? <==> Mentions(msgs, bot, url) > 0)
            && (after.Some? ==>
                  && after.value.url == url
                  && after.value.referenceCount == Mentions(msgs, bot, url)
                  && after.value.description == ScrapedDescription
                  && after.value.updatedBy == Some(BotEditor)
                  && after.value.firstReferenced == after.value.lastReferenced
                  && after.value.lastUpdated == Some(after.value.firstReferenced))
  {
    if msgs != [] {
      var n := |msgs| - 1;
      ReadablePrefix(msgs, bot, n);
      CollectCountsNew(t, msgs[..n], bot, clock[..n], url);
      var before := Collect(t, msgs[..n], bot, clock[..n]);
      if Counted(msgs[n], bot) {
        if msgs[n].content == url {
          if Lookup(before.rows, url).Some? {
            IncrementExisting(before, url, clock[n]);
          } else {
            IncrementNew(before, url, clock[n]);
          }
        } else {
          IncrementFrame(before, msgs[n].content, clock[n], url);
        }
      }
    }
  }

  /** A url the eligibility test rejects (empty, starting with '!', or naming neither scheme)
      is never the text of a counted message. */
  lemma {:induction false} UnlinkedUrlNeverMentioned(msgs: seq<Message>, bot: string, url: string)
    requires Readable(msgs, bot)
    requires |url| == 0 || !IsEligible(url)
    ensures Mentions(msgs, bot, url) == 0
  {
    if msgs != [] {
      var n := |msgs| - 1;
      ReadablePrefix(msgs, bot, n);
      UnlinkedUrlNeverMentioned(msgs[..n], bot, url);
    }
  }

  /** A site stored under a url the eligibility test rejects (such as `a.com`, added by hand
      without a scheme) is left exactly as it was by every run: its count never grows. */
  lemma UnlinkedSiteNeverCounted(t: Table, msgs: seq<Message>, bot: string, clock: seq<Timestamp>, url: string)
    requires |clock| == |msgs| && Readable(msgs, bot)
    requires |url| == 0 || !IsEligible(url)
    ensures Lookup(Collect(t, msgs, bot, clock).rows, url) == Lookup(t.rows, url)
  {
    UnlinkedUrlNeverMentioned(msgs, bot, url);
    if Lookup(t.rows, url).Some? {
      CollectCountsExisting(t, msgs, bot, clock, url);
    } else {
      CollectCountsNew(t, msgs, bot, clock, url);
    }
  }

  /** A message the bot wrote, whatever its text, leaves the table as it was. */
  lemma BotMessageIgnored(t: Table, msgs: seq<Message>, bot: string, clock: seq<Timestamp>, m: Message, c: Timestamp)
    requires |clock| == |msgs| && Readable(msgs, bot)
    requires m.author == bot
    ensures Readable(msgs + [m], bot)
    ensures Collect(t, msgs + [m], bot, clock + [c]) == Collect(t, msgs, bot, clock)
  {
    assert (msgs + [m])[..|msgs|] == msgs;
    assert (clock + [c])[..|clock|] == clock;
  }

  /** A run made only of messages the bot wrote leaves the table as it was. */
  lemma {:induction false} BotMessagesIgnored(t: Table, msgs: seq<Message>, bot: string, clock: seq<Timestamp>)
    requires |clock| == |msgs| && Readable(msgs, bot)
    requires forall i :: 0 <= i < |msgs| ==> msgs[i].author == bot
    ensures Collect(t, msgs, bot, clock) == t
  {
    if msgs != [] {
      var n := |msgs| - 1;
      ReadablePrefix(msgs, bot, n);
      BotMessagesIgnored(t, msgs[..n], bot, clock[..n]);
    }
  }

  /** A command message is not a reference, even when it carries a link. */
  lemma CommandIsNotALink()
    ensures !IsEligible("!add_website https://x.io")
  {
  }

  /** A bare link is a reference. */
  lemma BareLinkIsALink()
    ensures IsEligible("https://x.io")
  {
    assert "https://x.io"[..|"https://"|] == "https://";
  }

  /** A manually added site is referenced once by a run that sees one message whose text is
      exactly its url, written by someone other than the bot. */
  lemma AddThenCollect(author: string, bot: string, added: Timestamp, seen: Timestamp)
    requires author != bot
    ensures Add(Empty(), "https://x.io", Some("a site"), added).Success?
    ensures var t := Add(Empty(), "https://x.io", Some("a site"), added).value;
            var after := Collect(t, [Message(author, "https://x.io")], bot, [seen]);
            && Lookup(t.rows, "https://x.io").value.referenceCount == 0
            && Lookup(after.rows, "https://x.io").Some?
            && Lookup(after.rows, "https://x.io").value.referenceCount == 1
  {
    var t := Add(Empty(), "https://x.io", Some("a site"), added).value;
    var msgs := [Message(author, "https://x.io")];
    BareLinkIsALink();
    assert msgs[..0] == [];
    assert Mentions(msgs, bot, "https://x.io") == 1;
    CollectCountsExisting(t, msgs, bot, [seen], "https://x.io");
  }

  /** The catalog is meant to key every site by its normalised url, but `add_website` stores
      the url as it is typed while `site_info` and `update_description` strip one slash before looking it up.
      A site added as `https://a.com/` is then found neither by the url it was added with nor
      by `https://a.com`; only `https://a.com//`, one slash more, reaches it. */
  lemma SlashedSiteIsUnreachable(now: Timestamp)
    ensures Add(Empty(), "https://a.com/", Some("d"), now).Success?
    ensures var t := Add(Empty(), "https://a.com/", Some("d"), now).value;
            && Lookup(t.rows, "https://a.com/").Some?
            && Lookup(t.rows, StripTrailingSlash("https://a.com/")).None?
            && Lookup(t.rows, StripTrailingSlash("https://a.com")).None?
            && Lookup(t.rows, StripTrailingSlash("https://a.com//")) == Lookup(t.rows, "https://a.com/")
  {
    var t := Add(Empty(), "https://a.com/", Some("d"), now).value;
    assert StripTrailingSlash("https://a.com/") == "https://a.com";
    assert StripTrailingSlash("https://a.com//") == "https://a.com/";
    assert t.rows[0].url != "https://a.com";
  }
}
