/** The text the bot sends back: `list_websites`' ranked listing and `site_info`'s breakdown. */
module Rendering {
  import opened Records
  import opened Schema

  // ---- decimal numbers, as Python's str() writes a non-negative int ----

  function DigitChar(d: nat): char
    requires d < 10
  {
    ('0' as int + d) as char
  }

  function NatToString(n: nat): (s: string)
    ensures |s| > 0
    ensures forall i :: 0 <= i < |s| ==> '0' <= s[i] <= '9'
    decreases n
  {
    if n < 10 then [DigitChar(n)] else NatToString(n / 10) + [DigitChar(n % 10)]
  }

  /** The number a string of decimal digits denotes. */
  function DigitsValue(s: string): int
    decreases |s|
  {
    if s == [] then 0 else DigitsValue(s[..|s| - 1]) * 10 + (s[|s| - 1] as int - '0' as int)
  }

  /** Reading back the digits NatToString writes gives the number. */
  lemma {:induction false} NatToStringRoundTrip(n: nat)
    ensures DigitsValue(NatToString(n)) == n
  {
    if n >= 10 {
      var s := NatToString(n);
      assert s[..|s| - 1] == NatToString(n / 10);
      NatToStringRoundTrip(n / 10);
    }
  }

  /** NatToString writes no leading zero. */
  lemma {:induction false} NatToStringNoLeadingZero(n: nat)
    ensures NatToString(n)[0] == '0' ==> n == 0
  {
    if n >= 10 {
      NatToStringNoLeadingZero(n / 10);
    }
  }

  // ---- ORDER BY reference_count DESC ----

  ghost predicate ByCountDescending(s: seq<Website>)
  {
    forall i, j :: 0 <= i < j < |s| ==> s[i].referenceCount >= s[j].referenceCount
  }

  /** Putting a record no less referenced than the head in front keeps the order. */
  lemma ConsByCount(x: Website, s: seq<Website>)
    requires ByCountDescending(s)
    requires |s| > 0 ==> x.referenceCount >= s[0].referenceCount
    ensures ByCountDescending([x] + s)
  {
    var r := [x] + s;
    forall i, j | 0 <= i < j < |r| ensures r[i].referenceCount >= r[j].referenceCount {
      if i == 0 {
        assert r[j] == s[j - 1];
      } else {
        assert r[i] == s[i - 1] && r[j] == s[j - 1];
      }
    }
  }

  function InsertByCount(w: Website, s: seq<Website>): (r: seq<Website>)
    requires ByCountDescending(s)
    ensures multiset(r) == multiset(s) + multiset{w}
    ensures ByCountDescending(r)
    ensures |r| > 0 && (r[0] == w || (|s| > 0 && r[0] == s[0]))
    decreases |s|
  {
    if s == [] || s[0].referenceCount <= w.referenceCount then
      ConsByCount(w, s);
      [w] + s
    else
      assert s == [s[0]] + s[1..];
      var rest := InsertByCount(w, s[1..]);
      ConsByCount(s[0], rest);
      [s[0]] + rest
  }

  /** `ranked` is an order `ORDER BY reference_count DESC` may return the rows of `rows` in:
      the same rows, most referenced first. The query fixes no order among rows with equal
      counts, so neither does this predicate. */
  ghost predicate IsRanking(rows: seq<Website>, ranked: seq<Website>)
  {
    multiset(ranked) == multiset(rows) && ByCountDescending(ranked)
  }

  /** Every table has a ranking: an insertion sort by count builds one. The listing does not
      use this particular order; it takes whichever ranking the query returns. */
  function SortByCount(rows: seq<Website>): (r: seq<Website>)
    ensures multiset(r) == multiset(rows)
    ensures ByCountDescending(r)
    decreases |rows|
  {
    if rows == [] then []
    else
      assert rows == [rows[0]] + rows[1..];
      InsertByCount(rows[0], SortByCount(rows[1..]))
  }

  lemma RankingExists(rows: seq<Website>)
    ensures IsRanking(rows, SortByCount(rows))
  {
  }

  /** Two rows with equal counts may be ranked either way round: the ranking does not decide
      ties. */
  lemma TiesAreOpen(a: Website, b: Website)
    requires a.referenceCount == b.referenceCount
    ensures IsRanking([a, b], [a, b]) && IsRanking([a, b], [b, a])
  {
    assert multiset([b, a]) == multiset([a, b]);
  }

  // ---- list_websites ----

  const EmptyListReply: string := "No websites have been added yet!"
  const ListHeader: string := "Websites and Rankings:\n"
  const TooLongNotice: string := "The list is too long! Displaying the top entries:"
  /** The longest message the chat platform accepts. */
  const MessageLimit: nat := 2000
  /** How much of an over-long listing is kept before the ellipsis. */
  const KeptPrefix: nat := 1990

  /** The listing line for the record ranked `rank` (counting from 1). */
  function Line(rank: nat, w: Website): string
  {
    NatToString(rank) + ". " + w.url + " - Description: " + w.description
      + " - Referenced: " + NatToString(w.referenceCount) + " times\n"
  }

  /** The lines for `ranked`, numbered 1, 2, ... in order. */
  function Lines(ranked: seq<Website>): string
    decreases |ranked|
  {
    if ranked == [] then ""
    else Lines(ranked[..|ranked| - 1]) + Line(|ranked|, ranked[|ranked| - 1])
  }

  /** Extending the ranked prefix by one record appends that record's line. */
  lemma LinesStep(ranked: seq<Website>, i: nat, head: string)
    requires i < |ranked|
    ensures head + Lines(ranked[..i + 1]) == head + Lines(ranked[..i]) + Line(i + 1, ranked[i])
  {
    assert ranked[..i + 1][..i] == ranked[..i];
  }

  /** The lines of the first k records start the lines of all of them. */
  lemma {:induction false} LinesPrefix(ranked: seq<Website>, k: nat)
    requires k <= |ranked|
    ensures Lines(ranked[..k]) <= Lines(ranked)
    decreases |ranked|
  {
    if k < |ranked| {
      var n := |ranked| - 1;
      assert ranked[..n][..k] == ranked[..k];
      LinesPrefix(ranked[..n], k);
    } else {
      assert ranked[..k] == ranked;
    }
  }

  /** The record ranked k+1 has its own line right after the lines of the k records
      above it. */
  lemma LineOfRank(ranked: seq<Website>, k: nat)
    requires k < |ranked|
    ensures Lines(ranked[..k]) + Line(k + 1, ranked[k]) <= Lines(ranked)
  {
    assert ranked[..k + 1][..k] == ranked[..k];
    LinesPrefix(ranked, k + 1);
  }

  /** The messages `list_websites` sends for a table holding `rows`, when the query returns
      them in the order `ranked`. */
  function ListReplies(rows: seq<Website>, ranked: seq<Website>): (replies: seq<string>)
    requires IsRanking(rows, ranked)
    ensures rows == [] ==> replies == [EmptyListReply]
    ensures rows != [] ==> replies != [EmptyListReply]
    ensures forall k :: 0 <= k < |replies| ==> |replies[k]| <= MessageLimit
    ensures rows != [] ==>
      var full := ListHeader + Lines(ranked);
      if |full| <= MessageLimit then replies == [full]
      else && |replies| == 2 && replies[0] == TooLongNotice
           && |replies[1]| == KeptPrefix + 3
           && replies[1][..KeptPrefix] == full[..KeptPrefix]
           && replies[1][KeptPrefix..] == "..."
  {
    assert |ranked| == |multiset(ranked)| == |multiset(rows)| == |rows|;
    if rows == [] then [EmptyListReply]
    else
      var response := ListHeader + Lines(ranked);
      assert response[0] == 'W' != EmptyListReply[0];
      if |response| > MessageLimit then
        var cut := response[..KeptPrefix] + "...";
        assert |cut| == KeptPrefix + 3;
        assert cut[..KeptPrefix] == response[..KeptPrefix] && cut[KeptPrefix..] == "...";
        [TooLongNotice, cut]
      else [response]
  }

  // ---- site_info ----

  /** How Python formats a column value inside an f-string. */
  function Show(v: Value): string
  {
    match v
    case Int(n) => NatToString(n)
    case Text(s) => s
    case Null => "None"
  }

  /** The breakdown `site_info` sends for the row stored under `key`. */
  function InfoText(key: string, row: seq<Value>): string
    requires |row| == 8
  {
    "Information for " + key + ":\n"
      + "- Description: " + Show(row[2]) + "\n"
      + "- First Referenced: " + Show(row[4]) + "\n"
      + "- Last Referenced: " + Show(row[5]) + "\n"
      + "- Last Updated: " + Show(row[6]) + "\n"
      + "- Updated By: " + Show(row[3]) + "\n"
      + "- Total References: " + Show(row[7]) + " times\n"
  }

  /** The breakdown of a record's row names each field of the record: the positions read by
      `InfoText` are description, first and last referenced, last updated, editor and count. */
  lemma InfoTextOfRecord(key: string, w: Website)
    ensures InfoText(key, Columns(w)) ==
              "Information for " + key + ":\n"
              + "- Description: " + w.description + "\n"
              + "- First Referenced: " + w.firstReferenced + "\n"
              + "- Last Referenced: " + w.lastReferenced + "\n"
              + "- Last Updated: " + Show(OptText(w.lastUpdated)) + "\n"
              + "- Updated By: " + Show(OptText(w.updatedBy)) + "\n"
              + "- Total References: " + NatToString(w.referenceCount) + " times\n"
  {
  }
}
