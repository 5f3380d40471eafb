/**
 The feed generator: selects the bounties to show, turns each into an entry and
 picks the serialisation format. Serialisation itself (the XML or JSON text)
 and the feed's fixed envelope metadata are not modelled; a `Feed` records the
 format and the entries handed to the serialiser.
 */
module Feeds {
  import opened Bounties
  import opened Selection
  import opened Entries
  import opened Strings
  import opened Seqs

  /** The three output kinds of the feed library. */
  datatype Format = Rss2 | Atom1 | JsonFeed1

  datatype Feed = Feed(format: Format, items: seq<Entry>)

  /** `'atom'` gives Atom, `'json'` gives JSON Feed, anything else RSS 2.0. */
  function FormatOf(format: string): (r: Format)
    ensures r == Atom1 <==> format == "atom"
    ensures r == JsonFeed1 <==> format == "json"
    ensures r == Rss2 <==> format != "atom" && format != "json"
  {
    if format == "atom" then Atom1
    else if format == "json" then JsonFeed1
    else Rss2
  }

  /** The format name the request handler passes for each feed endpoint. */
  function FormatName(f: Format): string
  {
    match f
    case Rss2 => "rss"
    case Atom1 => "atom"
    case JsonFeed1 => "json"
  }

  /** Every format is reached from its own name; "rss" reaches RSS 2.0 by the fallback. */
  lemma FormatRoundTrip(f: Format)
    ensures FormatOf(FormatName(f)) == f
  {
  }

  /**
   The body of the generator's loop for one bounty: the content string and
   the item handed to the feed library.
   */
  method BuildEntry(bounty: Bounty) returns (entry: Entry)
    ensures entry == MakeEntry(bounty)
  {
    var content := BuildContent(bounty);
    entry := Entry(
      "[" + bounty.rewardFormatted + "] " + bounty.title,
      "bounty-" + bounty.id,
      "https://bounty.owockibot.xyz/bounty/" + bounty.id,
      DescriptionOr(bounty, "No description"),
      content,
      bounty.createdAt,
      Categories(bounty));
  }

  /** The generator's loop: one entry per selected bounty, in order. */
  method BuildEntries(shown: seq<Bounty>) returns (items: seq<Entry>)
    ensures items == Map(shown, MakeEntry)
  {
    items := [];
    for i := 0 to |shown|
      invariant items == Map(shown[..i], MakeEntry)
    {
      var entry := BuildEntry(shown[i]);
      MapPrefix(shown, MakeEntry, i);
      items := items + [entry];
    }
    assert shown[..|shown|] == shown;
  }

  /**
   generateFeed without the fetch: select the bounties to show (open, tag
   filter, newest first, first fifty), then add one entry for each.
   */
  method GenerateFeed(bounties: seq<Bounty>, format: string, tagFilter: Option<string>) returns (feed: Feed)
    ensures feed.format == FormatOf(format)
    ensures |feed.items| == |Select(bounties, tagFilter)| <= MaxItems
    ensures forall i :: 0 <= i < |feed.items| ==> feed.items[i] == MakeEntry(Select(bounties, tagFilter)[i])
  {
    var shown := Select(bounties, tagFilter);
    var items := BuildEntries(shown);
    feed := Feed(FormatOf(format), items);
  }

  /* ---------- worked examples ---------- */

  function ExampleOpen(): Bounty {
    Bounty("1", "A", "open", "10 USDC", 100, None, Some(["coding"]), None, None)
  }

  function ExampleClosed(): Bounty {
    Bounty("2", "B", "closed", "20 USDC", 200, None, None, None, None)
  }

  /** The open example bounty's entry is titled "[10 USDC] A" and identified "bounty-1". */
  lemma ExampleEntry()
    ensures EntryTitle(ExampleOpen()) == "[10 USDC] A"
    ensures EntryId(ExampleOpen()) == "bounty-1"
  {
  }

  /** Without a filter, only the open bounty is shown. */
  lemma ExampleNoFilter()
    ensures Select([ExampleOpen(), ExampleClosed()], None) == [ExampleOpen()]
  {
    var bs := [ExampleOpen(), ExampleClosed()];
    assert bs[1..] == [ExampleClosed()];
    assert bs[1..][1..] == [];
    assert KeepOpen(bs) == [ExampleOpen()];
    assert SortNewestFirst([ExampleOpen()]) == [ExampleOpen()];
  }

  /** With the filter "writing" nothing is shown: the open bounty is tagged "coding". */
  lemma ExampleTagMiss()
    ensures Select([ExampleOpen(), ExampleClosed()], Some("writing")) == []
  {
    var bs := [ExampleOpen(), ExampleClosed()];
    assert bs[1..] == [ExampleClosed()];
    assert bs[1..][1..] == [];
    assert KeepOpen(bs) == [ExampleOpen()];
    var tokens := Tokens("writing");
    assert Lower("writing") == "writing";
    SplitPiece("writing", ',');
    assert tokens == ["writing"];
    assert Lower("coding") == "coding";
    assert !AnyTagListed(["coding"], tokens);
    assert ApplyTagFilter([ExampleOpen()], Some("writing")) == [];
  }
}
