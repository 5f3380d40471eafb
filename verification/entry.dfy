/**
 How one bounty becomes one feed entry: its title, identifier, link, summary,
 categories and HTML content. The content is described twice: as an outline
 of blocks (what the entry body shows, in order) and as the string the
 generator concatenates; `BuildContent` proves the two agree.
 */
module Entries {
  import opened Bounties
  import opened Strings

  const BountyPage := "https://bounty.owockibot.xyz/bounty/"
  const SummaryFallback := "No description"
  const ContentFallback := "No description available."
  const NoTags := "None"

  datatype Category = Category(name: string)

  datatype Entry = Entry(
    title: string,
    id: string,
    link: string,
    summary: string,
    content: string,
    published: int,
    categories: seq<Category>)

  /* ---------- identifying fields ---------- */

  function EntryTitle(b: Bounty): string {
    "[" + b.rewardFormatted + "] " + b.title
  }

  function EntryId(b: Bounty): string {
    "bounty-" + b.id
  }

  function BountyUrl(id: string): string {
    BountyPage + id
  }

  /**
   Recovers reward and title from an entry title: the reward runs up to the
   first ']', which must be followed by a space.
   */
  function ParseTitle(t: string): Option<(string, string)>
  {
    if |t| == 0 || t[0] != '[' then None
    else
      var pieces := Split(t[1..], ']');
      if |pieces| < 2 then None
      else
        var rest := Join(pieces[1..], "]");
        if |rest| == 0 || rest[0] != ' ' then None
        else Some((pieces[0], rest[1..]))
  }

  /** An entry title gives back its reward and title when the reward holds no ']'. */
  lemma TitleRoundTrip(b: Bounty)
    requires ']' !in b.rewardFormatted
    ensures ParseTitle(EntryTitle(b)) == Some((b.rewardFormatted, b.title))
  {
    var t := EntryTitle(b);
    var after := " " + b.title;
    assert t[1..] == b.rewardFormatted + "]" + after;
    SplitAfterPiece(b.rewardFormatted, ']', after);
    var pieces := Split(t[1..], ']');
    assert pieces[1..] == Split(after, ']');
    SplitJoin(after, ']');
  }

  /** Without that condition the title is ambiguous: two bounties share one. */
  lemma TitleAmbiguous(b1: Bounty, b2: Bounty)
    requires b1.rewardFormatted == "x] y" && b1.title == "z"
    requires b2.rewardFormatted == "x" && b2.title == "y] z"
    ensures EntryTitle(b1) == EntryTitle(b2)
  {
  }

  /** Distinct bounty identifiers give distinct entry identifiers and links. */
  lemma EntryIdInjective(a: Bounty, b: Bounty)
    ensures EntryId(a) == EntryId(b) <==> a.id == b.id
    ensures BountyUrl(a.id) == BountyUrl(b.id) <==> a.id == b.id
  {
    if EntryId(a) == EntryId(b) {
      assert a.id == EntryId(a)[7..];
      assert b.id == EntryId(b)[7..];
    }
    if BountyUrl(a.id) == BountyUrl(b.id) {
      assert a.id == BountyUrl(a.id)[|BountyPage|..];
      assert b.id == BountyUrl(b.id)[|BountyPage|..];
    }
  }

  /** `tags.map(t => ({ name: t }))`: one category per tag, case and order kept. */
  function Categories(b: Bounty): (r: seq<Category>)
    ensures |r| == |TagsOf(b)|
    ensures forall i :: 0 <= i < |r| ==> r[i].name == TagsOf(b)[i]
    ensures b.tags.None? ==> r == []
  {
    seq(|TagsOf(b)|, i requires 0 <= i < |TagsOf(b)| => Category(TagsOf(b)[i]))
  }

  /** `bounty.description || fallback`: an empty description falls back too. */
  function DescriptionOr(b: Bounty, fallback: string): string
  {
    match b.description
    case Some(d) => if d != "" then d else fallback
    case None => fallback
  }

  /**
   The summary and the content fall back to different placeholders when the
   description is missing or empty, and both show it otherwise.
   */
  lemma DescriptionFallbacks(b: Bounty)
    ensures b.description.Some? && b.description.value != "" ==>
              DescriptionOr(b, SummaryFallback) == b.description.value
              && DescriptionOr(b, ContentFallback) == b.description.value
    ensures b.description.None? || b.description == Some("") ==>
              DescriptionOr(b, SummaryFallback) == "No description"
              && DescriptionOr(b, ContentFallback) == "No description available."
  {
  }

  /** `tags.join(', ') || 'None'`. */
  function TagsLine(tags: seq<string>): string
  {
    var joined := Join(tags, ", ");
    if joined != "" then joined else NoTags
  }

  /**
   The tags line reads "None" exactly when there are no tags, the only tag is
   empty, or the only tag is itself "None".
   */
  lemma TagsLineNone(tags: seq<string>)
    ensures TagsLine(tags) == "None" <==> |tags| == 0 || tags == [""] || tags == ["None"]
  {
    JoinIsEmpty(tags, ", ");
    if |tags| >= 2 {
      assert |Join(tags, ", ")| >= |tags[0]| + 2;
      if |tags[0]| <= 2 {
        assert Join(tags, ", ")[|tags[0]|] == ',';
      } else {
        assert |Join(tags, ", ")| >= 5;
      }
    }
  }

  /* ---------- content outline ---------- */

  /** The kinds of block the HTML content of an entry is made of. */
  datatype Block =
    | Heading(text: string)
    | Field(caption: string, value: string)
    | Rule
    | Paragraph(text: string)
    | RequirementList(items: seq<string>)
    | BountyLink(url: string)

  /** The deadline string the content shows; empty when there is none. */
  function DeadlineText(b: Bounty): string
  {
    match b.deadline
    case Some(d) => d
    case None => ""
  }

  /** The deadline line, present only for a non-empty deadline (`if (deadlineStr)`). */
  function DeadlineBlocks(b: Bounty): seq<Block>
  {
    if DeadlineText(b) != "" then [Field("Deadline", DeadlineText(b))] else []
  }

  /** The requirements list, present only when there is at least one requirement. */
  function RequirementBlocks(b: Bounty): seq<Block>
  {
    if b.requirements.Some? && |b.requirements.value| > 0 then [RequirementList(b.requirements.value)] else []
  }

  /** The heading and the reward, status and deadline lines. */
  function FactBlocks(b: Bounty): seq<Block>
  {
    [Heading(b.title)]
    + [Field("Reward", b.rewardFormatted)]
    + [Field("Status", b.status)]
    + DeadlineBlocks(b)
  }

  /** The blocks every entry body opens with, up to the description. */
  function LeadBlocks(b: Bounty): seq<Block>
  {
    FactBlocks(b)
    + [Field("Tags", TagsLine(TagsOf(b)))]
    + [Rule]
    + [Paragraph(DescriptionOr(b, ContentFallback))]
  }

  /** The blocks of an entry's content, in the order the generator emits them. */
  function Outline(b: Bounty): seq<Block>
  {
    LeadBlocks(b) + RequirementBlocks(b) + [BountyLink(BountyUrl(b.id))]
  }

  /** A deadline line appears exactly when the bounty has a (non-empty) deadline. */
  lemma OutlineDeadline(b: Bounty)
    ensures forall v :: Field("Deadline", v) in Outline(b) <==> b.deadline == Some(v) && v != ""
  {
  }

  /**
   A requirements list appears exactly when the bounty has at least one
   requirement, and it lists those requirements in order.
   */
  lemma OutlineRequirements(b: Bounty)
    ensures forall items :: RequirementList(items) in Outline(b) <==>
              b.requirements == Some(items) && |items| > 0
  {
  }

  /** Every entry body shows exactly one tags line and one description paragraph. */
  lemma OutlineTagsAndDescription(b: Bounty)
    ensures forall v :: Field("Tags", v) in Outline(b) <==> v == TagsLine(TagsOf(b))
    ensures forall v :: Paragraph(v) in Outline(b) <==> v == DescriptionOr(b, ContentFallback)
  {
  }

  /* ---------- rendering ---------- */

  /** One requirement as a list item. */
  function ListItem(item: string): string {
    "<li>" + item + "</li>"
  }

  /** `'<li>' + req + '</li>'` for each requirement, in order. */
  function ListItems(items: seq<string>): string
  {
    if |items| == 0 then ""
    else ListItem(items[0]) + ListItems(items[1..])
  }

  function FieldOpen(caption: string): string {
    "<p><strong>" + caption + ":</strong> "
  }

  const LinkOpen := "<p><a href=\""
  const LinkClose := "\">View Bounty</a></p>"

  function RenderBlock(block: Block): string
  {
    match block
    case Heading(t) => "<h2>" + t + "</h2>"
    case Field(caption, v) => FieldOpen(caption) + v + "</p>"
    case Rule => "<hr>"
    case Paragraph(t) => "<p>" + t + "</p>"
    case RequirementList(items) => "<h3>Requirements:</h3><ul>" + ListItems(items) + "</ul>"
    case BountyLink(url) => LinkOpen + url + LinkClose
  }

  /** The content string of a block sequence, rendered front to back. */
  function Render(blocks: seq<Block>): string
    decreases |blocks|
  {
    if |blocks| == 0 then ""
    else Render(blocks[..|blocks| - 1]) + RenderBlock(blocks[|blocks| - 1])
  }

  lemma RenderSnoc(blocks: seq<Block>, block: Block)
    ensures Render(blocks + [block]) == Render(blocks) + RenderBlock(block)
  {
    assert (blocks + [block])[..|blocks|] == blocks;
  }

  /** The openers the generator writes as single literals. */
  lemma OpenerLiterals()
    ensures FieldOpen("Reward") == "<p><strong>Reward:</strong> "
    ensures FieldOpen("Status") == "<p><strong>Status:</strong> "
    ensures FieldOpen("Deadline") == "<p><strong>Deadline:</strong> "
    ensures FieldOpen("Tags") == "<p><strong>Tags:</strong> "
  {
  }

  lemma LinkLiteral(id: string)
    ensures RenderBlock(BountyLink(BountyUrl(id)))
         == "<p><a href=\"https://bounty.owockibot.xyz/bounty/" + id + "\">View Bounty</a></p>"
  {
    assert LinkOpen + BountyPage == "<p><a href=\"https://bounty.owockibot.xyz/bounty/";
    Assoc(LinkOpen, BountyPage, id);
  }

  lemma {:induction false} ListItemsSnoc(items: seq<string>, item: string)
    ensures ListItems(items + [item]) == ListItems(items) + ListItem(item)
    decreases |items|
  {
    if |items| == 0 {
      assert items + [item] == [item];
    } else {
      ListItemsSnoc(items[1..], item);
      assert (items + [item])[1..] == items[1..] + [item];
      Assoc(ListItem(items[0]), ListItems(items[1..]), ListItem(item));
    }
  }

  /**
   The list body has one `<li>` element per requirement, in order: the items
   joined by "</li><li>" and wrapped in one more pair of tags.
   */
  lemma {:induction false} ListItemsAsJoin(items: seq<string>)
    requires |items| > 0
    ensures ListItems(items) == "<li>" + Join(items, "</li><li>") + "</li>"
    decreases |items|
  {
    if |items| > 1 {
      ListItemsAsJoin(items[1..]);
    }
  }

  lemma Assoc(a: string, b: string, c: string)
    ensures a + b + c == a + (b + c)
  {
  }

  /**
   `content += '<h3>Requirements:</h3><ul>'`, one `<li>` per requirement in a
   loop, then `content += '</ul>'`.
   */
  method AppendRequirements(content: string, reqs: seq<string>) returns (r: string)
    ensures r == content + RenderBlock(RequirementList(reqs))
  {
    var prefix := content + "<h3>Requirements:</h3><ul>";
    r := prefix;
    for i := 0 to |reqs|
      invariant r == prefix + ListItems(reqs[..i])
    {
      ListItemsSnoc(reqs[..i], reqs[i]);
      assert reqs[..i + 1] == reqs[..i] + [reqs[i]];
      Assoc(prefix, ListItems(reqs[..i]), ListItem(reqs[i]));
      r := r + ("<li>" + reqs[i] + "</li>");
    }
    assert reqs[..|reqs|] == reqs;
    Assoc(prefix, ListItems(reqs), "</ul>");
    Assoc(content, "<h3>Requirements:</h3><ul>", ListItems(reqs));
    Assoc(content, "<h3>Requirements:</h3><ul>" + ListItems(reqs), "</ul>");
    r := r + "</ul>";
  }

  /** Appending the rendering of one more block keeps content and outline in step. */
  lemma Extend(blocks: seq<Block>, content: string, block: Block, piece: string)
    requires content == Render(blocks) && piece == RenderBlock(block)
    ensures content + piece == Render(blocks + [block])
  {
    RenderSnoc(blocks, block);
  }

  /**
   The start of the content as the generator builds it, appending one section
   after another to a string: heading, reward, status, deadline.
   */
  method BuildFacts(b: Bounty) returns (content: string)
    ensures content == Render(FactBlocks(b))
  {
    var deadlineStr := DeadlineText(b);
    OpenerLiterals();

    content := "<h2>" + b.title + "</h2>";
    ghost var blocks := [Heading(b.title)];
    assert Render(blocks) == Render(blocks[..0]) + RenderBlock(Heading(b.title));

    var piece := "<p><strong>Reward:</strong> " + b.rewardFormatted + "</p>";
    Extend(blocks, content, Field("Reward", b.rewardFormatted), piece);
    content, blocks := content + piece, blocks + [Field("Reward", b.rewardFormatted)];

    piece := "<p><strong>Status:</strong> " + b.status + "</p>";
    Extend(blocks, content, Field("Status", b.status), piece);
    content, blocks := content + piece, blocks + [Field("Status", b.status)];

    if deadlineStr != "" {
      piece := "<p><strong>Deadline:</strong> " + deadlineStr + "</p>";
      Extend(blocks, content, Field("Deadline", deadlineStr), piece);
      content := content + piece;
    } else {
      assert blocks + [] == blocks;
    }
    blocks := blocks + DeadlineBlocks(b);
  }

  /**
   The lead of the content: the facts, then the tags line, the rule and the
   description.
   */
  method BuildLead(b: Bounty) returns (content: string)
    ensures content == Render(LeadBlocks(b))
  {
    var tags := TagsOf(b);
    content := BuildFacts(b);
    ghost var blocks := FactBlocks(b);
    OpenerLiterals();

    var joined := Join(tags, ", ");
    var piece := "<p><strong>Tags:</strong> " + (if joined != "" then joined else "None") + "</p>";
    Extend(blocks, content, Field("Tags", TagsLine(tags)), piece);
    content, blocks := content + piece, blocks + [Field("Tags", TagsLine(tags))];

    piece := "<hr>";
    Extend(blocks, content, Rule, piece);
    content, blocks := content + piece, blocks + [Rule];

    piece := "<p>" + DescriptionOr(b, "No description available.") + "</p>";
    Extend(blocks, content, Paragraph(DescriptionOr(b, ContentFallback)), piece);
    content, blocks := content + piece, blocks + [Paragraph(DescriptionOr(b, ContentFallback))];
  }

  /**
   The content string as the generator builds it: the lead, the requirements
   list when there are requirements, and the link back to the bounty page.
   */
  method BuildContent(b: Bounty) returns (content: string)
    ensures content == Render(Outline(b))
  {
    content := BuildLead(b);
    ghost var blocks := LeadBlocks(b);

    if b.requirements.Some? && |b.requirements.value| > 0 {
      var reqs := b.requirements.value;
      ghost var before := content;
      content := AppendRequirements(content, reqs);
      Extend(blocks, before, RequirementList(reqs), RenderBlock(RequirementList(reqs)));
    } else {
      assert blocks + [] == blocks;
    }
    blocks := blocks + RequirementBlocks(b);

    var piece := "<p><a href=\"https://bounty.owockibot.xyz/bounty/" + b.id + "\">View Bounty</a></p>";
    LinkLiteral(b.id);
    Extend(blocks, content, BountyLink(BountyUrl(b.id)), piece);
    content := content + piece;
  }

  /* ---------- the entry ---------- */

  /** The entry the generator adds to the feed for one bounty. */
  function MakeEntry(b: Bounty): Entry
  {
    Entry(
      EntryTitle(b),
      EntryId(b),
      BountyUrl(b.id),
      DescriptionOr(b, SummaryFallback),
      Render(Outline(b)),
      b.createdAt,
      Categories(b))
  }

  /**
   What `MakeEntry` puts in each field: the bracketed reward before the title,
   the identifier and link derived from the bounty id, the creation time, one
   category per tag in original order and case, the description or "No
   description" as summary, and the rendered outline as content.
   */
  lemma EntryFields(b: Bounty)
    ensures MakeEntry(b).title == "[" + b.rewardFormatted + "] " + b.title
    ensures MakeEntry(b).id == "bounty-" + b.id
    ensures MakeEntry(b).link == "https://bounty.owockibot.xyz/bounty/" + b.id
    ensures MakeEntry(b).published == b.createdAt
    ensures |MakeEntry(b).categories| == |TagsOf(b)|
    ensures forall i :: 0 <= i < |MakeEntry(b).categories| ==> MakeEntry(b).categories[i].name == TagsOf(b)[i]
    ensures MakeEntry(b).summary == DescriptionOr(b, SummaryFallback)
    ensures MakeEntry(b).content == Render(Outline(b))
  {
  }
}
