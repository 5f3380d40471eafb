# Bounty feed generator, modelled in Dafny

This project models the pure core of `generateFeed` in the bounty RSS feed
service (`index.js`). The service fetches the bounty list from the bounty
board and publishes it as an RSS 2.0, Atom or JSON Feed document. The core
between the fetch and the serialiser has three stages:

1. **Selection** (`Selection`). It keeps the bounties whose status is exactly
   `"open"`. It then applies the optional tag filter: the filter is
   lower-cased and split at commas, the tokens are not trimmed, and a bounty
   passes when one of its lower-cased tags is a token. Next comes a stable
   newest-first sort on `createdAt`, and finally the first fifty are kept.
2. **Entry construction** (`Entries`). Each selected bounty becomes an entry
   with a title, id, link, summary, categories and an HTML content string.
   The content is concatenated section by section, with conditional
   deadline, tags-fallback and requirements sections. It is described twice:
   - as an outline of blocks: what the body shows, in order;
   - as the string the generator appends to piece by piece.

   `BuildContent` proves that the two agree.
3. **Format dispatch** (`Feeds`). `"atom"` selects Atom, `"json"` selects
   JSON Feed, and anything else selects RSS 2.0.

Supporting modules:
- `Strings`: ASCII lower-casing, and `split`/`join` with JavaScript's
  semantics.
- `Seqs`: order-preserving filter and map, and the subsequence relation.
- `Bounties`: the bounty record, with `Option` for the fields the API may
  omit.

`Feeds.GenerateFeed` is the whole pipeline without the fetch. It takes the
fetched bounty list as a parameter and returns the chosen format together
with the entries handed to the feed library.

Edge cases of `index.js` that the model keeps:
- The tags line falls back to the exact string "None" whenever
  `tags.join(', ')` is empty, which includes a single empty tag
  (index.js:65).
- The deadline line is omitted for an empty deadline string as well as for a
  missing one (`bounty.deadline ?` and `if (deadlineStr)`, index.js:56 and
  index.js:62).
- Filter tokens come from `split(',')` and are not trimmed (index.js:23).
- Ties in `createdAt` keep input order, because `Array.prototype.sort` is
  stable (index.js:30).

## Model

| member | source | states |
|---|---|---|
| Selection.KeepOpen | index.js:19 | The status stage returns an order-preserving subsequence of its input, and every kept bounty has status exactly "open" (case-sensitive). |
| Selection.KeepOpenCount | index.js:19 | The status stage keeps every occurrence of an open bounty and no occurrence of any other. |
| Selection.AnyTagListed | index.js:25 | True exactly when some tag, once lower-cased, is one of the tokens. |
| Selection.ApplyTagFilter | index.js:22-27 | An absent or empty filter leaves the list unchanged. In every case the result is an order-preserving subsequence of the input, and every bounty in it passes the filter: it has tags, and one of them is listed. |
| Selection.TagFilterCount | index.js:22-27 | The tag stage keeps every occurrence of a bounty that passes the filter and no occurrence of one that fails, so untagged bounties are dropped whenever the filter applies. |
| Selection.TokensNotTrimmed | index.js:23 | The filter "a, b" yields the tokens "a" and " b": the space is not trimmed. |
| Selection.TokensRoundTrip | index.js:23 | No token contains a comma, and the tokens joined with commas give back the lower-cased filter. |
| Selection.FilterCaseInsensitive | index.js:23 | Two filters that lower-case to the same string select the same bounties. |
| Selection.TagCaseInsensitive | index.js:25 | Lower-casing a bounty's tags does not change whether it matches the tokens. |
| Selection.EligibleExactly | index.js:19-27 | After both filters, the list is an order-preserving subsequence of the input. It holds every occurrence of each open bounty that passes the tag filter, and nothing else. |
| Selection.InsertKeepsOrder | index.js:30 | Inserting a bounty before the first one no newer than it keeps a newest-first list newest first. |
| Selection.SortNewestFirst | index.js:30 | The sort returns a permutation of its input, in which `createdAt` never increases. |
| Selection.SortStable | index.js:30 | The sort is stable: bounties with the same `createdAt` keep their input order. |
| Selection.SortCharacterized | index.js:30 | A list is the sorted input if and only if it is newest first and lists the bounties of each creation time in input order. |
| Selection.Cap | index.js:54 | `slice(0, 50)` gives a prefix of length min(n, 50). |
| Selection.Select | index.js:54 | The rendered bounties are a prefix of the sorted eligible bounties. There are at most fifty, and they are newest first. |
| Selection.SelectSize | index.js:54 | The feed shows min(n, 50) of the n eligible bounties, and all of them (as a multiset) when n <= 50. |
| Selection.PrefixHoldsNewest | index.js:54 | In a newest-first list, whatever a prefix leaves behind is no newer than anything in the prefix. |
| Selection.SelectNewest | index.js:54 | The cap drops only the oldest: no eligible bounty left out is newer than any bounty shown. |
| Selection.SelectSound | index.js:19-26 | Every rendered bounty is an input bounty with status "open" that passes the tag filter. |
| Strings.Lower | index.js:23 | Lower-casing keeps the length, maps each ASCII upper-case letter to its lower-case letter (code point + 32), and changes no other character. |
| Strings.LowerIdempotent | index.js:25 | Lower-casing twice is the same as lower-casing once. |
| Strings.Split | index.js:23 | A split always has at least one piece, and no piece contains the separator. |
| Strings.SplitJoin | index.js:23 | Joining the pieces of a split with the separator gives back the input. |
| Strings.JoinSplit | index.js:23 | Splitting a join of separator-free pieces gives back those pieces. |
| Strings.JoinIsEmpty | index.js:65 | A join is empty exactly when there is nothing to join or there is a single empty piece. |
| Seqs.Filter | index.js:19 | `filter` keeps only elements that pass, and it keeps every element that passes; the order is stated by `FilterSubsequence`. |
| Seqs.FilterSubsequence | index.js:24-26 | A filter returns an order-preserving subsequence of its input. |
| Seqs.FilterCount | index.js:24-26 | A filter keeps every occurrence of an element that passes and no occurrence of one that fails. |
| Entries.EntryFields | index.js:79-87 | Every field of the entry `MakeEntry` builds is given exactly. The title is "[" + reward + "] " + title, the id is "bounty-" + id, and the link is the bounty page URL + id. The summary is the description, or "No description" when it is missing or empty. The content is the rendering of the entry's outline. The date is `createdAt`, and there is one category per tag, in original order and case. |
| Entries.TitleRoundTrip | index.js:80 | When the reward contains no ']', the reward and the title can be recovered from the entry title. |
| Entries.TitleAmbiguous | index.js:80 | Without that condition, two different bounties can share one entry title. |
| Entries.EntryIdInjective | index.js:81-82 | Two entry ids are equal if and only if the bounty ids are equal, and the same holds for the links. |
| Entries.Categories | index.js:86 | The categories are the tags in order with their case kept, and there are none when the tags are absent. |
| Entries.DescriptionFallbacks | index.js:83 | A missing or empty description falls back to "No description" in the summary and to "No description available." in the content (line 67). Otherwise both show the description. |
| Entries.TagsLineNone | index.js:65 | The tags line reads "None" exactly when there are no tags, the only tag is empty, or the only tag is "None". |
| Entries.OutlineDeadline | index.js:56-64 | The body has a deadline line with value v exactly when the bounty's deadline is v and v is non-empty. |
| Entries.OutlineRequirements | index.js:69-75 | The body has a requirements list exactly when there is at least one requirement, and the list holds those requirements. |
| Entries.OutlineTagsAndDescription | index.js:65-67 | The body has a tags line with value v exactly when v is the tags joined by ", ", or "None" when that join is empty. It has a description paragraph with value v exactly when v is the description or, when that is missing or empty, its fallback. |
| Entries.ListItemsSnoc | index.js:72 | Each iteration of the requirements loop appends exactly one `<li>` item at the end. |
| Entries.ListItemsAsJoin | index.js:71-73 | The list body is the requirements joined by "</li><li>", wrapped in one more pair of tags: one item per requirement, in order. |
| Entries.OpenerLiterals | index.js:60-65 | The field openers of the outline rendering are the literal "Reward", "Status", "Deadline" and "Tags" prefixes, so `BuildFacts` and `BuildLead` can append exactly these literals. |
| Entries.LinkLiteral | index.js:77 | The rendered bounty link is the literal anchor to the bounty page. |
| Entries.AppendRequirements | index.js:70-74 | The requirements loop appends exactly the rendering of the requirements list. |
| Entries.BuildFacts | index.js:59-64 | The heading, reward, status and optional deadline appended in order are the rendering of the corresponding blocks. |
| Entries.BuildLead | index.js:59-67 | The string concatenated up to the description is the rendering of the lead blocks. |
| Entries.BuildContent | index.js:59-77 | The whole content string is the rendering of the entry's outline. |
| Feeds.FormatOf | index.js:90-92 | "atom" gives Atom and "json" gives JSON Feed. Every other string, "rss" included, gives RSS 2.0. |
| Feeds.FormatRoundTrip | index.js:90-92 | Each format is reached from the name the request handler passes for it. |
| Feeds.BuildEntry | index.js:55-87 | The loop body for one bounty produces that bounty's entry. |
| Feeds.BuildEntries | index.js:54-88 | The loop produces one entry per selected bounty, in order. |
| Feeds.GenerateFeed | index.js:15-93 | The feed has the dispatched format. It has one entry per selected bounty, in selection order, and never more than fifty. |
| Feeds.ExampleEntry | index.js:80-81 | The entry for a bounty with reward "10 USDC", title "A" and id "1" is titled "[10 USDC] A" and identified "bounty-1". |
| Feeds.ExampleNoFilter | index.js:19 | Without a filter, an open bounty is shown and a closed bounty is not. |
| Feeds.ExampleTagMiss | index.js:22-26 | The filter "writing" hides a bounty tagged only "coding". |

## Left out

- `fetchBounties` (the HTTP GET and JSON parse): network I/O. The fetched list is a parameter of `Feeds.GenerateFeed`, and a failed fetch is not modelled.
- The feed library's `rss2()`, `atom1()` and `json1()` serialisers, and the feed's fixed envelope metadata (title, links, `updated: new Date()`). The library is not part of this model, and `updated` reads the clock. A `Feed` records only the format and the entries.
- `new Date(...)` and `toISOString()`: the deadline is modelled as an optional, already ISO-formatted string, and an empty string counts as no deadline. `createdAt` is an opaque integer, and an entry's date is that integer. An invalid deadline date, which makes `toISOString` throw, is not modelled.
- The HTTP server: routing, headers, the health endpoint, the documentation page and the 500 error path. These are transport plumbing.
- JavaScript coercions outside a typed model: a non-numeric `createdAt` making the comparator return NaN, non-string tags, and truthiness of values other than strings and arrays.
- Strings.Lower: covers ASCII letters only. JavaScript's `toLowerCase` also folds non-ASCII letters, so a non-ASCII tag or filter may match in the service where the model says it does not.
- No HTML escaping is modelled, because the generator performs none: titles, descriptions, tags and requirements are concatenated verbatim.
