/**
 Which bounties a feed shows, and in what order: only open bounties, narrowed by
 an optional comma-separated tag filter, newest first, at most fifty of them.
 */
module Selection {
  import opened Bounties
  import opened Strings
  import opened Seqs

  const OpenStatus := "open"

  /** The number of entries a feed carries at most. */
  const MaxItems := 50

  /* ---------- status filter ---------- */

  predicate IsOpen(b: Bounty) {
    b.status == OpenStatus
  }

  /** Keeps the bounties whose status is exactly "open" (case-sensitive). */
  function KeepOpen(bs: seq<Bounty>): (r: seq<Bounty>)
    ensures IsSubsequence(r, bs)
    ensures forall i :: 0 <= i < |r| ==> r[i].status == "open"
  {
    FilterSubsequence(bs, IsOpen);
    Filter(bs, IsOpen)
  }

  /** Every occurrence of an open bounty is kept, and nothing else. */
  lemma KeepOpenCount(bs: seq<Bounty>)
    ensures forall x :: multiset(KeepOpen(bs))[x] == if x.status == "open" then multiset(bs)[x] else 0
  {
    FilterCount(bs, IsOpen);
  }

  /* ---------- tag filter ---------- */

  /**
   The tokens of a tag filter: the lower-cased filter split at every comma.
   Tokens are not trimmed, so "a, b" asks for "a" and " b".
   */
  function Tokens(filter: string): seq<string>
  {
    Split(Lower(filter), ',')
  }

  /** `tags.some(t => tokens.includes(t.toLowerCase()))`. */
  function AnyTagListed(tags: seq<string>, tokens: seq<string>): (r: bool)
    ensures r <==> exists i :: 0 <= i < |tags| && Lower(tags[i]) in tokens
  {
    if |tags| == 0 then false
    else if Lower(tags[0]) in tokens then true
    else
      var rest := AnyTagListed(tags[1..], tokens);
      assert forall i :: 1 <= i < |tags| ==> tags[i] == tags[1..][i - 1];
      rest
  }

  /** `b.tags && b.tags.some(...)`: a bounty without tags never matches. */
  predicate HasListedTag(b: Bounty, tokens: seq<string>) {
    b.tags.Some? && AnyTagListed(b.tags.value, tokens)
  }

  /** The filter applies only when it is present and non-empty (`if (tagFilter)`). */
  predicate FilterActive(tagFilter: Option<string>) {
    tagFilter.Some? && tagFilter.value != ""
  }

  /** Whether a bounty gets past the tag stage. */
  predicate PassesTagFilter(b: Bounty, tagFilter: Option<string>) {
    !FilterActive(tagFilter) || HasListedTag(b, Tokens(tagFilter.value))
  }

  function TagMatcher(tokens: seq<string>): Bounty -> bool {
    (b: Bounty) => HasListedTag(b, tokens)
  }

  /** The tag stage: the identity when no filter applies, otherwise a filter. */
  function ApplyTagFilter(bs: seq<Bounty>, tagFilter: Option<string>): (r: seq<Bounty>)
    ensures !FilterActive(tagFilter) ==> r == bs
    ensures IsSubsequence(r, bs)
    ensures forall i :: 0 <= i < |r| ==> PassesTagFilter(r[i], tagFilter)
  {
    if FilterActive(tagFilter) then
      var matcher := TagMatcher(Tokens(tagFilter.value));
      FilterSubsequence(bs, matcher);
      Filter(bs, matcher)
    else
      SubsequenceReflexive(bs);
      bs
  }

  /**
   Every occurrence of a bounty that passes the tag stage is kept, and
   nothing else.
   */
  lemma TagFilterCount(bs: seq<Bounty>, tagFilter: Option<string>)
    ensures forall x :: multiset(ApplyTagFilter(bs, tagFilter))[x]
                     == if PassesTagFilter(x, tagFilter) then multiset(bs)[x] else 0
  {
    if FilterActive(tagFilter) {
      FilterCount(bs, TagMatcher(Tokens(tagFilter.value)));
    }
  }

  /** The bounties that survive both filters, in their original order. */
  function Eligible(bs: seq<Bounty>, tagFilter: Option<string>): seq<Bounty>
  {
    ApplyTagFilter(KeepOpen(bs), tagFilter)
  }

  /* ---------- newest-first sort ---------- */

  /** `createdAt` never increases along the sequence. */
  predicate NewestFirst(s: seq<Bounty>) {
    forall i, j :: 0 <= i < j < |s| ==> s[i].createdAt >= s[j].createdAt
  }

  /**
   Inserts `x` in front of the first element that is not newer than it, so
   that `x` precedes the elements it ties with.
   */
  function InsertByDate(x: Bounty, s: seq<Bounty>): (r: seq<Bounty>)
    ensures |r| == |s| + 1
    ensures multiset(r) == multiset(s) + multiset{x}
  {
    if |s| == 0 || s[0].createdAt <= x.createdAt then [x] + s
    else
      assert s == [s[0]] + s[1..];
      [s[0]] + InsertByDate(x, s[1..])
  }

  lemma {:induction false} InsertKeepsOrder(x: Bounty, s: seq<Bounty>)
    requires NewestFirst(s)
    ensures NewestFirst(InsertByDate(x, s))
    decreases |s|
  {
    if |s| > 0 && s[0].createdAt > x.createdAt {
      InsertKeepsOrder(x, s[1..]);
      InsertBounded(x, s[1..], s[0].createdAt);
    }
  }

  /** Inserting a bounty no newer than `k` among bounties no newer than `k`. */
  lemma {:induction false} InsertBounded(x: Bounty, s: seq<Bounty>, k: int)
    requires x.createdAt <= k
    requires forall i :: 0 <= i < |s| ==> s[i].createdAt <= k
    ensures forall i :: 0 <= i < |InsertByDate(x, s)| ==> InsertByDate(x, s)[i].createdAt <= k
    decreases |s|
  {
    if |s| > 0 && s[0].createdAt > x.createdAt {
      InsertBounded(x, s[1..], k);
    }
  }

  /**
   `openBounties.sort((a, b) => b.createdAt - a.createdAt)`: a stable sort,
   newest first.
   */
  function SortNewestFirst(s: seq<Bounty>): (r: seq<Bounty>)
    ensures |r| == |s|
    ensures multiset(r) == multiset(s)
    ensures NewestFirst(r)
  {
    if |s| == 0 then []
    else
      var rest := SortNewestFirst(s[1..]);
      InsertKeepsOrder(s[0], rest);
      assert s == [s[0]] + s[1..];
      InsertByDate(s[0], rest)
  }

  function CreatedAtIs(k: int): Bounty -> bool {
    (b: Bounty) => b.createdAt == k
  }

  /** The bounties created at time `k`, in their order in `s`. */
  function AtTime(s: seq<Bounty>, k: int): seq<Bounty>
  {
    Filter(s, CreatedAtIs(k))
  }

  lemma {:induction false} InsertAtTime(x: Bounty, s: seq<Bounty>, k: int)
    ensures AtTime(InsertByDate(x, s), k) == (if x.createdAt == k then [x] else []) + AtTime(s, k)
    decreases |s|
  {
    if |s| == 0 || s[0].createdAt <= x.createdAt {
      FilterConcat([x], s, CreatedAtIs(k));
    } else {
      InsertAtTime(x, s[1..], k);
      FilterConcat([s[0]], InsertByDate(x, s[1..]), CreatedAtIs(k));
      FilterConcat([s[0]], s[1..], CreatedAtIs(k));
      assert s == [s[0]] + s[1..];
    }
  }

  /** The sort is stable: bounties created at the same time keep their order. */
  lemma {:induction false} SortStable(s: seq<Bounty>, k: int)
    ensures AtTime(SortNewestFirst(s), k) == AtTime(s, k)
    decreases |s|
  {
    if |s| > 0 {
      SortStable(s[1..], k);
      InsertAtTime(s[0], SortNewestFirst(s[1..]), k);
      FilterConcat([s[0]], s[1..], CreatedAtIs(k));
      assert s == [s[0]] + s[1..];
    }
  }

  lemma AtTimeHead(s: seq<Bounty>)
    requires |s| > 0
    ensures AtTime(s, s[0].createdAt) == [s[0]] + AtTime(s[1..], s[0].createdAt)
    ensures forall k :: k != s[0].createdAt ==> AtTime(s, k) == AtTime(s[1..], k)
  {
  }

  /** In a newest-first sequence, no bounty is newer than the first one. */
  lemma NewestFirstHeadIsMax(s: seq<Bounty>, k: int)
    requires NewestFirst(s)
    requires AtTime(s, k) != []
    ensures |s| > 0 && s[0].createdAt >= k
  {
    var g := AtTime(s, k);
    assert g[0] in s && CreatedAtIs(k)(g[0]);
    var j :| 0 <= j < |s| && s[j] == g[0];
    assert s[0].createdAt >= s[j].createdAt;
  }

  /** A sequence with no bounty at any creation time is empty. */
  lemma NoGroupsMeansEmpty(s: seq<Bounty>)
    requires forall k :: AtTime(s, k) == []
    ensures s == []
  {
    if |s| > 0 {
      AtTimeHead(s);
      assert false;
    }
  }

  /** Newest-first sequences with equal groups start with the same bounty. */
  lemma SameHeads(a: seq<Bounty>, t: seq<Bounty>)
    requires NewestFirst(a) && NewestFirst(t) && |a| > 0 && |t| > 0
    requires forall k :: AtTime(a, k) == AtTime(t, k)
    ensures a[0] == t[0]
    ensures forall k :: AtTime(a[1..], k) == AtTime(t[1..], k)
  {
    var ka, kt := a[0].createdAt, t[0].createdAt;
    AtTimeHead(a);
    AtTimeHead(t);
    assert AtTime(a, ka) == AtTime(t, ka);
    NewestFirstHeadIsMax(t, ka);
    assert AtTime(a, kt) == AtTime(t, kt);
    NewestFirstHeadIsMax(a, kt);
    assert ka == kt;
    var g := AtTime(a, ka);
    assert g[0] == a[0] && g[1..] == AtTime(a[1..], ka);
    assert g[0] == t[0] && g[1..] == AtTime(t[1..], ka);
    forall k
      ensures AtTime(a[1..], k) == AtTime(t[1..], k)
    {
      assert AtTime(a, k) == AtTime(t, k);
    }
  }

  /**
   Two newest-first sequences with the same bounties at every creation time,
   in the same order, are the same sequence.
   */
  lemma {:induction false} SortedGroupsDetermine(a: seq<Bounty>, t: seq<Bounty>)
    requires NewestFirst(a) && NewestFirst(t)
    requires forall k :: AtTime(a, k) == AtTime(t, k)
    ensures a == t
    decreases |a|
  {
    if |a| == 0 {
      NoGroupsMeansEmpty(t);
    } else if |t| == 0 {
      NoGroupsMeansEmpty(a);
    } else {
      SameHeads(a, t);
      SortedGroupsDetermine(a[1..], t[1..]);
      assert a == [a[0]] + a[1..];
      assert t == [t[0]] + t[1..];
    }
  }

  /**
   The sort is pinned down by two properties: its output is newest first, and
   for every creation time it lists the bounties of that time in input order.
   */
  lemma SortCharacterized(s: seq<Bounty>, t: seq<Bounty>)
    ensures t == SortNewestFirst(s) <==> NewestFirst(t) && forall k :: AtTime(t, k) == AtTime(s, k)
  {
    forall k
      ensures AtTime(SortNewestFirst(s), k) == AtTime(s, k)
    {
      SortStable(s, k);
    }
    if NewestFirst(t) && forall k :: AtTime(t, k) == AtTime(s, k) {
      SortedGroupsDetermine(SortNewestFirst(s), t);
    }
  }

  /* ---------- cap ---------- */

  /** `slice(0, 50)`: the first fifty elements, or all of them when fewer. */
  function Cap<T>(s: seq<T>): (r: seq<T>)
    ensures |r| == if |s| <= MaxItems then |s| else MaxItems
    ensures forall i :: 0 <= i < |r| ==> r[i] == s[i]
  {
    if |s| <= MaxItems then s else s[..MaxItems]
  }

  /* ---------- the whole selection ---------- */

  /** The bounties a feed renders, in the order it renders them. */
  function Select(bs: seq<Bounty>, tagFilter: Option<string>): (r: seq<Bounty>)
    ensures |r| <= MaxItems
    ensures NewestFirst(r)
    ensures r <= SortNewestFirst(Eligible(bs, tagFilter))
  {
    Cap(SortNewestFirst(Eligible(bs, tagFilter)))
  }

  /**
   The eligible bounties are exactly the open ones that pass the tag filter,
   every occurrence of them, in input order.
   */
  lemma EligibleExactly(bs: seq<Bounty>, tagFilter: Option<string>)
    ensures IsSubsequence(Eligible(bs, tagFilter), bs)
    ensures forall x :: multiset(Eligible(bs, tagFilter))[x]
                     == if IsOpen(x) && PassesTagFilter(x, tagFilter) then multiset(bs)[x] else 0
  {
    SubsequenceTransitive(Eligible(bs, tagFilter), KeepOpen(bs), bs);
    KeepOpenCount(bs);
    TagFilterCount(KeepOpen(bs), tagFilter);
  }

  /** Every rendered bounty is an open input bounty that passes the tag filter. */
  lemma SelectSound(bs: seq<Bounty>, tagFilter: Option<string>)
    ensures forall x :: x in Select(bs, tagFilter) ==>
      x in bs && x.status == "open" && PassesTagFilter(x, tagFilter)
  {
    var e := Eligible(bs, tagFilter);
    var r := Select(bs, tagFilter);
    EligibleExactly(bs, tagFilter);
    forall x | x in r
      ensures x in bs && x.status == "open" && PassesTagFilter(x, tagFilter)
    {
      var sorted := SortNewestFirst(e);
      assert x in sorted;
      assert x in multiset(sorted);
      assert multiset(e)[x] > 0;
    }
  }

  /**
   The feed shows min(n, 50) of the n eligible bounties; when n <= 50 it shows
   all of them.
   */
  lemma SelectSize(bs: seq<Bounty>, tagFilter: Option<string>)
    ensures |Select(bs, tagFilter)| == if |Eligible(bs, tagFilter)| <= MaxItems then |Eligible(bs, tagFilter)| else MaxItems
    ensures |Eligible(bs, tagFilter)| <= MaxItems ==>
      multiset(Select(bs, tagFilter)) == multiset(Eligible(bs, tagFilter))
  {
  }

  /**
   In a newest-first sequence, what a prefix leaves behind is no newer than
   anything in the prefix.
   */
  lemma PrefixHoldsNewest(sorted: seq<Bounty>, m: nat)
    requires NewestFirst(sorted) && m <= |sorted|
    ensures forall x, y ::
              && x in sorted[..m]
              && y in multiset(sorted) - multiset(sorted[..m])
              ==> x.createdAt >= y.createdAt
  {
    var kept, dropped := sorted[..m], sorted[m..];
    assert sorted == kept + dropped;
    assert multiset(sorted) == multiset(kept) + multiset(dropped);
    forall x, y | x in kept && y in dropped
      ensures x.createdAt >= y.createdAt
    {
      var i :| 0 <= i < m && kept[i] == x;
      var j :| 0 <= j < |dropped| && dropped[j] == y;
      assert sorted[i] == x && sorted[m + j] == y;
    }
  }

  /**
   The cap drops only the oldest: every eligible bounty the cap leaves out is
   no newer than every bounty the feed shows.
   */
  lemma SelectNewest(bs: seq<Bounty>, tagFilter: Option<string>)
    ensures forall x, y ::
              && x in Select(bs, tagFilter)
              && y in multiset(Eligible(bs, tagFilter)) - multiset(Select(bs, tagFilter))
              ==> x.createdAt >= y.createdAt
  {
    var sorted := SortNewestFirst(Eligible(bs, tagFilter));
    var r := Select(bs, tagFilter);
    assert r == sorted[..|r|];
    PrefixHoldsNewest(sorted, |r|);
  }

  /* ---------- case-insensitivity ---------- */

  /** Filters that agree after lower-casing select the same bounties. */
  lemma FilterCaseInsensitive(bs: seq<Bounty>, f1: string, f2: string)
    requires Lower(f1) == Lower(f2)
    ensures Select(bs, Some(f1)) == Select(bs, Some(f2))
  {
    assert Tokens(f1) == Tokens(f2);
    assert f1 == "" <==> f2 == "";
  }

  function LowerAll(ts: seq<string>): seq<string>
  {
    seq(|ts|, i requires 0 <= i < |ts| => Lower(ts[i]))
  }

  /** A bounty's tags match the same filter tokens whatever their case. */
  lemma TagCaseInsensitive(b: Bounty, tokens: seq<string>)
    requires b.tags.Some?
    ensures HasListedTag(b.(tags := Some(LowerAll(b.tags.value))), tokens) == HasListedTag(b, tokens)
  {
    var ts := b.tags.value;
    var lts := LowerAll(ts);
    forall i | 0 <= i < |ts|
      ensures Lower(lts[i]) == Lower(ts[i])
    {
      LowerIdempotent(ts[i]);
    }
    if AnyTagListed(ts, tokens) {
      var i :| 0 <= i < |ts| && Lower(ts[i]) in tokens;
      assert Lower(lts[i]) in tokens;
    }
    if AnyTagListed(lts, tokens) {
      var i :| 0 <= i < |lts| && Lower(lts[i]) in tokens;
      assert Lower(ts[i]) in tokens;
    }
  }

  /** The tokens of "a, b" are "a" and " b": the space is kept. */
  lemma TokensNotTrimmed()
    ensures Tokens("a, b") == ["a", " b"]
  {
    assert Lower("a, b") == "a, b";
    assert Join(["a", " b"], ",") == "a, b";
    JoinSplit(["a", " b"], ',');
  }

  /** The tokens never contain a comma and join back to the lower-cased filter. */
  lemma TokensRoundTrip(filter: string)
    ensures forall i :: 0 <= i < |Tokens(filter)| ==> ',' !in Tokens(filter)[i]
    ensures Join(Tokens(filter), ",") == Lower(filter)
  {
    SplitJoin(Lower(filter), ',');
  }
}
