/**
 The bounty record as the upstream bounty board API delivers it. Fields the API
 may omit are `Option`s; the identifier is kept in its string form and the
 creation time as an opaque, comparable integer.
 */
module Bounties {

  datatype Option<T> = None | Some(value: T)

  datatype Bounty = Bounty(
    id: string,
    title: string,
    status: string,
    rewardFormatted: string,
    createdAt: int,
    /** The deadline, already rendered as an ISO-8601 timestamp. */
    deadline: Option<string>,
    tags: Option<seq<string>>,
    description: Option<string>,
    requirements: Option<seq<string>>)

  /** `bounty.tags || []`: the tags, or none when the field is absent. */
  function TagsOf(b: Bounty): seq<string>
  {
    match b.tags
    case Some(ts) => ts
    case None => []
  }
}
