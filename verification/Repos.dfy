/**
 * The repository records returned by the repositories endpoint, as far as the
 * projection layer of script.js reads them, and the key the list is sorted by.
 */
module Repos {
  import opened Wrappers

  /**
   * One repository object of the API response. `language` and `description`
   * may be `null`; `updatedAt` is the `updated_at` timestamp, taken as already
   * parsed into an integer (milliseconds since the epoch).
   */
  datatype Repository = Repository(
    name: string,
    htmlUrl: string,
    description: Option<string>,
    language: Option<string>,
    stargazersCount: nat,
    forksCount: nat,
    updatedAt: int)

  /** The three orders offered by the "Sort by" control. */
  datatype SortKey = Stars | Forks | Updated

  /**
   * The `switch (sortBy)` of filterAndSortRepos: "stars" and "forks" select
   * their key, "updated" and every other value fall through to `Updated`.
   */
  function ParseSortKey(sortBy: string): (k: SortKey)
    ensures k == Stars <==> sortBy == "stars"
    ensures k == Forks <==> sortBy == "forks"
    ensures k == Updated <==> sortBy != "stars" && sortBy != "forks"
  {
    match sortBy
    case "stars" => Stars
    case "forks" => Forks
    case _ => Updated
  }

  /** The number the comparator of the chosen order subtracts. */
  function KeyOf(r: Repository, key: SortKey): int
  {
    match key
    case Stars => r.stargazersCount
    case Forks => r.forksCount
    case Updated => r.updatedAt
  }
}
