/**
 * The error path of fetchUserData (script.js): the message thrown for a
 * failed profile or repositories response, and the sentence the catch block
 * shows for a message. The two `fetch` calls are parameters here: a reply is
 * either a response with a status and an already decoded body, or a rejection
 * with its error message.
 */
module Errors {
  import opened Wrappers
  import opened Repos

  // ---------------------------------------------------------------------------
  // Decimal formatting of a status (the `${status}` of a template literal)

  function DigitChar(d: nat): (c: char)
    requires d < 10
    ensures '0' <= c <= '9'
  {
    ('0' as int + d) as char
  }

  predicate IsDigits(s: string)
  {
    forall i :: 0 <= i < |s| ==> '0' <= s[i] <= '9'
  }

  /** The decimal numeral of `n`, without leading zeros. */
  function NatToString(n: nat): (s: string)
    ensures |s| >= 1 && IsDigits(s)
    ensures s[0] == '0' ==> n == 0
  {
    if n < 10 then [DigitChar(n)] else NatToString(n / 10) + [DigitChar(n % 10)]
  }

  /** The value of a decimal numeral. */
  function ParseDecimal(s: string): nat
    requires IsDigits(s)
  {
    if s == [] then 0 else ParseDecimal(s[..|s| - 1]) * 10 + (s[|s| - 1] as int - '0' as int)
  }

  /** Formatting a status loses nothing: the number can be read back. */
  lemma {:induction false} ParseNatToString(n: nat)
    ensures ParseDecimal(NatToString(n)) == n
  {
    if n >= 10 {
      var s := NatToString(n);
      assert s[..|s| - 1] == NatToString(n / 10);
      ParseNatToString(n / 10);
    }
  }

  lemma NatToStringInjective(a: nat, b: nat)
    requires NatToString(a) == NatToString(b)
    ensures a == b
  {
    ParseNatToString(a);
    ParseNatToString(b);
  }

  // ---------------------------------------------------------------------------
  // Messages thrown inside the try block

  const NotFound: string := "User not found"
  const RateLimited: string := "API rate limit exceeded"
  const Unavailable: string := "GitHub API is currently unavailable"
  const UnknownPrefix: string := "GitHub API error: "
  const ReposPrefix: string := "Repositories fetch error: "

  /** `response.ok`: a status in the range 200-299. */
  predicate IsOk(status: nat)
  {
    200 <= status <= 299
  }

  /**
   * The `switch (userResponse.status)` for a failed profile response: 404,
   * 403 and 500/502/503 each have a fixed message; any other status is
   * reported with its number, so distinct such statuses give distinct messages.
   */
  function ProfileErrorMessage(status: nat): (m: string)
    ensures m == NotFound <==> status == 404
    ensures m == RateLimited <==> status == 403
    ensures m == Unavailable <==> status in {500, 502, 503}
    ensures status !in {404, 403, 500, 502, 503} ==>
      |m| > |UnknownPrefix| && m[..|UnknownPrefix|] == UnknownPrefix
      && IsDigits(m[|UnknownPrefix|..]) && ParseDecimal(m[|UnknownPrefix|..]) == status
  {
    match status
    case 404 => NotFound
    case 403 => RateLimited
    case 500 => Unavailable
    case 502 => Unavailable
    case 503 => Unavailable
    case _ =>
      var m := UnknownPrefix + NatToString(status);
      assert m[0] == 'G' && m[11] == 'e' && m[..|UnknownPrefix|] == UnknownPrefix;
      assert m[|UnknownPrefix|..] == NatToString(status);
      ParseNatToString(status);
      m
  }

  /** The message thrown for a failed repositories response; the status can be read back from it. */
  function ReposErrorMessage(status: nat): (m: string)
    ensures |m| > |ReposPrefix| && m[..|ReposPrefix|] == ReposPrefix
    ensures IsDigits(m[|ReposPrefix|..]) && ParseDecimal(m[|ReposPrefix|..]) == status
  {
    var m := ReposPrefix + NatToString(status);
    assert m[|ReposPrefix|..] == NatToString(status);
    ParseNatToString(status);
    m
  }

  // ---------------------------------------------------------------------------
  // The sentence shown by the catch block

  const NotFoundText: string := "User not found. Please check the username and try again."
  const RateLimitedText: string := "GitHub API rate limit exceeded. Please try again later."
  const UnavailableText: string := "GitHub services are currently unavailable. Please try again later."
  const UnexpectedText: string := "An unexpected error occurred"

  /**
   * The catch block's `switch (error.message)`: the three known messages are
   * rewritten into sentences, an empty message (falsy) becomes the generic
   * sentence, and every other message is shown unchanged.
   */
  function UserMessage(message: string): (text: string)
    ensures text != ""
    ensures message == "" ==> text == UnexpectedText
    ensures message == NotFound ==> text == NotFoundText
    ensures message == RateLimited ==> text == RateLimitedText
    ensures message == Unavailable ==> text == UnavailableText
    ensures message in {NotFound, RateLimited, Unavailable, ""} <==> text != message
  {
    if message == "" then UnexpectedText
    else if message == NotFound then NotFoundText
    else if message == RateLimited then RateLimitedText
    else if message == Unavailable then UnavailableText
    else message
  }

  /**
   * The sentence shown for each failed profile status: the taxonomy of the
   * status switch carried through the message switch.
   */
  lemma ProfileErrorText(status: nat)
    ensures var text := UserMessage(ProfileErrorMessage(status));
      && (status == 404 ==> text == NotFoundText)
      && (status == 403 ==> text == RateLimitedText)
      && (status in {500, 502, 503} ==> text == UnavailableText)
      && (status !in {404, 403, 500, 502, 503} ==> text == UnknownPrefix + NatToString(status))
  {
  }

  /** A repositories failure is never mistaken for one of the known messages. */
  lemma ReposErrorText(status: nat)
    ensures UserMessage(ReposErrorMessage(status)) == ReposErrorMessage(status)
  {
  }

  // ---------------------------------------------------------------------------
  // fetchUserData as a function of the two replies

  /** The outcome of one `fetch`: a response, or a rejection with an error message. */
  datatype Reply<T> = Response(status: nat, body: T) | Rejected(message: string)

  /** The profile fields the page shows. */
  datatype Profile = Profile(
    login: string,
    name: Option<string>,
    avatarUrl: string,
    bio: Option<string>,
    publicRepos: nat,
    followers: nat,
    following: nat)

  /** What the page ends up showing: the two panels, or the error banner. */
  datatype Outcome = Displayed(profile: Profile, repos: seq<Repository>) | ErrorShown(text: string)

  /**
   * The try block of fetchUserData and its catch: the profile reply is
   * checked first, and the repositories reply only when the profile
   * succeeded. `repos` stands for the reply the second `fetch` would get.
   */
  function FetchUserData(user: Reply<Profile>, repos: Reply<seq<Repository>>): (o: Outcome)
    ensures o.Displayed? <==> user.Response? && IsOk(user.status) && repos.Response? && IsOk(repos.status)
    ensures o.Displayed? ==> o.profile == user.body && o.repos == repos.body
    ensures o.ErrorShown? ==> o.text != ""
    ensures user.Rejected? ==> o == ErrorShown(UserMessage(user.message))
    ensures user.Response? && IsOk(user.status) && repos.Rejected? ==> o == ErrorShown(UserMessage(repos.message))
  {
    match user
    case Rejected(message) => ErrorShown(UserMessage(message))
    case Response(status, profile) =>
      if !IsOk(status) then ErrorShown(UserMessage(ProfileErrorMessage(status)))
      else
        match repos
        case Rejected(message) => ErrorShown(UserMessage(message))
        case Response(reposStatus, list) =>
          if !IsOk(reposStatus) then ErrorShown(UserMessage(ReposErrorMessage(reposStatus)))
          else Displayed(profile, list)
  }

  /**
   * The banner for every failed response: a failed profile response decides
   * the outcome whatever the repositories reply would have been, and a failed
   * repositories response shows its own message.
   */
  lemma FetchUserDataErrors(user: Reply<Profile>, repos: Reply<seq<Repository>>)
    ensures user.Response? && !IsOk(user.status) ==>
      forall other :: FetchUserData(user, other) == FetchUserData(user, repos)
    ensures user.Response? && user.status == 404 ==> FetchUserData(user, repos) == ErrorShown(NotFoundText)
    ensures user.Response? && user.status == 403 ==> FetchUserData(user, repos) == ErrorShown(RateLimitedText)
    ensures user.Response? && user.status in {500, 502, 503} ==>
      FetchUserData(user, repos) == ErrorShown(UnavailableText)
    ensures user.Response? && !IsOk(user.status) && user.status !in {404, 403, 500, 502, 503} ==>
      FetchUserData(user, repos) == ErrorShown(UnknownPrefix + NatToString(user.status))
    ensures user.Response? && IsOk(user.status) && repos.Response? && !IsOk(repos.status) ==>
      FetchUserData(user, repos) == ErrorShown(ReposPrefix + NatToString(repos.status))
  {
  }
}
