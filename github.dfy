/**
 * The pure part of the GitHub binding (src/github.rs): the ordering of a
 * commenter's association with a repository, the notification records the
 * poller reads, and the subject-type guard of `Notification::pull_request`.
 * Every HTTP request is a parameter: a `fetch` function from URL to response.
 */
module GitHub {
  import opened Wrappers
  import opened Clock

  /** A user's association with a repository, in declaration order. */
  datatype UserAssociation = NONE | CONTRIBUTOR | COLLABORATOR | MEMBER | OWNER
  {
    /** The discriminant `*self as usize`: the variant's declaration index. */
    function Index(): (n: nat)
      ensures n < 5
    {
      match this
      case NONE => 0
      case CONTRIBUTOR => 1
      case COLLABORATOR => 2
      case MEMBER => 3
      case OWNER => 4
    }
  }

  /** Rust's `std::cmp::Ordering`. */
  datatype Ordering = Less | Equal | Greater

  /** `usize::cmp`. */
  function CompareIndex(a: nat, b: nat): Ordering
  {
    if a < b then Less else if a == b then Equal else Greater
  }

  /** Two associations with the same discriminant are the same variant. */
  lemma IndexInjective(a: UserAssociation, b: UserAssociation)
    ensures a.Index() == b.Index() ==> a == b
  {
  }

  /** `PartialOrd::partial_cmp` for `UserAssociation`: compare the discriminants. */
  function PartialCmp(a: UserAssociation, b: UserAssociation): (r: Option<Ordering>)
    ensures r.Some?
    ensures r.value == Equal <==> a == b
    ensures r.value == Less <==> a.Index() < b.Index()
    ensures r.value == Greater <==> b.Index() < a.Index()
  {
    IndexInjective(a, b);
    Some(CompareIndex(a.Index(), b.Index()))
  }

  /** The `<` operator that `PartialOrd` derives from `partial_cmp`. */
  predicate Lt(a: UserAssociation, b: UserAssociation)
  {
    PartialCmp(a, b) == Some(Less)
  }

  /** The `<=` operator that `PartialOrd` derives from `partial_cmp`. */
  predicate Le(a: UserAssociation, b: UserAssociation)
  {
    PartialCmp(a, b) == Some(Less) || PartialCmp(a, b) == Some(Equal)
  }

  /** The associations ascend in declaration order. */
  lemma DeclarationOrder()
    ensures Lt(NONE, CONTRIBUTOR) && Lt(CONTRIBUTOR, COLLABORATOR)
    ensures Lt(COLLABORATOR, MEMBER) && Lt(MEMBER, OWNER)
    ensures forall a :: Le(NONE, a) && Le(a, OWNER)
  {
  }

  /** `partial_cmp` never answers `None`, and its answers on swapped arguments mirror each other. */
  lemma PartialCmpTotal(a: UserAssociation, b: UserAssociation)
    ensures PartialCmp(a, b).Some?
    ensures PartialCmp(a, b) == Some(Less) <==> PartialCmp(b, a) == Some(Greater)
    ensures PartialCmp(a, b) == Some(Equal) <==> PartialCmp(b, a) == Some(Equal)
  {
  }

  /** `<=` is a total order: reflexive, antisymmetric, transitive and connected. */
  lemma LeTotalOrder(a: UserAssociation, b: UserAssociation, c: UserAssociation)
    ensures Le(a, a)
    ensures Le(a, b) && Le(b, a) ==> a == b
    ensures Le(a, b) && Le(b, c) ==> Le(a, c)
    ensures Le(a, b) || Le(b, a)
    ensures Lt(a, b) <==> Le(a, b) && a != b
  {
  }

  /** The kinds of thing a notification is about. */
  datatype SubjectType = PullRequest | Commit | Issue

  /** A notification's subject; `url` is the API location of the pull request or issue. */
  datatype Subject = Subject(url: string, kind: SubjectType)

  /** The repository a notification comes from. */
  datatype Repository = Repository(fullName: string)

  /** A GitHub notification, with the fields the poller reads. */
  datatype Notification = Notification(
    lastReadAt: Option<Timestamp>,
    subject: Subject,
    repository: Repository)

  /** A pull request, with the fields the poller reads. */
  datatype PullRequestInfo = PullRequestInfo(mergeCommitSha: string, commentsUrl: string)

  /** A comment on a pull request. */
  datatype Comment = Comment(createdAt: Timestamp, authorAssociation: UserAssociation, body: string)

  const NotPullRequestError: string := "subscription is not a pull request"

  /**
   * `Notification::pull_request`: `fetch` stands for the GET request to a
   * URL. A subject that is not a pull request is an error, and then no
   * request is made; otherwise the answer is whatever the request yields.
   */
  function PullRequestOf(n: Notification, fetch: string -> Result<PullRequestInfo, string>)
    : (r: Result<PullRequestInfo, string>)
    ensures n.subject.kind != PullRequest ==> r == Failure(NotPullRequestError)
    ensures n.subject.kind == PullRequest ==> r == fetch(n.subject.url)
  {
    if n.subject.kind != PullRequest then Failure(NotPullRequestError)
    else fetch(n.subject.url)
  }

  /** The guard answers before any request: for a non-pull-request subject, what `fetch` would return is irrelevant. */
  lemma GuardPrecedesRequest(n: Notification, f: string -> Result<PullRequestInfo, string>,
                             g: string -> Result<PullRequestInfo, string>)
    requires n.subject.kind != PullRequest
    ensures PullRequestOf(n, f) == PullRequestOf(n, g) && PullRequestOf(n, f).Failure?
  {
  }
}
