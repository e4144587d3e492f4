/**
 * The response `ProcessRequest` builds for one request
 * (src/gitstatus.cc:45-152), with every answer of libgit2, of the
 * repository cache and of the index scanner taken as an input.
 *
 * The response is the ordered list of fields passed to `ResponseWriter::Print`;
 * `None` stands for a request that ends before `Dump`, so that no field list
 * is sent.
 */
module Response {

  datatype Option<T> = None | Some(value: T)

  predicate IsHexDigit(c: char) {
    '0' <= c <= '9' || 'a' <= c <= 'f'
  }

  /** An object id as `git_oid_tostr_s` prints it: forty hex digits. */
  type OidText = s: seq<char> | |s| == 40 && forall i :: 0 <= i < |s| ==> IsHexDigit(s[i])
    witness "0000000000000000000000000000000000000000"

  datatype Request = Request(id: string, dir: string, diff: bool)

  /** What `Repo::GetIndexStats` reports. */
  datatype IndexStats = IndexStats(
    indexSize: nat,
    numStaged: nat,
    numUnstaged: nat,
    numConflicted: nat,
    numUntracked: nat)

  /**
   * The tracking branch of HEAD: its branch and remote name (`GetRemote`),
   * the remote's URL (`RemoteUrl`), and the commit counts of
   * `upstream..HEAD` and `HEAD..upstream` (`CountRange`).
   */
  datatype Upstream = Upstream(branch: string, remoteName: string, url: string, ahead: nat, behind: nat)

  /**
   * HEAD: its target commit (absent in an empty repository), the local
   * branch name (`LocalBranchName`) and the tracking branch, if any (`Upstream`).
   */
  datatype Head = Head(target: Option<OidText>, localBranch: string, upstream: Option<Upstream>)

  /**
   * The repository `RepoCache::Open` returned for the request's directory,
   * as the rest of the request sees it. `head` is absent when `Head` returns
   * null; `tag` is absent when the background tag lookup failed.
   */
  datatype Repo = Repo(
    workdir: string,
    head: Option<Head>,
    state: string,
    stats: IndexStats,
    numStashes: nat,
    tag: Option<string>)

  /** One printed value: a string, or a number. */
  datatype Field = Text(s: string) | Count(n: nat)

  // Positions of the fields in a response.
  const WorkdirAt := 0
  const RevisionAt := 1
  const LocalBranchAt := 2
  const UpstreamBranchAt := 3
  const RemoteNameAt := 4
  const RemoteUrlAt := 5
  const RepoStateAt := 6
  const IndexSizeAt := 7
  const NumStagedAt := 8
  const NumUnstagedAt := 9
  const NumConflictedAt := 10
  const NumUntrackedAt := 11
  const AheadAt := 12
  const BehindAt := 13
  const NumStashesAt := 14
  const TagAt := 15
  const NumFields := 16

  /**
   * The working directory as printed: an empty one aborts the response, and
   * one trailing '/' is dropped unless the path is just "/".
   */
  function TrimWorkdir(w: string): (r: Option<string>)
    ensures r.None? <==> w == []
    ensures r.Some? ==> r.value != [] && (r.value == w || r.value + "/" == w)
    ensures r.Some? && r.value != w ==> |w| > 1
  {
    if |w| == 0 then None
    else if |w| > 1 && w[|w| - 1] == '/' then Some(w[..|w| - 1])
    else Some(w)
  }

  /** The revision field: the hex id of HEAD's target, or "" in an empty repository. */
  function Revision(target: Option<OidText>): (rev: string)
  {
    match target
    case Some(oid) => oid
    case None => ""
  }

  /** Branch, remote name and URL of the tracking branch; all "" without one. */
  function UpstreamFields(upstream: Option<Upstream>): (fs: seq<Field>)
  {
    match upstream
    case Some(u) => [Text(u.branch), Text(u.remoteName), Text(u.url)]
    case None => [Text(""), Text(""), Text("")]
  }

  /** The five index fields: the scanner's numbers if `diff` was asked for, else zeros. */
  function StatFields(diff: bool, stats: IndexStats): (fs: seq<Field>)
  {
    if diff then
      [Count(stats.indexSize), Count(stats.numStaged), Count(stats.numUnstaged),
       Count(stats.numConflicted), Count(stats.numUntracked)]
    else
      [Count(0), Count(0), Count(0), Count(0), Count(0)]
  }

  /** Commits ahead of and behind the tracking branch; the text "0" twice without one. */
  function AheadBehindFields(upstream: Option<Upstream>): (fs: seq<Field>)
  {
    match upstream
    case Some(u) => [Count(u.ahead), Count(u.behind)]
    case None => [Text("0"), Text("0")]
  }

  /** A repository that gets as far as `Dump`. */
  predicate Answers(repo: Repo) {
    repo.head.Some? && repo.workdir != [] && repo.tag.Some?
  }

  /**
   * `ProcessRequest`: `repo` is what the cache opened for `req.dir`. The
   * request is answered with a field list exactly when there is a
   * repository with a HEAD and a non-empty working directory and the tag
   * lookup succeeded, and the list always has sixteen fields.
   */
  function ProcessRequest(req: Request, repo: Option<Repo>): (r: Option<seq<Field>>)
    ensures r.Some? <==> repo.Some? && Answers(repo.value)
    ensures r.Some? ==> |r.value| == NumFields
  {
    match repo
    case None => None
    case Some(rp) =>
      match rp.head
      case None => None
      case Some(head) =>
        match TrimWorkdir(rp.workdir)
        case None => None
        case Some(workdir) =>
          match rp.tag
          case None => None
          case Some(tag) =>
            Some([Text(workdir), Text(Revision(head.target)), Text(head.localBranch)]
                 + UpstreamFields(head.upstream)
                 + [Text(rp.state)]
                 + StatFields(req.diff, rp.stats)
                 + AheadBehindFields(head.upstream)
                 + [Count(rp.numStashes), Text(tag)])
  }

  // ---------------------------------------------------------------------
  // Properties of the working-directory field

  /**
   * libgit2 reports the working directory with one trailing '/'; so long as
   * it does not end in two, the printed path has no trailing '/' unless it
   * is the root itself.
   */
  lemma TrimmedHasNoTrailingSlash(w: string)
    requires w != []
    requires !(|w| >= 2 && w[|w| - 2] == '/' && w[|w| - 1] == '/')
    ensures var t := TrimWorkdir(w).value; t == "/" || t[|t| - 1] != '/'
  {
  }

  /** Only one '/' is dropped: a path ending in two keeps one. */
  lemma TrimDropsOneSlashOnly()
    ensures TrimWorkdir("/a//") == Some("/a/")
    ensures TrimWorkdir("/") == Some("/")
  {
    assert "/a//"[..3] == "/a/";
  }

  /** Printing a printed working directory again leaves it as it is. */
  lemma TrimIdempotent(w: string)
    requires w != []
    requires !(|w| >= 2 && w[|w| - 2] == '/' && w[|w| - 1] == '/')
    ensures TrimWorkdir(TrimWorkdir(w).value) == TrimWorkdir(w)
  {
  }

  // ---------------------------------------------------------------------
  // Properties of the field list

  lemma WorkdirComesFirst(req: Request, repo: Repo)
    requires Answers(repo)
    ensures ProcessRequest(req, Some(repo)).value[WorkdirAt] == Text(TrimWorkdir(repo.workdir).value)
  {
  }

  /** The revision is empty exactly when HEAD has no target, and is its id otherwise. */
  lemma RevisionEmptyIffNoTarget(req: Request, repo: Repo)
    requires Answers(repo)
    ensures var fs := ProcessRequest(req, Some(repo)).value;
      && (fs[RevisionAt] == Text("") <==> repo.head.value.target.None?)
      && (repo.head.value.target.Some? ==> fs[RevisionAt] == Text(repo.head.value.target.value))
  {
  }

  /** Field 2 is the local branch name and field 6 the repository state. */
  lemma LocalBranchThenState(req: Request, repo: Repo)
    requires Answers(repo)
    ensures var fs := ProcessRequest(req, Some(repo)).value;
      fs[LocalBranchAt] == Text(repo.head.value.localBranch) && fs[RepoStateAt] == Text(repo.state)
  {
  }

  /** Without an upstream, its three names are empty and ahead/behind are both "0". */
  lemma NoUpstreamDefaults(req: Request, repo: Repo)
    requires Answers(repo) && repo.head.value.upstream.None?
    ensures var fs := ProcessRequest(req, Some(repo)).value;
      && fs[UpstreamBranchAt] == fs[RemoteNameAt] == fs[RemoteUrlAt] == Text("")
      && fs[AheadAt] == fs[BehindAt] == Text("0")
  {
  }

  /** With an upstream, its branch, remote, URL and the two commit counts are printed in that order. */
  lemma UpstreamReported(req: Request, repo: Repo)
    requires Answers(repo) && repo.head.value.upstream.Some?
    ensures var fs := ProcessRequest(req, Some(repo)).value;
      var u := repo.head.value.upstream.value;
      && fs[UpstreamBranchAt] == Text(u.branch)
      && fs[RemoteNameAt] == Text(u.remoteName)
      && fs[RemoteUrlAt] == Text(u.url)
      && fs[AheadAt] == Count(u.ahead)
      && fs[BehindAt] == Count(u.behind)
  {
  }

  /** Without `diff` the five index fields are zero, whatever the index holds. */
  lemma NoDiffZeroStats(req: Request, repo: Repo)
    requires Answers(repo) && !req.diff
    ensures var fs := ProcessRequest(req, Some(repo)).value;
      forall i :: IndexSizeAt <= i <= NumUntrackedAt ==> fs[i] == Count(0)
  {
  }

  /** With `diff` the five index fields are the scanner's, in the order size, staged, unstaged, conflicted, untracked. */
  lemma DiffReportsStats(req: Request, repo: Repo)
    requires Answers(repo) && req.diff
    ensures var fs := ProcessRequest(req, Some(repo)).value;
      var st := repo.stats;
      fs[IndexSizeAt..NumUntrackedAt + 1]
        == [Count(st.indexSize), Count(st.numStaged), Count(st.numUnstaged),
            Count(st.numConflicted), Count(st.numUntracked)]
  {
  }

  /** The `diff` flag changes the five index fields and nothing else. */
  lemma DiffOnlyTouchesStats(req: Request, repo: Repo)
    requires Answers(repo)
    ensures var on := ProcessRequest(req.(diff := true), Some(repo)).value;
      var off := ProcessRequest(req.(diff := false), Some(repo)).value;
      forall i :: 0 <= i < NumFields && !(IndexSizeAt <= i <= NumUntrackedAt) ==> on[i] == off[i]
  {
  }

  /** The tracking branch changes the upstream and ahead/behind fields and nothing else. */
  lemma UpstreamOnlyTouchesItsFields(req: Request, repo: Repo, other: Option<Upstream>)
    requires Answers(repo)
    ensures var changed := repo.(head := Some(repo.head.value.(upstream := other)));
      var a := ProcessRequest(req, Some(repo)).value;
      var b := ProcessRequest(req, Some(changed)).value;
      forall i ::
        0 <= i < NumFields && !(UpstreamBranchAt <= i <= RemoteUrlAt) && !(AheadAt <= i <= BehindAt)
        ==> a[i] == b[i]
  {
  }

  /** The stash count and then the tag close the list. */
  lemma StashesThenTagLast(req: Request, repo: Repo)
    requires Answers(repo)
    ensures var fs := ProcessRequest(req, Some(repo)).value;
      fs[NumStashesAt] == Count(repo.numStashes) && fs[TagAt] == Text(repo.tag.value)
  {
  }

  /** A failed tag lookup loses the whole response, not just the tag. */
  lemma FailedTagLookupLosesResponse(req: Request, repo: Repo)
    requires repo.tag.None?
    ensures ProcessRequest(req, Some(repo)).None?
  {
  }
}
