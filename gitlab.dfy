/** What the registry builder sees of GitLab and of its own configuration.
    The GitLab client is an oracle: a record of total functions, one per API
    call the builder makes, where None stands for the RuntimeException the
    client throws (an empty repository, a missing branch, a network error). */
module Gitlab {
  import opened PhpValues

  /** The access method selecting which clone URL is published ("ssh" unless configured). */
  datatype AccessMethod = Ssh | Http | Https

  function MethodName(m: AccessMethod): string {
    match m
    case Ssh => "ssh"
    case Http => "http"
    case Https => "https"
  }

  /** The configuration values the builder reads. The webhook token is PHP `false`
      (None) when it is not configured. An empty group list means "all projects". */
  datatype Config = Config(
    access: AccessMethod,
    allowNameMismatch: bool,
    createWebhook: bool,
    webhookUrl: string,
    webhookToken: Option<string>,
    groups: seq<string>)

  /** A branch or a tag: its name and the id of the commit it points at. */
  datatype Ref = Ref(name: string, commit: string)

  /** A project as the API lists it. `lastActivity` is last_activity_at after
      strtotime(); `urls` holds the URL fields ("ssh_url_to_repo", "http_url", ...). */
  datatype Project = Project(
    id: int,
    path: string,
    lastActivity: int,
    defaultBranch: string,
    urls: map<string, string>)

  /** A group with all pages of its project listing. */
  datatype Group = Group(name: string, projects: seq<Project>)

  /** A project hook: its URL, whether it fires on tag pushes, and its secret token. */
  datatype Hook = Hook(url: string, tagPushEvents: bool, token: Option<string>)

  /** The answer to getFile('composer.json') at a commit: an API exception, a reply
      without a `content` field, or the decoded content (None when it is not a JSON object). */
  datatype FileReply = ApiError | NoContent | Content(decoded: Option<Manifest>)

  /** The GitLab API as the builder uses it. `groups` is the first page of the group
      listing; `projects` and each group's projects are all pages concatenated. */
  datatype Api = Api(
    composerAt: (int, string) -> FileReply,
    branches: int -> Option<seq<Ref>>,
    tags: int -> Option<seq<Ref>>,
    branch: (int, string) -> Option<Ref>,
    groups: seq<Group>,
    projects: seq<Project>)
}
