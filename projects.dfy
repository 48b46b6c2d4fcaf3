/** The project listing at the start of build(): the projects in scope and the
    largest last_activity_at among them, the candidate freshness token of the index. */
module ProjectListing {
  import opened Gitlab

  /** The projects of the groups whose name is in `allowed`, group by group. */
  function GroupProjects(gs: seq<Group>, allowed: seq<string>): (r: seq<Project>)
    ensures forall p :: p in r <==> exists g :: g in gs && g.name in allowed && p in g.projects
  {
    if gs == [] then []
    else
      var last := gs[|gs| - 1];
      var front := GroupProjects(gs[..|gs| - 1], allowed);
      assert forall g :: g in gs <==> g in gs[..|gs| - 1] || g == last;
      front + (if last.name in allowed then last.projects else [])
  }

  /** The projects build() collects: those of the configured groups, or every
      accessible project when no group is configured. */
  function Listed(conf: Config, api: Api): seq<Project> {
    if conf.groups == [] then api.projects else GroupProjects(api.groups, conf.groups)
  }

  function Max(a: int, b: int): int {
    if a < b then b else a
  }

  /** The running `$mtime = max($mtime, ...)` over a project list, starting from 0. */
  function MaxActivity(ps: seq<Project>): int {
    if ps == [] then 0 else Max(MaxActivity(ps[..|ps| - 1]), ps[|ps| - 1].lastActivity)
  }

  /** The token is never negative, bounds every project's activity, and is the
      activity of one of them unless it is the initial 0. */
  lemma {:induction false} MaxActivityIsMax(ps: seq<Project>)
    ensures MaxActivity(ps) >= 0
    ensures forall p | p in ps :: p.lastActivity <= MaxActivity(ps)
    ensures MaxActivity(ps) == 0 || exists p | p in ps :: p.lastActivity == MaxActivity(ps)
  {
    if ps != [] {
      var front := ps[..|ps| - 1];
      MaxActivityIsMax(front);
      assert forall p :: p in ps <==> p in front || p == ps[|ps| - 1];
    }
  }

  /** A project's activity can only raise the token: adding projects never lowers it. */
  lemma {:induction false} MaxActivityMonotone(ps: seq<Project>, qs: seq<Project>)
    ensures MaxActivity(ps) <= MaxActivity(ps + qs)
  {
    if qs != [] {
      assert (ps + qs)[..|ps + qs| - 1] == ps + qs[..|qs| - 1];
      MaxActivityMonotone(ps, qs[..|qs| - 1]);
    } else {
      assert ps + qs == ps;
    }
  }

  lemma MaxActivityAppend(ps: seq<Project>, p: Project)
    ensures MaxActivity(ps + [p]) == Max(MaxActivity(ps), p.lastActivity)
  {
    assert (ps + [p])[..|ps|] == ps;
  }

  /** The inner `foreach ($p as $project)` of build(): one page of projects appended
      in order while the maximum activity time is tracked. */
  method AppendProjects(before: seq<Project>, beforeMax: int, page: seq<Project>)
    returns (all: seq<Project>, mtime: int)
    requires beforeMax == MaxActivity(before)
    ensures all == before + page
    ensures mtime == MaxActivity(all)
  {
    all, mtime := before, beforeMax;
    var j := 0;
    while j < |page|
      invariant 0 <= j <= |page|
      invariant all == before + page[..j]
      invariant mtime == MaxActivity(all)
    {
      MaxActivityAppend(all, page[j]);
      all := all + [page[j]];
      mtime := Max(mtime, page[j].lastActivity);
      assert page[..j + 1] == page[..j] + [page[j]];
      j := j + 1;
    }
    assert page[..j] == page;
  }

  /** The listing loops of build(): the groups' projects, or all projects, in listing
      order, with the maximum activity time. */
  method CollectProjects(conf: Config, api: Api) returns (all: seq<Project>, mtime: int)
    ensures all == Listed(conf, api)
    ensures mtime == MaxActivity(all)
  {
    if conf.groups != [] {
      all, mtime := [], 0;
      var i := 0;
      while i < |api.groups|
        invariant 0 <= i <= |api.groups|
        invariant all == GroupProjects(api.groups[..i], conf.groups)
        invariant mtime == MaxActivity(all)
      {
        var g := api.groups[i];
        assert api.groups[..i + 1][..i] == api.groups[..i];
        if g.name in conf.groups {
          all, mtime := AppendProjects(all, mtime, g.projects);
        }
        i := i + 1;
      }
      assert api.groups[..i] == api.groups;
    } else {
      all, mtime := AppendProjects([], 0, api.projects);
    }
  }
}
