/**
  The backup driver: the `GitLabBackup` object with its run counters, the
  paginated request helper, the group and project listings, the clone step
  and `backup_all`, which counts the projects, clones every group's projects
  into the group's directory and then the ungrouped projects into the
  ungrouped directory. The output root is absolute or relative, as given on
  the command line; a relative one is resolved against the working directory
  of the process.

  The server is a fixed snapshot: each listing endpoint answers every request
  for it the same way, so repeated listings of one group return the same
  projects. The filesystem is a `FileSystem` object holding the set of
  existing directories, and the outcome of `git clone --mirror` is the oracle
  `gitOk`.
 */
module Backup {
  import opened Wrappers
  import opened PyStr
  import opened Records
  import opened Pagination
  import opened Partition
  import opened MirrorSync

  /** The server's answers for the three listing endpoints: `groups`,
      `groups/<id>/projects` for each id, and `projects`. */
  datatype Server = Server(
    groups: seq<PageResult<Group>>,
    groupProjects: int -> seq<PageResult<Project>>,
    projects: seq<PageResult<Project>>)

  /** The endpoint `get_projects(group_id)` lists: the group's projects when
      `group_id` is truthy, every project when it is `None` or 0. */
  function ProjectPages(server: Server, groupId: Option<int>): seq<PageResult<Project>> {
    if groupId.Some? && groupId.value != 0 then server.groupProjects(groupId.value) else server.projects
  }

  /** The projects listed for a group. */
  function GroupListing(server: Server, g: Group): seq<Project> {
    Fetch(ProjectPages(server, Some(g.id)))
  }

  /** The union of the ids of the groups' listings. */
  function GroupedIds(server: Server, groups: seq<Group>): set<int>
    decreases |groups|
  {
    if groups == [] then {}
    else GroupedIds(server, groups[..|groups| - 1]) + IdsOf(GroupListing(server, groups[|groups| - 1]))
  }

  /** The sum of the lengths of the groups' listings. */
  function ListedCount(server: Server, groups: seq<Group>): nat
    decreases |groups|
  {
    if groups == [] then 0
    else ListedCount(server, groups[..|groups| - 1]) + |GroupListing(server, groups[|groups| - 1])|
  }

  /** The clone calls for a listing, all into one directory. */
  function JobsIn(projects: seq<Project>, groupName: string): (jobs: seq<Job>)
    ensures |jobs| == |projects|
    ensures forall k :: 0 <= k < |jobs| ==> jobs[k] == Job(projects[k], groupName)
  {
    seq(|projects|, k requires 0 <= k < |projects| => Job(projects[k], groupName))
  }

  /** The calls for a listing's first j + 1 projects extend those for its first j. */
  lemma JobsInSnoc(projects: seq<Project>, j: nat, groupName: string)
    requires j < |projects|
    ensures JobsIn(projects[..j + 1], groupName) == JobsIn(projects[..j], groupName) + [Job(projects[j], groupName)]
  {
  }

  /** The clone calls of the grouped pass: each group's listing, in order, into
      the directory named by the group's `path`. */
  function GroupJobs(server: Server, groups: seq<Group>): seq<Job>
    decreases |groups|
  {
    if groups == [] then []
    else
      var g := groups[|groups| - 1];
      GroupJobs(server, groups[..|groups| - 1]) + JobsIn(GroupListing(server, g), g.path)
  }

  /** The grouped calls for the first i + 1 groups extend those for the first i. */
  lemma GroupJobsSnoc(server: Server, groups: seq<Group>, i: nat)
    requires i < |groups|
    ensures GroupJobs(server, groups[..i + 1])
      == GroupJobs(server, groups[..i]) + JobsIn(GroupListing(server, groups[i]), groups[i].path)
  {
    assert groups[..i + 1][..i] == groups[..i];
  }

  /** The globally listed projects that no group listing holds. */
  function UngroupedProjects(server: Server, groups: seq<Group>): seq<Project> {
    Ungrouped(Fetch(server.projects), GroupedIds(server, groups))
  }

  /** The `total_projects` that `backup_all` computes. */
  function TotalProjects(server: Server, groups: seq<Group>, includeUngrouped: bool): nat {
    ListedCount(server, groups) + if includeUngrouped then |UngroupedProjects(server, groups)| else 0
  }

  /** Every clone call `backup_all` makes, in order. */
  function Jobs(server: Server, groups: seq<Group>, includeUngrouped: bool): seq<Job> {
    GroupJobs(server, groups)
      + if includeUngrouped then JobsIn(UngroupedProjects(server, groups), UNGROUPED_DIR) else []
  }

  /** The announced total is the number of clone calls made: the progress
      counter ends at `[total/total]`. */
  lemma {:induction false} JobsMatchTotal(server: Server, groups: seq<Group>, includeUngrouped: bool)
    ensures |Jobs(server, groups, includeUngrouped)| == TotalProjects(server, groups, includeUngrouped)
  {
    GroupJobsCount(server, groups);
  }

  lemma {:induction false} GroupJobsCount(server: Server, groups: seq<Group>)
    ensures |GroupJobs(server, groups)| == ListedCount(server, groups)
    decreases |groups|
  {
    if groups != [] {
      GroupJobsCount(server, groups[..|groups| - 1]);
    }
  }

  /** An id is grouped exactly when some group's listing holds a project with it. */
  lemma GroupedIdsMembers(server: Server, groups: seq<Group>, id: int)
    ensures id in GroupedIds(server, groups) <==>
      exists k :: 0 <= k < |groups| && id in IdsOf(GroupListing(server, groups[k]))
  {
    if id in GroupedIds(server, groups) {
      GroupedIdListed(server, groups, id);
    }
    if exists k :: 0 <= k < |groups| && id in IdsOf(GroupListing(server, groups[k])) {
      var k :| 0 <= k < |groups| && id in IdsOf(GroupListing(server, groups[k]));
      ListedIdGrouped(server, groups, k, id);
    }
  }

  lemma {:induction false} ListedIdGrouped(server: Server, groups: seq<Group>, k: nat, id: int)
    requires k < |groups| && id in IdsOf(GroupListing(server, groups[k]))
    ensures id in GroupedIds(server, groups)
    decreases |groups|
  {
    if k < |groups| - 1 {
      var init := groups[..|groups| - 1];
      assert init[k] == groups[k];
      ListedIdGrouped(server, init, k, id);
    }
  }

  lemma {:induction false} GroupedIdListed(server: Server, groups: seq<Group>, id: int)
    requires id in GroupedIds(server, groups)
    ensures exists k :: 0 <= k < |groups| && id in IdsOf(GroupListing(server, groups[k]))
    decreases |groups|
  {
    var init := groups[..|groups| - 1];
    if id !in IdsOf(GroupListing(server, groups[|groups| - 1])) {
      GroupedIdListed(server, init, id);
      var k :| 0 <= k < |init| && id in IdsOf(GroupListing(server, init[k]));
      assert init[k] == groups[k];
    }
  }

  /** Every grouped clone call clones a project of that group's listing into
      the directory named by that group's `path`. */
  lemma {:induction false} GroupJobsFromListings(server: Server, groups: seq<Group>, job: Job)
    requires job in GroupJobs(server, groups)
    ensures exists k :: 0 <= k < |groups| && job.groupName == groups[k].path
                        && job.project in GroupListing(server, groups[k])
    decreases |groups|
  {
    var init := groups[..|groups| - 1];
    var g := groups[|groups| - 1];
    if job in GroupJobs(server, init) {
      GroupJobsFromListings(server, init, job);
      var k :| 0 <= k < |init| && job.groupName == init[k].path && job.project in GroupListing(server, init[k]);
      assert init[k] == groups[k];
    } else {
      var jobs := JobsIn(GroupListing(server, g), g.path);
      assert job in jobs;
      var i :| 0 <= i < |jobs| && jobs[i] == job;
      assert job.project == GroupListing(server, g)[i];
    }
  }

  /** Every project of every group's listing gets a clone call into the
      directory named by that group's `path`. */
  lemma {:induction false} GroupJobsCoverListings(server: Server, groups: seq<Group>, k: nat, p: Project)
    requires k < |groups| && p in GroupListing(server, groups[k])
    ensures Job(p, groups[k].path) in GroupJobs(server, groups)
    decreases |groups|
  {
    var init := groups[..|groups| - 1];
    if k < |groups| - 1 {
      assert init[k] == groups[k];
      GroupJobsCoverListings(server, init, k, p);
    } else {
      var listing := GroupListing(server, groups[k]);
      var i :| 0 <= i < |listing| && listing[i] == p;
      assert JobsIn(listing, groups[k].path)[i] == Job(p, groups[k].path);
    }
  }

  /** The ungrouped pass clones, into the ungrouped directory, exactly the
      globally listed projects whose id no group listing holds; without
      `include_ungrouped` there is no such pass. */
  lemma UngroupedJobs(server: Server, groups: seq<Group>, includeUngrouped: bool)
    ensures !includeUngrouped ==> Jobs(server, groups, includeUngrouped) == GroupJobs(server, groups)
    ensures includeUngrouped ==>
      forall k :: |GroupJobs(server, groups)| <= k < |Jobs(server, groups, includeUngrouped)| ==>
        var job := Jobs(server, groups, includeUngrouped)[k];
        && job.groupName == UNGROUPED_DIR
        && job.project in Fetch(server.projects)
        && job.project.id !in GroupedIds(server, groups)
    ensures includeUngrouped ==>
      forall p :: p in Fetch(server.projects) && p.id !in GroupedIds(server, groups) ==>
        Job(p, UNGROUPED_DIR) in Jobs(server, groups, includeUngrouped)
  {
    if includeUngrouped {
      var rest := UngroupedProjects(server, groups);
      forall p | p in Fetch(server.projects) && p.id !in GroupedIds(server, groups)
        ensures Job(p, UNGROUPED_DIR) in Jobs(server, groups, includeUngrouped)
      {
        var i :| 0 <= i < |rest| && rest[i] == p;
        assert Jobs(server, groups, includeUngrouped)[|GroupJobs(server, groups)| + i] == Job(p, UNGROUPED_DIR);
      }
    }
  }

  /** With `include_ungrouped`, every globally listed project gets a clone
      call: one in the grouped pass, which `Jobs` begins with, for a project
      of some group's listing (matched by id, since the two listings may return
      different records), and one into the ungrouped directory for the rest. */
  lemma EveryListedProjectCloned(server: Server, groups: seq<Group>, p: Project)
    requires p in Fetch(server.projects)
    ensures p.id in GroupedIds(server, groups) ==>
      exists job :: job in GroupJobs(server, groups) && job.project.id == p.id
    ensures p.id !in GroupedIds(server, groups) ==> Job(p, UNGROUPED_DIR) in Jobs(server, groups, true)
  {
    UngroupedJobs(server, groups, true);
    if p.id in GroupedIds(server, groups) {
      GroupedIdListed(server, groups, p.id);
      var k :| 0 <= k < |groups| && p.id in IdsOf(GroupListing(server, groups[k]));
      var q :| q in GroupListing(server, groups[k]) && q.id == p.id;
      GroupJobsCoverListings(server, groups, k, q);
      assert Job(q, groups[k].path) in GroupJobs(server, groups);
    }
  }

  /** No project id has both a grouped and an ungrouped clone call. */
  lemma GroupedAndUngroupedDisjoint(server: Server, groups: seq<Group>)
    ensures forall j1, j2 :: j1 in GroupJobs(server, groups)
                             && j2 in JobsIn(UngroupedProjects(server, groups), UNGROUPED_DIR)
                             ==> j1.project.id != j2.project.id
  {
    forall j1, j2 | j1 in GroupJobs(server, groups)
                    && j2 in JobsIn(UngroupedProjects(server, groups), UNGROUPED_DIR)
      ensures j1.project.id != j2.project.id
    {
      GroupJobsFromListings(server, groups, j1);
      var k :| 0 <= k < |groups| && j1.groupName == groups[k].path && j1.project in GroupListing(server, groups[k]);
      ListedIdGrouped(server, groups, k, j1.project.id);
      var ungrouped := UngroupedProjects(server, groups);
      var i :| 0 <= i < |ungrouped| && JobsIn(ungrouped, UNGROUPED_DIR)[i] == j2;
      assert j2.project in ungrouped;
    }
  }

  /** A project that two group listings hold gets a clone call into each
      group's directory: the grouped pass does not drop repeated ids. */
  lemma ProjectInTwoGroupsClonedTwice(server: Server, g1: Group, g2: Group, p: Project)
    requires GroupListing(server, g1) == [p] && GroupListing(server, g2) == [p]
    ensures GroupJobs(server, [g1, g2]) == [Job(p, g1.path), Job(p, g2.path)]
    ensures p.id in GroupedIds(server, [g1, g2])
  {
    assert [g1, g2][..1] == [g1] && [g1][..0] == [];
    assert GroupJobs(server, [g1]) == [Job(p, g1.path)];
    assert p.id in IdsOf(GroupListing(server, g2));
  }

  /** One group with one project, and a second project that only the global
      listing holds; every URL has a scheme and every clone succeeds. */
  ghost predicate OneGroupScenario(server: Server, g: Group, p1: Project, p2: Project, env: Env) {
    && Fetch(server.groups) == [g]
    && GroupListing(server, g) == [p1]
    && Fetch(server.projects) == [p1, p2]
    && p1.id != p2.id
    && g.path != UNGROUPED_DIR
    && Contains(p1.httpUrlToRepo, CloneUrl.SCHEME_SEP)
    && Contains(p2.httpUrlToRepo, CloneUrl.SCHEME_SEP)
    && (forall u, d :: env.gitOk(u, d))
  }

  /** The clone calls of the scenario: the group's project into the group's
      directory, then the second project into the ungrouped directory. */
  lemma ScenarioJobs(server: Server, g: Group, p1: Project, p2: Project, env: Env)
    requires OneGroupScenario(server, g, p1, p2, env)
    ensures UngroupedProjects(server, [g]) == [p2]
    ensures TotalProjects(server, [g], true) == 2
    ensures Jobs(server, [g], true) == [Job(p1, g.path), Job(p2, UNGROUPED_DIR)]
    ensures TotalProjects(server, [g], false) == 1
    ensures Jobs(server, [g], false) == [Job(p1, g.path)]
  {
    assert GroupedIds(server, [g]) == {p1.id} by {
      assert [g][..0] == [];
    }
    var ids := GroupedIds(server, [g]);
    assert [p1, p2][1..] == [p2] && [p2][1..] == [];
    assert Ungrouped([p2], ids) == [p2];
    assert Ungrouped([p1, p2], ids) == Ungrouped([p2], ids);
    assert GroupJobs(server, [g]) == [Job(p1, g.path)] by {
      assert [g][..0] == [];
    }
    assert ListedCount(server, [g]) == 1 by {
      assert [g][..0] == [];
    }
  }

  /** The scenario from a tree without either destination or clone target:
      both projects are cloned, into `<output>/<group path>/<path>` and
      `<output>/未分组/<path>` when the output root is absolute, and below
      those group directories a second time when it is relative. */
  lemma ScenarioClonesBoth(server: Server, g: Group, p1: Project, p2: Project, env: Env, dirs: set<Path>)
    requires OneGroupScenario(server, g, p1, p2, env)
    requires env.outputDir + [g.path, p1.path] !in dirs && CloneTarget(env, Job(p1, g.path)) !in dirs
    requires env.outputDir + [UNGROUPED_DIR, p2.path] !in dirs && CloneTarget(env, Job(p2, UNGROUPED_DIR)) !in dirs
    ensures var run := RunJobs(dirs, env, Jobs(server, Fetch(server.groups), true));
      && run.stats == Stats(2, 0, 0)
      && CloneTarget(env, Job(p1, g.path)) in run.dirs
      && CloneTarget(env, Job(p2, UNGROUPED_DIR)) in run.dirs
      && (env.outputAbsolute ==>
            env.outputDir + [g.path, p1.path] in run.dirs
            && env.outputDir + [UNGROUPED_DIR, p2.path] in run.dirs)
  {
    var j1, j2 := Job(p1, g.path), Job(p2, UNGROUPED_DIR);
    ScenarioJobs(server, g, p1, p2, env);
    assert ProjectDir(env, j1) == env.outputDir + [g.path, p1.path];
    assert ProjectDir(env, j2) == env.outputDir + [UNGROUPED_DIR, p2.path];
    CloneThenClone(dirs, env, j1, j2);
  }

  /** The same scenario when the group project's directory already exists: it is
      skipped, without a clone, and only the second project is cloned. */
  lemma ScenarioSkipsExisting(server: Server, g: Group, p1: Project, p2: Project, env: Env, dirs: set<Path>)
    requires OneGroupScenario(server, g, p1, p2, env)
    requires env.outputDir + [g.path, p1.path] in dirs
    requires env.outputDir + [UNGROUPED_DIR, p2.path] !in dirs && CloneTarget(env, Job(p2, UNGROUPED_DIR)) !in dirs
    ensures var run := RunJobs(dirs, env, Jobs(server, Fetch(server.groups), true));
      && run.stats == Stats(1, 1, 0)
      && CloneTarget(env, Job(p2, UNGROUPED_DIR)) in run.dirs
      && (env.outputAbsolute ==> env.outputDir + [UNGROUPED_DIR, p2.path] in run.dirs)
    ensures Step(dirs, env, Job(p1, g.path)).outcome == Skipped
  {
    var j1, j2 := Job(p1, g.path), Job(p2, UNGROUPED_DIR);
    ScenarioJobs(server, g, p1, p2, env);
    assert ProjectDir(env, j1) == env.outputDir + [g.path, p1.path];
    assert ProjectDir(env, j2) == env.outputDir + [UNGROUPED_DIR, p2.path];
    SkipThenClone(dirs, env, j1, j2);
  }

  /** Two calls into different group directories whose destinations and clone
      targets are absent, with URLs that have a scheme and clones that
      succeed: both are cloned and leave their targets, which are their
      destinations when the output root is absolute. */
  lemma CloneThenClone(dirs: set<Path>, env: Env, j1: Job, j2: Job)
    requires ProjectDir(env, j1) !in dirs && ProjectDir(env, j2) !in dirs
    requires CloneTarget(env, j1) !in dirs && CloneTarget(env, j2) !in dirs
    requires j1.groupName != j2.groupName
    requires PyStr.Contains(j1.project.httpUrlToRepo, CloneUrl.SCHEME_SEP)
    requires PyStr.Contains(j2.project.httpUrlToRepo, CloneUrl.SCHEME_SEP)
    requires forall u :: env.gitOk(u, CloneTarget(env, j1))
    requires forall u :: env.gitOk(u, CloneTarget(env, j2))
    ensures var run := RunJobs(dirs, env, [j1, j2]);
      && run.stats == Stats(2, 0, 0)
      && CloneTarget(env, j1) in run.dirs && CloneTarget(env, j2) in run.dirs
      && (env.outputAbsolute ==> ProjectDir(env, j1) in run.dirs && ProjectDir(env, j2) in run.dirs)
  {
    var n := |env.outputDir|;
    var first := Step(dirs, env, j1);
    assert first == StepResult(Cloned, dirs + {GroupDir(env, j1)} + Created(env, j1)) by {
      StepClones(dirs, env, j1);
    }
    assert ProjectDir(env, j2) !in first.dirs && CloneTarget(env, j2) !in first.dirs by {
      CreatedShape(env, j1);
      assert ProjectDir(env, j2)[..n + 1] == GroupDir(env, j2);
      assert CloneTarget(env, j2)[..n + 1] == GroupDir(env, j2) by {
        if env.outputAbsolute {
          assert CloneTarget(env, j2) == ProjectDir(env, j2);
        }
      }
      assert GroupDir(env, j1)[n] != GroupDir(env, j2)[n];
      assert |ProjectDir(env, j2)| != |GroupDir(env, j1)|;
    }
    var second := Step(first.dirs, env, j2);
    assert second.outcome == Cloned && CloneTarget(env, j2) in second.dirs by {
      StepClones(first.dirs, env, j2);
    }
    RunTwo(dirs, env, j1, j2);
  }

  /** A call whose destination exists, then one whose destination and clone
      target are absent, with a URL that has a scheme and a clone that
      succeeds: the first is skipped and the second cloned. */
  lemma SkipThenClone(dirs: set<Path>, env: Env, j1: Job, j2: Job)
    requires ProjectDir(env, j1) in dirs
    requires ProjectDir(env, j2) !in dirs && CloneTarget(env, j2) !in dirs
    requires PyStr.Contains(j2.project.httpUrlToRepo, CloneUrl.SCHEME_SEP)
    requires forall u :: env.gitOk(u, CloneTarget(env, j2))
    ensures Step(dirs, env, j1).outcome == Skipped
    ensures var run := RunJobs(dirs, env, [j1, j2]);
      && run.stats == Stats(1, 1, 0) && CloneTarget(env, j2) in run.dirs
      && (env.outputAbsolute ==> ProjectDir(env, j2) in run.dirs)
  {
    var first := Step(dirs, env, j1);
    assert first == StepResult(Skipped, dirs + {GroupDir(env, j1)}) by {
      StepSkips(dirs, env, j1);
    }
    assert ProjectDir(env, j2) !in first.dirs && CloneTarget(env, j2) !in first.dirs by {
      assert |ProjectDir(env, j2)| != |GroupDir(env, j1)|;
      assert |CloneTarget(env, j2)| != |GroupDir(env, j1)|;
    }
    var second := Step(first.dirs, env, j2);
    assert second.outcome == Cloned && CloneTarget(env, j2) in second.dirs by {
      StepClones(first.dirs, env, j2);
    }
    RunTwo(dirs, env, j1, j2);
  }

  /** A run of two calls is the two steps one after the other. */
  lemma RunTwo(dirs: set<Path>, env: Env, j1: Job, j2: Job)
    ensures var first := Step(dirs, env, j1);
      var second := Step(first.dirs, env, j2);
      && RunJobs(dirs, env, [j1, j2]).stats == Count(Count(Stats(0, 0, 0), first.outcome), second.outcome)
      && RunJobs(dirs, env, [j1, j2]).dirs == second.dirs
  {
    RunJobsSnoc(dirs, env, [], j1);
    RunJobsSnoc(dirs, env, [j1], j2);
    assert [] + [j1] == [j1] && [j1] + [j2] == [j1, j2];
  }

  /** The destination tree: the set of directories that exist. */
  class FileSystem {
    var dirs: set<Path>

    constructor (dirs: set<Path>)
      ensures this.dirs == dirs
    {
      this.dirs := dirs;
    }

    /** `Path.exists()`. */
    method Exists(p: Path) returns (b: bool)
      ensures b <==> p in dirs
    {
      b := p in dirs;
    }

    /** `Path.mkdir(exist_ok=True)`. */
    method Mkdir(p: Path)
      modifies this
      ensures dirs == old(dirs) + {p}
    {
      dirs := dirs + {p};
    }

    /** What a successful clone into `p` creates: `p` and its leading
        directories longer than `from` components. */
    method MakeDirs(p: Path, from: nat)
      modifies this
      ensures dirs == old(dirs) + Prefixes(p, from)
      ensures p in dirs || |p| <= from
    {
      dirs := dirs + Prefixes(p, from);
      if from < |p| {
        assert p[..|p|] == p;
      }
    }

    /** What a failed clone into an absent `p` leaves behind: the leading
        directories git made before it failed, but not `p` itself. */
    method MakeLeadingDirs(p: Path, from: nat)
      modifies this
      ensures dirs == old(dirs) + (Prefixes(p, from) - {p})
      ensures p in dirs <==> p in old(dirs)
    {
      dirs := dirs + (Prefixes(p, from) - {p});
    }
  }

  class GitLabBackup {
    const gitlabUrl: string
    const accessToken: string
    const outputDir: Path
    const outputAbsolute: bool

    var totalGroups: nat
    var totalProjects: nat
    var clonedProjects: nat
    var skippedProjects: nat
    var failedProjects: nat

    /** The three outcome counters. */
    function Tally(): Stats
      reads this
    {
      Stats(clonedProjects, skippedProjects, failedProjects)
    }

    /** What the clone calls run against, for the clone oracle `gitOk`. */
    function EnvOf(gitOk: (string, Path) -> bool): Env {
      MirrorSync.Env(outputDir, outputAbsolute, accessToken, gitOk)
    }

    /** `__init__`: strips the trailing slashes of the server URL, zeroes the
        counters and creates the output directory. */
    constructor (gitlabUrl: string, accessToken: string, outputDir: Path, outputAbsolute: bool, fs: FileSystem)
      modifies fs
      ensures this.gitlabUrl == RStrip(gitlabUrl, '/')
      ensures this.accessToken == accessToken && this.outputDir == outputDir
      ensures this.outputAbsolute == outputAbsolute
      ensures totalGroups == 0 && totalProjects == 0
      ensures Tally() == Stats(0, 0, 0)
      ensures fs.dirs == old(fs.dirs) + {outputDir}
    {
      this.gitlabUrl := RStrip(gitlabUrl, '/');
      this.accessToken := accessToken;
      this.outputDir := outputDir;
      this.outputAbsolute := outputAbsolute;
      totalGroups, totalProjects := 0, 0;
      clonedProjects, skippedProjects, failedProjects := 0, 0, 0;
      new;
      fs.Mkdir(outputDir);
    }

    /** `_make_request`: requests pages 1, 2, ... with `per_page` 100 from the
        endpoint whose answers are `pages`, and concatenates them; `sent` is
        the requests in the order they were sent. */
    method MakeRequest<R>(pages: seq<PageResult<R>>) returns (all: seq<R>, sent: seq<Request>)
      ensures all == Fetch(pages)
      ensures |sent| == RequestCount(pages)
      ensures forall i :: 0 <= i < |sent| ==> sent[i] == Request(i + 1, PER_PAGE)
    {
      all, sent := [], [];
      var page: nat := 1;
      assert pages[0..] == pages;
      while true
        invariant 1 <= page <= |pages| + 1
        invariant |sent| == page - 1
        invariant forall i :: 0 <= i < |sent| ==> sent[i] == Request(i + 1, PER_PAGE)
        invariant all + Fetch(pages[page - 1..]) == Fetch(pages)
        invariant RequestCount(pages) == page - 1 + RequestCount(pages[page - 1..])
        decreases |pages| + 1 - page
      {
        sent := sent + [Request(page, PER_PAGE)];
        var response := Answer(pages, page);
        ScanFrom(pages, page);
        if response.RequestError? {
          // the request failed: log it and return what was gathered
          break;
        }
        var data := response.records;
        if |data| == 0 {
          break;
        }
        ghost var before := all;
        all := all + data;
        page := page + 1;
        if |data| < PER_PAGE {
          break;
        }
        assert all + Fetch(pages[page - 1..]) == before + (data + Fetch(pages[page - 1..]));
      }
    }

    /** `get_groups`: lists the groups and records how many there are. */
    method GetGroups(server: Server) returns (groups: seq<Group>)
      modifies this`totalGroups
      ensures groups == Fetch(server.groups)
      ensures totalGroups == |groups|
    {
      var requests;
      groups, requests := MakeRequest(server.groups);
      totalGroups := |groups|;
    }

    /** `get_projects(group_id)`. */
    method GetProjects(server: Server, groupId: Option<int>) returns (projects: seq<Project>)
      ensures projects == Fetch(ProjectPages(server, groupId))
    {
      if groupId.Some? && groupId.value != 0 {
        var requests;
        projects, requests := MakeRequest(server.groupProjects(groupId.value));
      } else {
        var requests;
        projects, requests := MakeRequest(server.projects);
      }
    }

    /** The grouped-id set `backup_all` builds with `set.update`. */
    method GroupedProjectIds(server: Server, groups: seq<Group>) returns (ids: set<int>)
      ensures ids == GroupedIds(server, groups)
    {
      ids := {};
      for i := 0 to |groups|
        invariant ids == GroupedIds(server, groups[..i])
      {
        var groupProjects := GetProjects(server, Some(groups[i].id));
        ids := ids + IdsOf(groupProjects);
        assert groups[..i + 1][..i] == groups[..i];
      }
      assert groups[..|groups|] == groups;
    }

    /** `clone_project(project, group_name)`: creates the group directory, skips
        a project whose directory exists, and otherwise builds the
        credential-bearing URL and mirror-clones `project_dir`. Git runs in the
        group directory, so a relative `project_dir` is resolved below it. */
    method CloneProject(fs: FileSystem, project: Project, groupName: string, gitOk: (string, Path) -> bool)
      returns (ok: bool)
      modifies this`clonedProjects, this`skippedProjects, this`failedProjects, fs
      ensures var step := Step(old(fs.dirs), EnvOf(gitOk), Job(project, groupName));
        && fs.dirs == step.dirs
        && Tally() == Count(old(Tally()), step.outcome)
        && ok == (step.outcome != Failed)
      ensures outputDir + [groupName, project.path] in old(fs.dirs) ==>
        ok && skippedProjects == old(skippedProjects) + 1
        && clonedProjects == old(clonedProjects) && failedProjects == old(failedProjects)
      ensures outputDir + [groupName, project.path] !in old(fs.dirs) ==>
        skippedProjects == old(skippedProjects)
        && (if ok then clonedProjects == old(clonedProjects) + 1 && failedProjects == old(failedProjects)
            else failedProjects == old(failedProjects) + 1 && clonedProjects == old(clonedProjects))
      ensures Processed(Tally()) == Processed(old(Tally())) + 1
    {
      var groupDir := outputDir + [groupName];
      fs.Mkdir(groupDir);
      var projectDir := groupDir + [project.path];
      assert projectDir == outputDir + [groupName, project.path];
      var present := fs.Exists(projectDir);
      if present {
        skippedProjects := skippedProjects + 1;
        return true;
      }
      var url := CloneUrl.RewriteUrl(project.httpUrlToRepo, accessToken);
      if url.None? {
        // the IndexError of the URL split is caught like any other exception
        failedProjects := failedProjects + 1;
        return false;
      }
      var target := if outputAbsolute then projectDir else groupDir + projectDir;
      var occupied := fs.Exists(target);
      if occupied {
        // git refuses an existing target before it creates anything
        failedProjects := failedProjects + 1;
        return false;
      }
      if !gitOk(url.value, target) {
        // git removes the target it failed to fill, not its leading directories
        fs.MakeLeadingDirs(target, |groupDir|);
        failedProjects := failedProjects + 1;
        return false;
      }
      fs.MakeDirs(target, |groupDir|);
      clonedProjects := clonedProjects + 1;
      return true;
    }

    /** The clone calls of one listing, all into one directory, appended to
        the calls `done` already made from the tree `dirs0`. */
    method CloneAll(fs: FileSystem, projects: seq<Project>, groupName: string, gitOk: (string, Path) -> bool,
                    ghost dirs0: set<Path>, ghost tally0: Stats, ghost done: seq<Job>)
      requires fs.dirs == RunJobs(dirs0, EnvOf(gitOk), done).dirs
      requires Tally() == Add(tally0, RunJobs(dirs0, EnvOf(gitOk), done).stats)
      modifies this`clonedProjects, this`skippedProjects, this`failedProjects, fs
      ensures fs.dirs == RunJobs(dirs0, EnvOf(gitOk), done + JobsIn(projects, groupName)).dirs
      ensures Tally() == Add(tally0, RunJobs(dirs0, EnvOf(gitOk), done + JobsIn(projects, groupName)).stats)
      ensures Processed(Tally()) == Processed(old(Tally())) + |projects|
    {
      assert done + JobsIn(projects[..0], groupName) == done;
      for j := 0 to |projects|
        invariant fs.dirs == RunJobs(dirs0, EnvOf(gitOk), done + JobsIn(projects[..j], groupName)).dirs
        invariant Tally() == Add(tally0, RunJobs(dirs0, EnvOf(gitOk), done + JobsIn(projects[..j], groupName)).stats)
        invariant Processed(Tally()) == Processed(old(Tally())) + j
      {
        CloneNext(fs, projects, j, groupName, gitOk, dirs0, tally0, done);
      }
      assert projects[..|projects|] == projects;
    }

    /** The clone call for the listing's project `j`, the next after the calls
        for the projects before it. */
    method CloneNext(fs: FileSystem, projects: seq<Project>, j: nat, groupName: string, gitOk: (string, Path) -> bool,
                     ghost dirs0: set<Path>, ghost tally0: Stats, ghost done: seq<Job>)
      requires j < |projects|
      requires fs.dirs == RunJobs(dirs0, EnvOf(gitOk), done + JobsIn(projects[..j], groupName)).dirs
      requires Tally() == Add(tally0, RunJobs(dirs0, EnvOf(gitOk), done + JobsIn(projects[..j], groupName)).stats)
      modifies this`clonedProjects, this`skippedProjects, this`failedProjects, fs
      ensures fs.dirs == RunJobs(dirs0, EnvOf(gitOk), done + JobsIn(projects[..j + 1], groupName)).dirs
      ensures Tally() == Add(tally0, RunJobs(dirs0, EnvOf(gitOk), done + JobsIn(projects[..j + 1], groupName)).stats)
      ensures Processed(Tally()) == Processed(old(Tally())) + 1
    {
      ghost var env := EnvOf(gitOk);
      ghost var jobs := done + JobsIn(projects[..j], groupName);
      ghost var before := RunJobs(dirs0, env, jobs);
      var job := Job(projects[j], groupName);
      ghost var step := Step(before.dirs, env, job);
      assert RunJobs(dirs0, env, done + JobsIn(projects[..j + 1], groupName))
          == RunResult(Count(before.stats, step.outcome), step.dirs) by {
        JobsInSnoc(projects, j, groupName);
        assert done + JobsIn(projects[..j + 1], groupName) == jobs + [job];
        RunJobsSnoc(dirs0, env, jobs, job);
      }
      assert Add(tally0, Count(before.stats, step.outcome)) == Count(Tally(), step.outcome) by {
        AddCount(tally0, before.stats, step.outcome);
      }
      var ok := CloneProject(fs, projects[j], groupName, gitOk);
    }

    /** The `total_projects` count of `backup_all`: the lengths of the group
        listings and, with `include_ungrouped`, the number of ungrouped projects. */
    method CountProjects(server: Server, groups: seq<Group>, includeUngrouped: bool) returns (total: nat)
      ensures total == TotalProjects(server, groups, includeUngrouped)
    {
      total := 0;
      for i := 0 to |groups|
        invariant total == ListedCount(server, groups[..i])
      {
        var groupProjects := GetProjects(server, Some(groups[i].id));
        total := total + |groupProjects|;
        assert groups[..i + 1][..i] == groups[..i];
      }
      assert groups[..|groups|] == groups;
      if includeUngrouped {
        var allProjects := GetProjects(server, None);
        var groupedIds := GroupedProjectIds(server, groups);
        var ungrouped := Ungrouped(allProjects, groupedIds);
        total := total + |ungrouped|;
      }
    }

    /** The grouped pass of `backup_all`: each group's listing, cloned into the
        directory named by the group's `path`. */
    method CloneGroups(fs: FileSystem, server: Server, groups: seq<Group>, gitOk: (string, Path) -> bool)
      modifies this`clonedProjects, this`skippedProjects, this`failedProjects, fs
      ensures var run := RunJobs(old(fs.dirs), EnvOf(gitOk), GroupJobs(server, groups));
        fs.dirs == run.dirs && Tally() == Add(old(Tally()), run.stats)
      ensures Processed(Tally()) == Processed(old(Tally())) + ListedCount(server, groups)
    {
      ghost var dirs0, tally0 := fs.dirs, Tally();
      assert GroupJobs(server, groups[..0]) == [];
      for i := 0 to |groups|
        invariant fs.dirs == RunJobs(dirs0, EnvOf(gitOk), GroupJobs(server, groups[..i])).dirs
        invariant Tally() == Add(tally0, RunJobs(dirs0, EnvOf(gitOk), GroupJobs(server, groups[..i])).stats)
        invariant Processed(Tally()) == Processed(tally0) + ListedCount(server, groups[..i])
      {
        var projects := GetProjects(server, Some(groups[i].id));
        GroupJobsSnoc(server, groups, i);
        assert groups[..i + 1][..i] == groups[..i];
        CloneAll(fs, projects, groups[i].path, gitOk, dirs0, tally0, GroupJobs(server, groups[..i]));
      }
      assert groups[..|groups|] == groups;
    }

    /** `backup_all(include_ungrouped)`: counts the projects, then makes every
        clone call of `Jobs` in order; the counters end at the announced total. */
    method BackupAll(fs: FileSystem, server: Server, includeUngrouped: bool, gitOk: (string, Path) -> bool)
      modifies this, fs
      ensures totalGroups == |Fetch(server.groups)|
      ensures totalProjects == TotalProjects(server, Fetch(server.groups), includeUngrouped)
      ensures var run := RunJobs(old(fs.dirs), EnvOf(gitOk), Jobs(server, Fetch(server.groups), includeUngrouped));
        fs.dirs == run.dirs && Tally() == Add(old(Tally()), run.stats)
      ensures Processed(Tally()) == Processed(old(Tally())) + totalProjects
    {
      ghost var dirs0, tally0 := fs.dirs, Tally();
      var groups := GetGroups(server);
      totalProjects := CountProjects(server, groups, includeUngrouped);

      // back up the grouped projects
      CloneGroups(fs, server, groups, gitOk);

      // back up the ungrouped projects
      if includeUngrouped {
        var allProjects := GetProjects(server, None);
        var groupedIds := GroupedProjectIds(server, groups);
        var ungrouped := Ungrouped(allProjects, groupedIds);
        CloneAll(fs, ungrouped, UNGROUPED_DIR, gitOk, dirs0, tally0, GroupJobs(server, groups));
      } else {
        assert Jobs(server, groups, includeUngrouped) == GroupJobs(server, groups);
      }
    }
  }
}
