/**
  The effect of `clone_project` on the destination tree and on the run
  counters, as pure functions: one call, and a sequence of calls as the
  backup makes them. The filesystem is the set of directories that exist,
  each path resolved against the working directory of the backup process.
  `git clone --mirror` is an oracle that says, for a URL and a target,
  whether the clone succeeds; git refuses a target that already exists
  before it creates anything. Otherwise it creates the target's missing
  leading directories first: a successful clone leaves them and the target,
  a failed one removes only the target.
 */
module MirrorSync {
  import opened Records
  import opened Wrappers
  import CloneUrl
  import PyStr

  /** A filesystem path as its sequence of components. */
  type Path = seq<string>

  /** The directory that ungrouped projects are cloned into. */
  const UNGROUPED_DIR := "未分组"

  /** What a sequence of clones runs against: the output root and whether it
      is an absolute path, the access token and the outcome of
      `git clone --mirror <url> <target>`. */
  datatype Env = Env(outputDir: Path, outputAbsolute: bool, token: string, gitOk: (string, Path) -> bool)

  /** One `clone_project(project, group_name)` call. */
  datatype Job = Job(project: Project, groupName: string)

  datatype Outcome = Cloned | Skipped | Failed

  /** The counters `cloned_projects`, `skipped_projects`, `failed_projects`. */
  datatype Stats = Stats(cloned: nat, skipped: nat, failed: nat)

  datatype StepResult = StepResult(outcome: Outcome, dirs: set<Path>)

  datatype RunResult = RunResult(stats: Stats, dirs: set<Path>)

  /** `output_dir / group_name`. */
  function GroupDir(env: Env, job: Job): Path {
    env.outputDir + [job.groupName]
  }

  /** `project_dir`, the destination whose existence is checked. */
  function ProjectDir(env: Env, job: Job): Path {
    GroupDir(env, job) + [job.project.path]
  }

  /** The depth of every clone target. */
  function TargetDepth(env: Env): nat {
    if env.outputAbsolute then |env.outputDir| + 2 else 2 * |env.outputDir| + 3
  }

  /** Where the mirror lands: git runs with `cwd=group_dir` and resolves
      `str(project_dir)` against it, so an absolute destination is used as it
      is, while a relative one ends up below the group directory a second
      time (`<out>/<group>/<out>/<group>/<path>`). */
  function CloneTarget(env: Env, job: Job): (t: Path)
    ensures |t| == TargetDepth(env)
    ensures env.outputAbsolute ==> t == ProjectDir(env, job)
    ensures !env.outputAbsolute ==> t[..|env.outputDir| + 1] == GroupDir(env, job)
                                    && t[|env.outputDir| + 1..] == ProjectDir(env, job)
  {
    if env.outputAbsolute then ProjectDir(env, job) else GroupDir(env, job) + ProjectDir(env, job)
  }

  /** The prefixes of `t` longer than `from` components. */
  function Prefixes(t: Path, from: nat): set<Path> {
    set k | from < k <= |t| :: t[..k]
  }

  /** The directories a successful clone creates: the target and the leading
      directories git makes for it below the group directory. */
  function Created(env: Env, job: Job): set<Path> {
    Prefixes(CloneTarget(env, job), |GroupDir(env, job)|)
  }

  /** The leading directories a clone into an absent target creates and a
      failed clone leaves behind. */
  function LeadingDirs(env: Env, job: Job): set<Path> {
    Created(env, job) - {CloneTarget(env, job)}
  }

  /** The created directories lie strictly below the group directory and no
      deeper than the target, which is the only one of full depth; for an
      absolute output root the clone creates exactly the destination. */
  lemma CreatedShape(env: Env, job: Job)
    ensures CloneTarget(env, job) in Created(env, job)
    ensures forall x :: x in Created(env, job) ==>
      && |env.outputDir| + 1 < |x| <= TargetDepth(env)
      && x[..|env.outputDir| + 1] == GroupDir(env, job)
      && (|x| == TargetDepth(env) ==> x == CloneTarget(env, job))
    ensures env.outputAbsolute ==> Created(env, job) == {ProjectDir(env, job)}
    ensures env.outputAbsolute ==> LeadingDirs(env, job) == {}
  {
    var t := CloneTarget(env, job);
    var n := |env.outputDir| + 1;
    assert t[..|t|] == t;
    assert t[..n] == GroupDir(env, job);
    forall x | x in Created(env, job)
      ensures n < |x| <= TargetDepth(env)
      ensures x[..n] == GroupDir(env, job)
      ensures |x| == TargetDepth(env) ==> x == t
    {
      var k :| |GroupDir(env, job)| < k <= |t| && x == t[..k];
      assert x[..n] == t[..n];
    }
  }

  /** The number of calls the counters record. */
  function Processed(s: Stats): nat {
    s.cloned + s.skipped + s.failed
  }

  /** The counters after one more call with the given outcome. */
  function Count(s: Stats, o: Outcome): (r: Stats)
    ensures (r.cloned == s.cloned + 1) == (o == Cloned)
  {
    match o
    case Cloned => s.(cloned := s.cloned + 1)
    case Skipped => s.(skipped := s.skipped + 1)
    case Failed => s.(failed := s.failed + 1)
  }

  function Add(a: Stats, b: Stats): Stats {
    Stats(a.cloned + b.cloned, a.skipped + b.skipped, a.failed + b.failed)
  }

  /** One call of `clone_project`: the group directory is created; an existing
      project directory is skipped; otherwise the clone URL is built (a URL that
      cannot be rewritten fails without a clone) and git clones into the
      target, refusing one that already exists; a failed clone leaves the
      target's leading directories behind. */
  function Step(dirs: set<Path>, env: Env, job: Job): (r: StepResult)
    ensures r.outcome == Skipped <==> ProjectDir(env, job) in dirs
    ensures r.outcome == Cloned ==> CloneTarget(env, job) !in dirs && CloneTarget(env, job) in r.dirs
    ensures dirs + {GroupDir(env, job)} <= r.dirs
  {
    var withGroup := dirs + {GroupDir(env, job)};
    var dest := ProjectDir(env, job);
    CreatedShape(env, job);
    if dest in withGroup then StepResult(Skipped, withGroup)
    else match CloneUrl.RewriteUrl(job.project.httpUrlToRepo, env.token)
      case None => StepResult(Failed, withGroup)
      case Some(url) =>
        var target := CloneTarget(env, job);
        if target in withGroup then StepResult(Failed, withGroup)
        else if env.gitOk(url, target) then StepResult(Cloned, withGroup + Created(env, job))
        else StepResult(Failed, withGroup + LeadingDirs(env, job))
  }

  /** The calls `jobs`, made one after the other from the tree `dirs`: the
      counters they add (one per call) and the tree they leave. */
  function RunJobs(dirs: set<Path>, env: Env, jobs: seq<Job>): (r: RunResult)
    ensures r.stats.cloned + r.stats.skipped + r.stats.failed == |jobs|
    ensures dirs <= r.dirs
    decreases |jobs|
  {
    if jobs == [] then RunResult(Stats(0, 0, 0), dirs)
    else
      var before := RunJobs(dirs, env, jobs[..|jobs| - 1]);
      var step := Step(before.dirs, env, jobs[|jobs| - 1]);
      RunResult(Count(before.stats, step.outcome), step.dirs)
  }

  /** A call whose destination and clone target are absent, whose URL has a
      scheme and whose clone succeeds counts as cloned and creates the target
      with its leading directories; for an absolute output root that is the
      destination itself. */
  lemma StepClones(dirs: set<Path>, env: Env, job: Job)
    requires ProjectDir(env, job) !in dirs && CloneTarget(env, job) !in dirs
    requires PyStr.Contains(job.project.httpUrlToRepo, CloneUrl.SCHEME_SEP)
    requires forall u :: env.gitOk(u, CloneTarget(env, job))
    ensures Step(dirs, env, job) == StepResult(Cloned, dirs + {GroupDir(env, job)} + Created(env, job))
    ensures env.outputAbsolute ==>
      Step(dirs, env, job) == StepResult(Cloned, dirs + {GroupDir(env, job), ProjectDir(env, job)})
  {
    CreatedShape(env, job);
  }

  /** A call whose destination and clone target are absent, whose URL has a
      scheme and whose clone fails counts as failed and leaves the target
      absent but its leading directories in place; with a relative output
      root they include the group directory nested once more below itself. */
  lemma StepFailsLeavingLeadingDirs(dirs: set<Path>, env: Env, job: Job)
    requires ProjectDir(env, job) !in dirs && CloneTarget(env, job) !in dirs
    requires PyStr.Contains(job.project.httpUrlToRepo, CloneUrl.SCHEME_SEP)
    requires forall u :: !env.gitOk(u, CloneTarget(env, job))
    ensures Step(dirs, env, job) == StepResult(Failed, dirs + {GroupDir(env, job)} + LeadingDirs(env, job))
    ensures CloneTarget(env, job) !in Step(dirs, env, job).dirs
    ensures env.outputAbsolute ==> Step(dirs, env, job).dirs == dirs + {GroupDir(env, job)}
    ensures !env.outputAbsolute ==> GroupDir(env, job) + GroupDir(env, job) in Step(dirs, env, job).dirs
  {
    CreatedShape(env, job);
    if !env.outputAbsolute {
      var g := GroupDir(env, job);
      var t := CloneTarget(env, job);
      assert t[..2 * |g|] == g + g;
      assert t[..2 * |g|] in Prefixes(t, |g|);
    }
  }

  /** A call whose destination exists only creates the group directory and
      counts as skipped. */
  lemma StepSkips(dirs: set<Path>, env: Env, job: Job)
    requires ProjectDir(env, job) in dirs
    ensures Step(dirs, env, job) == StepResult(Skipped, dirs + {GroupDir(env, job)})
  {
  }

  /** A run extended by one call is the run followed by that call's step. */
  lemma RunJobsSnoc(dirs: set<Path>, env: Env, jobs: seq<Job>, job: Job)
    ensures var before := RunJobs(dirs, env, jobs);
      var step := Step(before.dirs, env, job);
      RunJobs(dirs, env, jobs + [job]) == RunResult(Count(before.stats, step.outcome), step.dirs)
  {
    assert (jobs + [job])[..|jobs|] == jobs;
  }

  /** Adding a step's count to a total is counting it on the sum. */
  lemma AddCount(a: Stats, s: Stats, o: Outcome)
    ensures Add(a, Count(s, o)) == Count(Add(a, s), o)
  {
  }

  /** A call is skipped exactly when its destination existed; it creates the
      group directory and, when it clones, the clone's directories, and
      nothing else. With an absolute output root the destination exists
      afterwards exactly when the call did not fail. */
  lemma StepEffect(dirs: set<Path>, env: Env, job: Job)
    ensures var s := Step(dirs, env, job);
      && (s.outcome == Skipped <==> ProjectDir(env, job) in dirs)
      && (s.outcome == Cloned ==> s.dirs == dirs + {GroupDir(env, job)} + Created(env, job))
      && (s.outcome == Skipped ==> s.dirs == dirs + {GroupDir(env, job)})
      && (s.outcome == Failed ==> dirs + {GroupDir(env, job)} <= s.dirs <= dirs + {GroupDir(env, job)} + LeadingDirs(env, job))
      && (env.outputAbsolute ==> (s.outcome != Failed <==> ProjectDir(env, job) in s.dirs))
  {
    CreatedShape(env, job);
  }

  /** The group directories of the calls. */
  function GroupDirs(env: Env, jobs: seq<Job>): set<Path>
    decreases |jobs|
  {
    if jobs == [] then {} else GroupDirs(env, jobs[..|jobs| - 1]) + {GroupDir(env, jobs[|jobs| - 1])}
  }

  /** The destinations of the calls. */
  function ProjectDirs(env: Env, jobs: seq<Job>): set<Path>
    decreases |jobs|
  {
    if jobs == [] then {} else ProjectDirs(env, jobs[..|jobs| - 1]) + {ProjectDir(env, jobs[|jobs| - 1])}
  }

  /** The clone targets of the calls. */
  function Targets(env: Env, jobs: seq<Job>): set<Path>
    decreases |jobs|
  {
    if jobs == [] then {} else Targets(env, jobs[..|jobs| - 1]) + {CloneTarget(env, jobs[|jobs| - 1])}
  }

  /** The directories the calls' clones would create. */
  function CloneDirs(env: Env, jobs: seq<Job>): set<Path>
    decreases |jobs|
  {
    if jobs == [] then {} else CloneDirs(env, jobs[..|jobs| - 1]) + Created(env, jobs[|jobs| - 1])
  }

  /** The destinations are exactly the project directories of the calls. */
  lemma {:induction false} ProjectDirsMembers(env: Env, jobs: seq<Job>)
    ensures forall d :: d in ProjectDirs(env, jobs) <==> exists k :: 0 <= k < |jobs| && d == ProjectDir(env, jobs[k])
    decreases |jobs|
  {
    if jobs != [] {
      var init := jobs[..|jobs| - 1];
      ProjectDirsMembers(env, init);
      forall d ensures d in ProjectDirs(env, jobs) <==> exists k :: 0 <= k < |jobs| && d == ProjectDir(env, jobs[k]) {
        if d in ProjectDirs(env, init) {
          var k :| 0 <= k < |init| && d == ProjectDir(env, init[k]);
          assert init[k] == jobs[k];
        }
        if exists k :: 0 <= k < |jobs| && d == ProjectDir(env, jobs[k]) {
          var k :| 0 <= k < |jobs| && d == ProjectDir(env, jobs[k]);
          if k < |init| { assert init[k] == jobs[k]; }
        }
      }
    }
  }

  /** With an absolute output root the clone targets are the destinations. */
  lemma {:induction false} TargetsAbsolute(env: Env, jobs: seq<Job>)
    requires env.outputAbsolute
    ensures Targets(env, jobs) == ProjectDirs(env, jobs)
    decreases |jobs|
  {
    if jobs != [] {
      TargetsAbsolute(env, jobs[..|jobs| - 1]);
    }
  }

  /** The tree only grows, by at most the calls' group directories and clone
      directories, and every group directory is created. */
  lemma {:induction false} RunFootprint(dirs: set<Path>, env: Env, jobs: seq<Job>)
    ensures dirs + GroupDirs(env, jobs) <= RunJobs(dirs, env, jobs).dirs
    ensures RunJobs(dirs, env, jobs).dirs <= dirs + GroupDirs(env, jobs) + CloneDirs(env, jobs)
    decreases |jobs|
  {
    if jobs != [] {
      RunFootprint(dirs, env, jobs[..|jobs| - 1]);
      FootprintStep(dirs, env, jobs);
    }
  }

  /** The footprint of a run extended by one call. */
  lemma FootprintStep(dirs: set<Path>, env: Env, jobs: seq<Job>)
    requires jobs != []
    requires dirs + GroupDirs(env, jobs[..|jobs| - 1]) <= RunJobs(dirs, env, jobs[..|jobs| - 1]).dirs
    requires RunJobs(dirs, env, jobs[..|jobs| - 1]).dirs
             <= dirs + GroupDirs(env, jobs[..|jobs| - 1]) + CloneDirs(env, jobs[..|jobs| - 1])
    ensures dirs + GroupDirs(env, jobs) <= RunJobs(dirs, env, jobs).dirs
    ensures RunJobs(dirs, env, jobs).dirs <= dirs + GroupDirs(env, jobs) + CloneDirs(env, jobs)
  {
    var init, job := jobs[..|jobs| - 1], jobs[|jobs| - 1];
    var before := RunJobs(dirs, env, init);
    StepEffect(before.dirs, env, job);
    var after := Step(before.dirs, env, job).dirs;
    assert RunJobs(dirs, env, jobs).dirs == after;
    assert GroupDirs(env, jobs) == GroupDirs(env, init) + {GroupDir(env, job)};
    assert CloneDirs(env, jobs) == CloneDirs(env, init) + Created(env, job);
  }

  /** When every destination already exists, the run skips every project and
      only (re)creates the group directories. */
  lemma {:induction false} RunAllPresentSkips(dirs: set<Path>, env: Env, jobs: seq<Job>)
    requires ProjectDirs(env, jobs) <= dirs
    ensures RunJobs(dirs, env, jobs).stats == Stats(0, |jobs|, 0)
    ensures RunJobs(dirs, env, jobs).dirs == dirs + GroupDirs(env, jobs)
    decreases |jobs|
  {
    if jobs != [] {
      var init := jobs[..|jobs| - 1];
      assert ProjectDirs(env, init) <= ProjectDirs(env, jobs);
      RunAllPresentSkips(dirs, env, init);
      SkipAfterSkips(dirs, env, jobs);
    }
  }

  /** One more skipped call after a run that only skipped. */
  lemma SkipAfterSkips(dirs: set<Path>, env: Env, jobs: seq<Job>)
    requires jobs != []
    requires RunJobs(dirs, env, jobs[..|jobs| - 1]).stats == Stats(0, |jobs| - 1, 0)
    requires RunJobs(dirs, env, jobs[..|jobs| - 1]).dirs == dirs + GroupDirs(env, jobs[..|jobs| - 1])
    requires ProjectDir(env, jobs[|jobs| - 1]) in dirs
    ensures RunJobs(dirs, env, jobs).stats == Stats(0, |jobs|, 0)
    ensures RunJobs(dirs, env, jobs).dirs == dirs + GroupDirs(env, jobs)
  {
    var init, job := jobs[..|jobs| - 1], jobs[|jobs| - 1];
    var before := RunJobs(dirs, env, init);
    StepSkips(before.dirs, env, job);
    var gd := GroupDir(env, job);
    assert RunJobs(dirs, env, jobs).dirs == before.dirs + {gd};
    assert GroupDirs(env, jobs) == GroupDirs(env, init) + {gd};
  }

  /** With an absolute output root, a run without failures leaves every
      destination in place. */
  lemma {:induction false} RunWithoutFailureLeavesAll(dirs: set<Path>, env: Env, jobs: seq<Job>)
    requires env.outputAbsolute
    requires RunJobs(dirs, env, jobs).stats.failed == 0
    ensures ProjectDirs(env, jobs) <= RunJobs(dirs, env, jobs).dirs
    decreases |jobs|
  {
    if jobs != [] {
      var init := jobs[..|jobs| - 1];
      StepEffect(RunJobs(dirs, env, init).dirs, env, jobs[|jobs| - 1]);
      RunWithoutFailureLeavesAll(dirs, env, init);
    }
  }

  /** Idempotent re-run, for an absolute output root, where git clones into
      the very directory that is checked: after a run without failures,
      running the same calls again on the tree it left skips every project
      and changes nothing. */
  lemma RerunSkipsEverything(dirs: set<Path>, env: Env, jobs: seq<Job>)
    requires env.outputAbsolute
    requires RunJobs(dirs, env, jobs).stats.failed == 0
    ensures var first := RunJobs(dirs, env, jobs);
      RunJobs(first.dirs, env, jobs) == RunResult(Stats(0, |jobs|, 0), first.dirs)
  {
    var first := RunJobs(dirs, env, jobs);
    RunWithoutFailureLeavesAll(dirs, env, jobs);
    RunFootprint(dirs, env, jobs);
    RunAllPresentSkips(first.dirs, env, jobs);
  }

  /** Group directories lie one level below the output root and destinations
      two; clone targets all have the target depth, and the clone directories
      lie between the two, those of full depth being targets. */
  lemma {:induction false} DirsDepth(env: Env, jobs: seq<Job>)
    ensures forall d :: d in GroupDirs(env, jobs) ==> |d| == |env.outputDir| + 1
    ensures forall d :: d in ProjectDirs(env, jobs) ==> |d| == |env.outputDir| + 2
    ensures forall d :: d in Targets(env, jobs) ==> |d| == TargetDepth(env)
    ensures forall d :: d in CloneDirs(env, jobs) ==>
      && |env.outputDir| + 1 < |d| <= TargetDepth(env)
      && (|d| == TargetDepth(env) ==> d in Targets(env, jobs))
    decreases |jobs|
  {
    if jobs != [] {
      DirsDepth(env, jobs[..|jobs| - 1]);
      CreatedShape(env, jobs[|jobs| - 1]);
    }
  }

  /** The clone targets a run created: those of its calls that did not exist before. */
  function NewTargets(dirs: set<Path>, env: Env, jobs: seq<Job>): set<Path> {
    (RunJobs(dirs, env, jobs).dirs - dirs) * Targets(env, jobs)
  }

  /** Each clone creates a target that did not exist before, so a run clones
      exactly as many times as it creates clone targets. */
  lemma {:induction false} ClonesAreNewTargets(dirs: set<Path>, env: Env, jobs: seq<Job>)
    ensures RunJobs(dirs, env, jobs).stats.cloned == |NewTargets(dirs, env, jobs)|
    decreases |jobs|
  {
    if jobs != [] {
      ClonesAreNewTargets(dirs, env, jobs[..|jobs| - 1]);
      NewTargetsSnoc(dirs, env, jobs);
    }
  }

  /** The new targets of a run extended by one call: that call's target is
      added, and was not among them, exactly when the call clones. */
  lemma NewTargetsSnoc(dirs: set<Path>, env: Env, jobs: seq<Job>)
    requires jobs != []
    ensures var init, job := jobs[..|jobs| - 1], jobs[|jobs| - 1];
      var cloned := Step(RunJobs(dirs, env, init).dirs, env, job).outcome == Cloned;
      && RunJobs(dirs, env, jobs).stats.cloned == RunJobs(dirs, env, init).stats.cloned + (if cloned then 1 else 0)
      && NewTargets(dirs, env, jobs)
         == NewTargets(dirs, env, init) + (if cloned then {CloneTarget(env, job)} else {})
      && (cloned ==> CloneTarget(env, job) !in NewTargets(dirs, env, init))
  {
    var init := jobs[..|jobs| - 1];
    var job := jobs[|jobs| - 1];
    var before := RunJobs(dirs, env, init);
    var step := Step(before.dirs, env, job);
    RunFootprint(dirs, env, init);
    StepEffect(before.dirs, env, job);
    CreatedShape(env, job);
    DirsDepth(env, init);
    NewTargetsStep(dirs, before.dirs, GroupDirs(env, init), CloneDirs(env, init), Targets(env, init),
                   GroupDir(env, job), CloneTarget(env, job), Created(env, job), step.dirs,
                   step.outcome == Cloned, TargetDepth(env));
  }

  /** The set reasoning of one step. The tree `b` grew from `d` by group
      directories `g` and clone directories `c`, whose members of depth `depth`
      are among the targets `t`. The step adds the group directory `gd` (not of
      that depth) and, when it clones, the directories `made`, of which only its
      fresh target `dest` has that depth. It adds `dest` to the new targets
      exactly when it clones. */
  lemma NewTargetsStep(d: set<Path>, b: set<Path>, g: set<Path>, c: set<Path>, t: set<Path>,
                       gd: Path, dest: Path, made: set<Path>, s: set<Path>, cloned: bool, depth: nat)
    requires d <= b <= d + g + c
    requires forall x :: x in g ==> |x| != depth
    requires forall x :: x in c && |x| == depth ==> x in t
    requires forall x :: x in t ==> |x| == depth
    requires |gd| != depth && |dest| == depth && dest in made
    requires forall x :: x in made && |x| == depth ==> x == dest
    requires b + {gd} <= s <= b + {gd} + (if cloned then made else made - {dest})
    requires cloned ==> dest in s && dest !in b
    ensures (s - d) * (t + {dest}) == (b - d) * t + (if cloned then {dest} else {})
    ensures cloned ==> dest !in (b - d) * t
  {
    forall x | x in (s - d) * (t + {dest})
      ensures x in (b - d) * t + (if cloned then {dest} else {})
    {
      if x != dest {
        assert x in b;
      } else if !cloned {
        assert x in b - d;
      }
    }
  }

  /** At most one clone per clone target per run: a run never clones more
      often than it has distinct targets; with an absolute output root those
      are the distinct destinations. */
  lemma AtMostOneClonePerTarget(dirs: set<Path>, env: Env, jobs: seq<Job>)
    ensures RunJobs(dirs, env, jobs).stats.cloned <= |Targets(env, jobs)|
    ensures env.outputAbsolute ==> RunJobs(dirs, env, jobs).stats.cloned <= |ProjectDirs(env, jobs)|
  {
    ClonesAreNewTargets(dirs, env, jobs);
    SubsetCard(NewTargets(dirs, env, jobs), Targets(env, jobs));
    if env.outputAbsolute {
      TargetsAbsolute(env, jobs);
    }
  }

  lemma {:induction false} SubsetCard<T>(a: set<T>, b: set<T>)
    requires a <= b
    ensures |a| <= |b|
    decreases |b|
  {
    if b != {} {
      var x :| x in b;
      SubsetCard(a - {x}, b - {x});
    }
  }

  /** A call whose project path is not the first component of its group
      directory. Otherwise, with a relative output root, a leading directory
      that git creates for a clone target could coincide with a destination. */
  predicate NotShadowed(env: Env, job: Job) {
    job.project.path != (env.outputDir + [job.groupName])[0]
  }

  /** With a relative output root, no clone creates the destination of a call
      that is not shadowed. */
  lemma DestinationNotCreated(env: Env, job: Job, other: Job)
    requires !env.outputAbsolute && NotShadowed(env, job)
    ensures ProjectDir(env, job) !in Created(env, other)
  {
    var x := ProjectDir(env, job);
    var t := CloneTarget(env, other);
    var n := |env.outputDir|;
    assert t[n + 1] == (env.outputDir + [other.groupName])[0] by {
      assert t[n + 1..] == ProjectDir(env, other);
    }
    assert t[n] == other.groupName by {
      assert t[..n + 1] == GroupDir(env, other);
    }
    forall k | n + 1 < k <= |t|
      ensures t[..k] != x
    {
      if k == n + 2 && other.groupName == job.groupName {
        assert t[..k][n + 1] != x[n + 1];
      } else if k == n + 2 {
        assert t[..k][n] != x[n];
      }
    }
  }

  /** ... nor does any clone of a run. */
  lemma {:induction false} DestinationNotCloneDir(env: Env, job: Job, jobs: seq<Job>)
    requires !env.outputAbsolute && NotShadowed(env, job)
    ensures ProjectDir(env, job) !in CloneDirs(env, jobs)
    decreases |jobs|
  {
    if jobs != [] {
      DestinationNotCloneDir(env, job, jobs[..|jobs| - 1]);
      DestinationNotCreated(env, job, jobs[|jobs| - 1]);
    }
  }

  /** With a relative output root, a destination absent at the start of a run
      is absent at its end, whatever the run clones. */
  lemma DestinationStaysAbsent(dirs: set<Path>, env: Env, jobs: seq<Job>, job: Job)
    requires !env.outputAbsolute && NotShadowed(env, job)
    requires ProjectDir(env, job) !in dirs
    ensures ProjectDir(env, job) !in RunJobs(dirs, env, jobs).dirs
  {
    RunFootprint(dirs, env, jobs);
    DirsDepth(env, jobs);
    DestinationNotCloneDir(env, job, jobs);
  }

  /** With a relative output root, a run whose destinations are absent at the
      start skips nothing and leaves every destination absent. */
  lemma {:induction false} RelativeRunMissesDestinations(dirs: set<Path>, env: Env, jobs: seq<Job>)
    requires !env.outputAbsolute
    requires forall k :: 0 <= k < |jobs| ==> NotShadowed(env, jobs[k])
    requires ProjectDirs(env, jobs) !! dirs
    ensures ProjectDirs(env, jobs) !! RunJobs(dirs, env, jobs).dirs
    ensures RunJobs(dirs, env, jobs).stats.skipped == 0
    decreases |jobs|
  {
    ProjectDirsMembers(env, jobs);
    forall x | x in ProjectDirs(env, jobs)
      ensures x !in RunJobs(dirs, env, jobs).dirs
    {
      var k :| 0 <= k < |jobs| && x == ProjectDir(env, jobs[k]);
      DestinationStaysAbsent(dirs, env, jobs, jobs[k]);
    }
    if jobs != [] {
      var init := jobs[..|jobs| - 1];
      var job := jobs[|jobs| - 1];
      assert forall k :: 0 <= k < |init| ==> init[k] == jobs[k];
      RelativeRunMissesDestinations(dirs, env, init);
      DestinationStaysAbsent(dirs, env, init, job);
    }
  }

  /** A run in which every call clones leaves every clone target in place. */
  lemma {:induction false} AllClonedLeavesTargets(dirs: set<Path>, env: Env, jobs: seq<Job>)
    requires RunJobs(dirs, env, jobs).stats.cloned == |jobs|
    ensures Targets(env, jobs) <= RunJobs(dirs, env, jobs).dirs
    decreases |jobs|
  {
    if jobs != [] {
      AllClonedLeavesTargets(dirs, env, jobs[..|jobs| - 1]);
    }
  }

  /** A run from a tree that holds the group directory and the clone target of
      every call but none of their destinations: git refuses every occupied
      target, so every call fails and the tree is left as it was. */
  lemma {:induction false} OccupiedTargetsFail(dirs: set<Path>, env: Env, jobs: seq<Job>)
    requires ProjectDirs(env, jobs) !! dirs
    requires Targets(env, jobs) <= dirs && GroupDirs(env, jobs) <= dirs
    ensures RunJobs(dirs, env, jobs) == RunResult(Stats(0, 0, |jobs|), dirs)
    decreases |jobs|
  {
    if jobs != [] {
      OccupiedTargetsFail(dirs, env, jobs[..|jobs| - 1]);
    }
  }

  /** The source as written, with a relative output root: a first run without
      failures clones every project, yet leaves no destination that
      `exists()` finds, because each mirror lands below its group directory
      a second time; running the same calls again then skips nothing and
      fails every call, since git refuses the occupied targets. */
  lemma RelativeRerunFailsAll(dirs: set<Path>, env: Env, jobs: seq<Job>)
    requires !env.outputAbsolute
    requires forall k :: 0 <= k < |jobs| ==> NotShadowed(env, jobs[k])
    requires ProjectDirs(env, jobs) !! dirs
    requires RunJobs(dirs, env, jobs).stats.failed == 0
    ensures var first := RunJobs(dirs, env, jobs);
      && first.stats == Stats(|jobs|, 0, 0)
      && ProjectDirs(env, jobs) !! first.dirs
      && RunJobs(first.dirs, env, jobs) == RunResult(Stats(0, 0, |jobs|), first.dirs)
  {
    var first := RunJobs(dirs, env, jobs);
    RelativeRunMissesDestinations(dirs, env, jobs);
    AllClonedLeavesTargets(dirs, env, jobs);
    RunFootprint(dirs, env, jobs);
    OccupiedTargetsFail(first.dirs, env, jobs);
  }

  /** The default output directory `gitlab_backup`, relative, with group `a`
      and project `p1`: the clone succeeds at
      `gitlab_backup/a/gitlab_backup/a/p1`, `gitlab_backup/a/p1` stays absent,
      and the next run counts the project as failed instead of skipped. */
  lemma DefaultOutputRerunFails(env: Env, p: Project)
    requires env.outputDir == ["gitlab_backup"] && !env.outputAbsolute
    requires p.path == "p1" && PyStr.Contains(p.httpUrlToRepo, CloneUrl.SCHEME_SEP)
    requires forall u, d :: env.gitOk(u, d)
    ensures var first := RunJobs({["gitlab_backup"]}, env, [Job(p, "a")]);
      && first.stats == Stats(1, 0, 0)
      && ["gitlab_backup", "a", "gitlab_backup", "a", "p1"] in first.dirs
      && ["gitlab_backup", "a", "p1"] !in first.dirs
      && RunJobs(first.dirs, env, [Job(p, "a")]).stats == Stats(0, 0, 1)
  {
    var job := Job(p, "a");
    var dirs: set<Path> := {["gitlab_backup"]};
    assert CloneTarget(env, job) == ["gitlab_backup", "a", "gitlab_backup", "a", "p1"];
    StepClones(dirs, env, job);
    RunJobsSnoc(dirs, env, [], job);
    assert [] + [job] == [job];
    assert NotShadowed(env, job) by {
      assert "p1"[0] != "gitlab_backup"[0];
    }
    RelativeRerunFailsAll(dirs, env, [job]);
  }
}
