# GitLab group-mirror backup: a Dafny model

This project models the synchronisation engine of `gitlab_backup.py`. That engine is the `GitLabBackup` class, which mirrors every repository of a GitLab server into a local tree with one directory per group. The model covers these parts:

- **Request helper** (`_make_request`). It requests pages 1, 2, 3, … of a listing endpoint, 100 records per page, and concatenates them. It stops at an empty page, or after a page shorter than 100 records (that page is still included). On a failed request it stops and keeps what it has gathered; nothing is raised.
- **Group and project listings** (`get_groups`, `get_projects`). `get_groups` records how many groups there are. `get_projects(group_id)` lists a group's projects when `group_id` is truthy. Otherwise it lists every project, and that includes group id 0.
- **Clone URL** built inside `clone_project`. The access token replaces the URL's user-info, or is inserted when there is none, as `oauth2:<token>@`. Then every occurrence of the literal host name `gitlab.navclips.com` is replaced by `47.107.158.127`. Python's `split` and `replace` are modelled exactly, including what `parts[1]` drops. The source never calls `join`; the model uses it only to state `replace` as `join(split(...))`. A URL with neither `@` nor `://` raises an IndexError. That exception is caught, so the project counts as failed and no clone is attempted.
- **Clone step** (`clone_project`). It creates `<output>/<group>` and skips a project whose `<output>/<group>/<path>` already exists. Otherwise it runs `git clone --mirror <url> <output>/<group>/<path>` with the group directory as working directory. It keeps the counters `cloned_projects`, `skipped_projects` and `failed_projects`.
- **Driver** (`backup_all`). It counts the grouped projects plus, when `include_ungrouped` is set, the ungrouped ones. It clones each group's projects into the group's `path`. Then it clones the globally listed projects that no group listing holds into `未分组`.

Modelling choices:

- **Server**: a fixed snapshot (`Backup.Server`). Each endpoint is the finite sequence of answers to its page requests, and pages past the end answer with an empty page. Repeated listings of one group therefore agree.
- **Filesystem**: the set of existing directories, paths written as sequences of components. `FileSystem` is a class whose `dirs` field is updated in place. The output root is absolute or relative (`outputAbsolute`); a relative path is resolved against the working directory of whichever process uses it.
- **`git clone --mirror`**: an oracle `gitOk(url, target)`. Git resolves the target against its own working directory, the group directory. An absolute `project_dir` is therefore the target itself. A relative one lands at `<output>/<group>/<output>/<group>/<path>` (`MirrorSync.CloneTarget`). Git refuses a target that already exists. Otherwise git first creates the leading directories the target lacks. A successful clone adds the target itself. A failed one removes only the target, so those leading directories stay (`<output>/<group>/<output>/<group>` for a relative root).
- **`GitLabBackup`**: a class with the source's five counter fields. Its loops are proved against pure specification functions: the page loop of `MakeRequest` against `Pagination.Fetch`, the id loop of `GroupedProjectIds` against `Backup.GroupedIds`, the counting loops of `CountProjects` against `Backup.TotalProjects`, and the clone loops of `CloneAll` and `CloneGroups` against `MirrorSync.RunJobs`. `BackupAll` strings these together. The properties of the backup are proved about the specification functions.

Modules:

| module | file | models |
|---|---|---|
| `PyStr` | pystr.dfy | `in`, `split`, `replace`, `rstrip`, and `join` to state `replace` |
| `Pagination` | pagination.dfy | the page protocol of `_make_request` |
| `CloneUrl` | credentials.dfy | the clone-URL rewrite |
| `Partition` | partition.dfy | grouped ids and the ungrouped filter |
| `MirrorSync` | sync.dfy | one `clone_project` call and a sequence of them, as functions |
| `Backup` | backup.dfy | the server snapshot, the filesystem, the `GitLabBackup` class |
| `Records`, `Wrappers` | records.dfy, wrappers.dfy | group and project records, `Option` |

## Model

| member | source | states |
|---|---|---|
| PyStr.Split | gitlab_backup.py:190-195 | `s.split(sep)` always has at least one piece, so `url_parts[0]` never raises. |
| PyStr.SplitCount | gitlab_backup.py:188-190 | `s.split(sep)` has two or more pieces exactly when `sep in s`, so the `'@' in url` test decides whether `parts[1]` exists. |
| PyStr.JoinShape | gitlab_backup.py:197 | About the `join(split(token_url, host), address)` form in which `replace` on line 197 is stated: the result holds every piece and one separator between each two neighbours, so its length is their sum plus `len(parts) - 1` separators, and it starts with the first piece. |
| PyStr.JoinOfSplit | gitlab_backup.py:190 | Round trip: `sep.join(s.split(sep)) == s` for every string. |
| PyStr.SplitPiecesFree | gitlab_backup.py:190 | No piece of `s.split(sep)` contains the separator. |
| PyStr.SplitOfJoin | gitlab_backup.py:190 | Round trip the other way: separator-free pieces joined by a self-non-overlapping separator split back into themselves. |
| PyStr.SplitAfterFree | gitlab_backup.py:190-191 | When `a` holds no `sep`, `(a + sep + x).split(sep) == [a] + x.split(sep)`. |
| PyStr.ReplaceAll | gitlab_backup.py:197 | `s.replace(pat, rep)` leaves a string without the pattern unchanged. |
| PyStr.ReplaceAllIsJoinOfSplit | gitlab_backup.py:197 | The left-to-right `s.replace(pat, rep)` equals `rep.join(s.split(pat))`. |
| PyStr.RStrip | gitlab_backup.py:40 | `rstrip(c)` yields a prefix of the input whose removed tail is all `c` and that does not itself end in `c`. |
| CloneUrl.TokenUrl | gitlab_backup.py:188-195 | Building the URL fails (the IndexError on `url_parts[1]`) exactly when the URL holds neither `@` nor `://`. A URL that is built contains `://oauth2:<token>@`. |
| CloneUrl.RewriteUrl | gitlab_backup.py:188-197 | The host substitution fails exactly when the credential URL fails. It is `HOST_ADDRESS.join(u.split(HOST_NAME))` of the credential URL `u`, and leaves a `u` without the host name unchanged. |
| CloneUrl.InsertsCredential | gitlab_backup.py:192-195 | A URL `scheme://rest` without `@` becomes `scheme://oauth2:<token>@rest`. |
| CloneUrl.ReplacesUserInfo | gitlab_backup.py:188-191 | A URL `scheme://user@rest` becomes `scheme://oauth2:<token>@rest`: the user-info is replaced, not kept beside the token. |
| CloneUrl.UserInfoIrrelevant | gitlab_backup.py:188-195 | A URL with user-info and the same URL without it give the same credential URL. |
| CloneUrl.DropsAfterSecondAt | gitlab_backup.py:190-191 | With `@` in the URL, everything from the second `@` on is dropped. |
| CloneUrl.DropsAfterSecondSchemeSep | gitlab_backup.py:194-195 | Without `@`, everything from the second `://` on is dropped. |
| Pagination.FetchIsPrefix | gitlab_backup.py:74-94 | The helper returns a prefix of everything the endpoint serves, in the server's order: no record is reordered, repeated or invented. |
| Pagination.RequestCount | gitlab_backup.py:77-98 | The helper sends at least one request, at most one past the served pages, and the last page requested is terminal (a failed request, an empty page or a page shorter than 100). |
| Pagination.RequestCountIsFirstTerminal | gitlab_backup.py:77-98 | No page before the last one requested is terminal, so the last one is the first terminal page. |
| Pagination.FetchIsPagesBeforeTerminal | gitlab_backup.py:74-94 | The result is the in-order concatenation of the pages before the first terminal page, followed by that page's records. |
| Pagination.FailedRequestKeepsEarlierPages | gitlab_backup.py:81-100 | A failed request ends the scan: exactly the records of the earlier pages are returned, and it is the last request. |
| Pagination.PagedListingFetchedWhole | gitlab_backup.py:74-94 | A listing served 100 records per page is returned whole and in order with `len // 100 + 1` requests. |
| Pagination.ExactMultipleNeedsEmptyPage | gitlab_backup.py:75-94 | A listing of exactly `100 * k` records takes `k + 1` requests, and the last one is answered with an empty page. |
| Partition.IdsOfConcat | gitlab_backup.py:243-246 | The ids of two listings one after the other are the union of the ids of each, as successive `set.update` calls accumulate them. |
| Partition.Ungrouped | gitlab_backup.py:247 | A project is ungrouped exactly when it is listed globally and its id is not among the grouped ids. There are never more ungrouped projects than listed ones. |
| Partition.UngroupedIsSubsequence | gitlab_backup.py:280 | The ungrouped projects keep the global listing's order. |
| Partition.PartitionIsSplit | gitlab_backup.py:247 | The projects with a grouped id and the ungrouped projects together are the global listing, each project once (as multisets). |
| Partition.PartitionCoversIds | gitlab_backup.py:275-280 | Every globally listed id is grouped or belongs to an ungrouped project, and no ungrouped project has a grouped id. |
| MirrorSync.CreatedShape | gitlab_backup.py:200-205 | A clone creates its target and the leading directories below the group directory, all inside that group directory; only the target has the full depth. With an absolute root it creates exactly `project_dir` and has no leading directories to leave behind. |
| MirrorSync.Count | gitlab_backup.py:178-219 | `cloned_projects` grows exactly when the outcome is a clone. |
| MirrorSync.Step | gitlab_backup.py:166-219 | A call is skipped exactly when `project_dir` existed. A clone happens only into a target that did not exist, and the target exists afterwards. The group directory always exists afterwards. (What a failed clone leaves is stated by `MirrorSync.StepEffect` and `MirrorSync.StepFailsLeavingLeadingDirs`.) |
| MirrorSync.RunJobs | gitlab_backup.py:178-219 | Over a run, cloned + skipped + failed equals the number of calls, and no directory disappears. |
| MirrorSync.StepEffect | gitlab_backup.py:166-214 | A call is skipped exactly when its destination existed. It creates the group directory and, when it clones, the clone's directories; a skip creates nothing else, and a failure at most the target's leading directories, never the target. With an absolute root the destination exists afterwards exactly when the call did not fail. |
| MirrorSync.StepFailsLeavingLeadingDirs | gitlab_backup.py:183-219 | An absent destination and target, a URL with a scheme and a failing clone: the call counts as failed, the target stays absent and its leading directories remain. With an absolute root only the group directory is added; with a relative one `<output>/<group>/<output>/<group>` is left behind. |
| MirrorSync.StepClones | gitlab_backup.py:183-214 | An absent destination and target, a URL with a scheme and a successful clone: the call counts as cloned and creates the target with its leading directories. With an absolute root that is the destination. |
| MirrorSync.StepSkips | gitlab_backup.py:166-181 | An existing destination: the call counts as skipped and only (re)creates the group directory. |
| MirrorSync.ProjectDirsMembers | gitlab_backup.py:170 | The destinations of a run are exactly `<output>/<group>/<path>` of its calls. |
| MirrorSync.TargetsAbsolute | gitlab_backup.py:200-205 | With an absolute root the clone targets of a run are its destinations. |
| MirrorSync.RunFootprint | gitlab_backup.py:166-214 | A run only adds directories: its calls' group directories, all of which it creates, and the directories its clones create. |
| MirrorSync.RunAllPresentSkips | gitlab_backup.py:178-181 | When every destination exists, every call is skipped and only group directories are created. |
| MirrorSync.RunWithoutFailureLeavesAll | gitlab_backup.py:178-214 | With an absolute root, after a run without failures every destination exists. |
| MirrorSync.RerunSkipsEverything | gitlab_backup.py:178-181 | Idempotent re-run with an absolute root: after a run without failures, re-running the same calls skips all of them and changes nothing. |
| MirrorSync.DirsDepth | gitlab_backup.py:166-170 | Group directories lie one level below the output root and destinations two, so the two never coincide. Clone targets all have one depth, and clone directories lie between the group directory and the target. |
| MirrorSync.ClonesAreNewTargets | gitlab_backup.py:178-214 | A run clones exactly as many times as it creates clone targets that did not exist before. |
| MirrorSync.AtMostOneClonePerTarget | gitlab_backup.py:178-214 | A run clones at most once per distinct clone target, and with an absolute root at most once per distinct destination. |
| MirrorSync.DestinationStaysAbsent | gitlab_backup.py:178-205 | With a relative root, a destination absent before a run is absent after it, whatever the run clones (unless the project path equals the first component of its group directory). |
| MirrorSync.RelativeRunMissesDestinations | gitlab_backup.py:178-205 | With a relative root and no destination present, a run skips nothing and leaves every destination absent. |
| MirrorSync.AllClonedLeavesTargets | gitlab_backup.py:200-214 | A run in which every call clones leaves every clone target in place. |
| MirrorSync.OccupiedTargetsFail | gitlab_backup.py:178-214 | When every group directory and clone target exists but no destination does, every call fails and the tree is unchanged. |
| MirrorSync.RelativeRerunFailsAll | gitlab_backup.py:178-214 | With a relative root, a first run without failures clones every project yet leaves no destination; re-running the same calls fails every one of them and changes nothing. |
| MirrorSync.DefaultOutputRerunFails | gitlab_backup.py:200-205 | For the default root `gitlab_backup`, group `a` and project `p1`: the mirror lands at `gitlab_backup/a/gitlab_backup/a/p1`, `gitlab_backup/a/p1` stays absent, and the next run counts the project as failed. |
| Backup.JobsInSnoc | gitlab_backup.py:265-267 | The calls for a listing's first `j + 1` projects are those for its first `j` followed by the call for project `j`: one call per project, in listing order. |
| Backup.JobsMatchTotal | gitlab_backup.py:236-286 | The number of clone calls `backup_all` makes equals the `total_projects` it announces. |
| Backup.GroupJobsCount | gitlab_backup.py:236-239 | The grouped pass makes as many calls as the per-group listings hold projects. |
| Backup.GroupedIdsMembers | gitlab_backup.py:243-246 | An id is grouped exactly when some group's listing holds a project with that id. |
| Backup.GroupJobsFromListings | gitlab_backup.py:255-267 | Every grouped clone call clones a project of some group's listing into that group's `path`. |
| Backup.GroupJobsCoverListings | gitlab_backup.py:255-267 | Every project of every group's listing gets a clone call into that group's `path`. |
| Backup.UngroupedJobs | gitlab_backup.py:270-286 | Without `include_ungrouped` there is no ungrouped pass. With it, every further call clones into `未分组` a globally listed project whose id no group listing holds, and every such project gets that call. |
| Backup.EveryListedProjectCloned | gitlab_backup.py:255-286 | With `include_ungrouped`, every globally listed project gets a clone call: a grouped one, matched by id, when some group listing holds its id, and otherwise one into `未分组`. |
| Backup.GroupedAndUngroupedDisjoint | gitlab_backup.py:255-286 | No project id has both a grouped and an ungrouped clone call. |
| Backup.ProjectInTwoGroupsClonedTwice | gitlab_backup.py:255-267 | A project that two group listings hold gets a clone call into each group's directory, and its id is grouped. |
| Backup.ScenarioJobs | gitlab_backup.py:236-286 | One group with project 10 and a global listing of projects 10 and 20: ungrouped is `[20]`, the total is 2, and the calls are 10 into the group and 20 into `未分组`. Without `include_ungrouped`: total 1, only the grouped call. |
| Backup.ScenarioClonesBoth | gitlab_backup.py:221-289 | In that scenario, from a tree without either destination or clone target and with every clone succeeding: counters (2, 0, 0), and both clone targets exist. With an absolute root those are the two destinations. |
| Backup.ScenarioSkipsExisting | gitlab_backup.py:178-181 | In that scenario, with the group project's destination already present: it is skipped, without a clone, the other is cloned, and the counters are (1, 1, 0). |
| Backup.CloneThenClone | gitlab_backup.py:166-214 | Two calls into different group directories, with absent destinations and targets and successful clones: both clone and leave their targets. |
| Backup.SkipThenClone | gitlab_backup.py:166-214 | A call with an existing destination and then one with an absent destination and target: the first is skipped and the second cloned. |
| Backup.FileSystem.Exists | gitlab_backup.py:178 | `exists()` is true exactly for an existing directory. |
| Backup.FileSystem.Mkdir | gitlab_backup.py:167 | `mkdir(exist_ok=True)` adds the directory and nothing else. |
| Backup.FileSystem.MakeDirs | gitlab_backup.py:200-205 | A successful clone adds its target and its missing leading directories, and nothing else. |
| Backup.FileSystem.MakeLeadingDirs | gitlab_backup.py:200-205 | A failed clone adds the target's missing leading directories and nothing else; the target exists afterwards only if it existed before. |
| Backup.GitLabBackup.constructor | gitlab_backup.py:31-58 | The server URL has its trailing `/` stripped. The counters start at zero, and the output directory is created. |
| Backup.GitLabBackup.MakeRequest | gitlab_backup.py:60-100 | The result is `Fetch(pages)`. The requests sent are pages 1, 2, …, `RequestCount(pages)`, each with `per_page` 100. |
| Backup.GitLabBackup.GetGroups | gitlab_backup.py:102-113 | Returns the fetched group listing and sets `total_groups` to its length. |
| Backup.GitLabBackup.GetProjects | gitlab_backup.py:115-133 | Returns the group's listing for a truthy id, and the global listing for no id or id 0. |
| Backup.GitLabBackup.GroupedProjectIds | gitlab_backup.py:243-246 | The `set.update` loop builds exactly the union of the group listings' ids. |
| Backup.GitLabBackup.CountProjects | gitlab_backup.py:236-248 | The counting loops compute `TotalProjects`: the per-group listing lengths plus, with `include_ungrouped`, the number of ungrouped projects. |
| Backup.GitLabBackup.CloneProject | gitlab_backup.py:148-219 | Matches one step of `RunJobs` on the filesystem and the counters. An existing destination: skipped increases by 1, the result is true, and the other counters are unchanged. Otherwise exactly one of cloned or failed increases by 1, and the result is true exactly on a successful clone. |
| Backup.GitLabBackup.CloneAll | gitlab_backup.py:265-267 | The inner loop over one listing extends the run by that listing's calls, on both the filesystem and the counters. |
| Backup.GitLabBackup.CloneGroups | gitlab_backup.py:253-267 | The grouped pass's loops make the calls of `GroupJobs`, on both the filesystem and the counters, and the counters grow by the listed count. |
| Backup.GitLabBackup.BackupAll | gitlab_backup.py:221-289 | `total_groups` is the number of groups, and `total_projects` is the per-group sum plus the ungrouped count when `include_ungrouped` is set. Filesystem and counters are those of `RunJobs` over `Jobs`, and the counters grow by exactly `total_projects`. |

## Findings

| source | as written | input that shows it | evidently intended | confidence | as-written member | corrected member |
|---|---|---|---|---|---|---|
| gitlab_backup.py:200-205 | `git clone --mirror <url> str(project_dir)` runs with `cwd=str(group_dir)`, so a relative `project_dir` is resolved below the group directory a second time | `--output gitlab_backup` (the default, relative), group `a`, project `p1`: the mirror lands at `gitlab_backup/a/gitlab_backup/a/p1`, `gitlab_backup/a/p1` never exists, and the next run fails the project (git refuses the occupied target) instead of skipping it | the mirror lands at `project_dir`, the path `exists()` checks, as it does for an absolute root; a re-run after a run without failures then skips every project | not executed | MirrorSync.DefaultOutputRerunFails | MirrorSync.RerunSkipsEverything |

## Left out

- HTTP itself (`requests.get`, `raise_for_status`, `response.json()`) is not modelled. Each endpoint is a finite sequence of page answers. `Page` is a decoded JSON array and `RequestError` is any `RequestException`. A server that answers full pages forever, where the Python loop never ends, is excluded by that finiteness.
- The request URL, the `Authorization` header and `api_url` are not modelled. Only the page and `per_page` parameters are (`Pagination.Request`).
- `subprocess.run(['git', 'clone', '--mirror', …])` becomes the `gitOk` oracle. Its working directory is modelled through the clone target. Its captured output and stderr are not modelled.
- MirrorSync.Step: every clone failure with an absent target is taken to happen after git created the target's leading directories. A failure git reports before that, such as a malformed command line, would leave them absent; the oracle does not tell these apart.
- Git accepts an existing empty directory as its target. The model treats every existing target as refused, because it does not track directory contents.
- Git's leading directories for a relative target can coincide with a destination when a project's `path` equals the first component of its group directory. `MirrorSync.DestinationStaysAbsent`, `MirrorSync.RelativeRunMissesDestinations` and `MirrorSync.RelativeRerunFailsAll` exclude that case (`NotShadowed`).
- MirrorSync.RunWithoutFailureLeavesAll: states that destinations exist only for an absolute output root, because with a relative root the clones land elsewhere (see Findings).
- MirrorSync.RerunSkipsEverything: states idempotency only for an absolute output root; with a relative root the re-run fails every project (`MirrorSync.RelativeRerunFailsAll`).
- Backup.ScenarioClonesBoth: states that the destinations exist only for an absolute output root; for a relative one it states that the clone targets exist.
- A project that two group listings hold is cloned once into each group's directory (`Backup.ProjectInTwoGroupsClonedTwice`). The code does not deduplicate grouped projects, and neither does the model.
- Path handling is simplified. Paths are sequences of components, and `pathlib` normalisation of empty, `.` or slash-containing names is not modelled.
- Logging, the `[current/total]` progress prefix and the `current_project` counter are presentation only. `Backup.JobsMatchTotal` states that the count of calls reaches the announced total.
- `start_time`, `time.time()` and the elapsed-time float in `_show_final_stats` are left out as wall-clock time. `_show_final_stats` only logs.
- `main`, argparse and the `git --version` check are command-line plumbing.
- `get_branches` is a one-line call of the request helper with no further logic.
- A record without the `id`, `name`, `path` or `http_url_to_repo` key raises KeyError. The model's records always have these fields. A KeyError inside `clone_project` before its `try` would propagate out of `backup_all`.
- `group_dict` (gitlab_backup.py:233) is built but never used.
- The default `group_name` "其他" of `clone_project` is never used by `backup_all`, which always passes a name.
- Project and group ids are compared as they come, unnormalised, because that is what the code does (`p['id'] not in grouped_project_ids`).
- Ungrouped projects go into the directory `未分组`, the literal the code uses.
- On a failed request the code returns the records gathered so far and does not raise; so does the model (`Pagination.FailedRequestKeepsEarlierPages`).
- `backup_all` does not reset `cloned_projects`, `skipped_projects` or `failed_projects`. `Backup.GitLabBackup.BackupAll` therefore states them as the old values plus the run's counts.
- Each repeated `get_projects` call of a group is assumed to return the same listing, because the server is a fixed snapshot. A server that changes between the counting pass and the cloning pass is not modelled.
- URLs such as `http://host/group/proj.git` and `http://user@host/group/proj.git` are covered by `CloneUrl.InsertsCredential` and `CloneUrl.ReplacesUserInfo` for every scheme, host and path, not as fixed strings. The scenario lemmas likewise take the projects, the group and the output root as parameters.
- `mkdir(exist_ok=True)` without `parents=True` raises when the parent is missing. The model's `Mkdir` always succeeds. Group directories lie directly below the output root, which exists by then. An output root whose parent is missing makes the code's constructor raise, and the model does not capture that.
