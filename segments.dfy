/** The left-hand parts of the status line (statusline.js:46-165), built
    from facts gathered beforehand: the session input, git's outputs, the
    package manifest, the commit age in seconds, the todo list and the
    statuses of the task files. */
module Segments {
  import opened Wrappers
  import opened Palette
  import opened Strings
  import Decimal

  // ----- model name (statusline.js:21, 49-50) -----

  /** `(display_name || 'Claude').replace('Claude ', '')`; an absent name is "". */
  function ModelShort(displayName: string): string
  {
    ReplaceFirst(if displayName == "" then "Claude" else displayName, "Claude ", "")
  }

  /** A name beginning with "Claude " loses exactly that prefix, and only that. */
  lemma ModelShortDropsPrefix(displayName: string)
    requires |displayName| >= 7 && displayName[..7] == "Claude "
    ensures ModelShort(displayName) == displayName[7..]
  {
    assert OccursAt(displayName, "Claude ", 0);
  }

  /** A name without "Claude " is kept as it is; an absent one becomes "Claude". */
  lemma ModelShortKeeps(displayName: string)
    requires displayName != ""
    requires forall j: nat :: !OccursAt(displayName, "Claude ", j)
    ensures ModelShort(displayName) == displayName
  {
  }

  lemma ModelShortDefault()
    ensures ModelShort("") == "Claude"
  {
    assert !OccursAt("Claude", "Claude ", 0);
  }

  /** Only the first occurrence is replaced. */
  lemma ModelShortFirstOnly()
    ensures ModelShort("Claude Claude Opus") == "Claude Opus"
  {
    ModelShortDropsPrefix("Claude Claude Opus");
  }

  function ModelSegment(displayName: string): string
  {
    Purple + "◆" + Reset + " " + Dim + ModelShort(displayName) + Reset
  }

  // ----- git branch and flags (statusline.js:52-71) -----

  /** Git's answers; "" where git printed nothing or failed.  `ahead` and
      `behind` are the counts of `rev-list --count`, absent when empty. */
  datatype GitFacts = GitFacts(
    branch: string, status: string, upstream: string,
    ahead: Option<nat>, behind: Option<nat>)

  function CountFlag(colour: string, arrow: string, n: Option<nat>): string
  {
    if n.Some? && n.value > 0 then colour + arrow + Decimal.Show(n.value) + Reset else ""
  }

  function GitFlags(g: GitFacts): string
  {
    (if g.status != "" then Yellow + "*" + Reset else "")
    + (if g.upstream != "" then CountFlag(Green, "↑", g.ahead) + CountFlag(Red, "↓", g.behind) else "")
  }

  function GitSegment(g: GitFacts): Option<string>
  {
    if g.branch == "" then None
    else Some(Cyan + "⌥" + Reset + " " + Dim + g.branch + Reset + GitFlags(g))
  }

  // ----- stash count (statusline.js:73-80) -----

  /** `stashList.split('\n').filter(Boolean).length`. */
  function StashCount(stashList: string): nat
  {
    CountNonEmpty(Split(stashList, "\n"))
  }

  predicate HasNonNewline(s: string)
  {
    exists k :: 0 <= k < |s| && s[k] != '\n'
  }

  /** The count is positive exactly when some character is not a newline. */
  lemma {:induction false} StashCountPositive(s: string)
    ensures StashCount(s) > 0 <==> HasNonNewline(s)
    decreases |s|
  {
    match IndexOf(s, "\n")
    case None =>
      NoNewline(s, |s|);
      if s != [] {
        assert s[0] != '\n';
      }
    case Some(k) =>
      var head, rest := s[..k], s[k + 1..];
      assert Split(s, "\n") == [head] + Split(rest, "\n");
      assert StashCount(s) == (if head == "" then 0 else 1) + StashCount(rest);
      StashCountPositive(rest);
      NoNewline(s, k);
      assert s[k] == '\n' by { assert s[k..k + 1] == "\n"; }
      NonNewlineAround(s, k);
  }

  /** Around a newline at `k` with none before it, a character other than a
      newline is in the text before `k` (then at 0) or in the text after it. */
  lemma NonNewlineAround(s: string, k: nat)
    requires k < |s| && s[k] == '\n'
    requires forall j :: 0 <= j < k ==> s[j] != '\n'
    ensures HasNonNewline(s) <==> k > 0 || HasNonNewline(s[k + 1..])
  {
    var rest := s[k + 1..];
    if HasNonNewline(s) && k == 0 {
      var m :| 0 <= m < |s| && s[m] != '\n';
      assert rest[m - 1] == s[m];
    }
    if HasNonNewline(rest) {
      var m :| 0 <= m < |rest| && rest[m] != '\n';
      assert s[k + 1 + m] == rest[m];
    }
    if k > 0 {
      assert s[0] != '\n';
    }
  }

  /** Before the first newline found by `indexOf` there is none. */
  lemma NoNewline(s: string, k: nat)
    requires k <= |s|
    requires forall j: nat :: j < k ==> !OccursAt(s, "\n", j)
    ensures forall j :: 0 <= j < k ==> s[j] != '\n'
  {
    forall j | 0 <= j < k ensures s[j] != '\n' {
      assert !OccursAt(s, "\n", j);
      assert s[j..j + 1] == [s[j]];
    }
  }

  function StashSegment(stashList: string): Option<string>
  {
    if stashList != "" && StashCount(stashList) > 0
    then Some(Yellow + "⚑" + Reset + " " + Dim + Decimal.Show(StashCount(stashList)) + Reset)
    else None
  }

  // ----- directory and worktree marker (statusline.js:82-97) -----

  /** `worktreeLabel` from `git worktree list --porcelain` and
      `git rev-parse --show-toplevel`. */
  function WorktreeLabel(worktreeList: string, topLevel: string): string
  {
    if worktreeList == "" || CountNonEmpty(Split(worktreeList, "\n\n")) <= 1 then ""
    else
      var mainPath := ReplaceFirst(Split(worktreeList, "\n")[0], "worktree ", "");
      if mainPath != "" && topLevel != "" && topLevel != mainPath
      then " " + Pink + "⊕wt" + Reset else ""
  }

  function DirSegment(dirName: string, worktreeList: string, topLevel: string): string
  {
    Blue + "⌂" + Reset + " " + Dim + dirName + Reset + WorktreeLabel(worktreeList, topLevel)
  }

  // ----- package version (statusline.js:99-108) -----

  /** `version` is absent when there is no manifest, it does not parse or
      it has no version. */
  function VersionSegment(version: Option<string>): Option<string>
  {
    if version.Some? && version.value != "" then Some(Green + "v" + version.value + Reset) else None
  }

  // ----- commit age (statusline.js:110-121) -----

  datatype TimeUnit = Minutes | Hours | Days | Weeks

  datatype Age = JustNow | Ago(count: nat, unit: TimeUnit)

  function UnitSeconds(u: TimeUnit): nat
  {
    match u
    case Minutes => 60
    case Hours => 3600
    case Days => 86400
    case Weeks => 604800
  }

  function UnitSuffix(u: TimeUnit): string
  {
    match u
    case Minutes => "m"
    case Hours => "h"
    case Days => "d"
    case Weeks => "w"
  }

  /** The age of the last commit, `secs` seconds ago (negative when the
      clock is behind): under a minute is "just now"; otherwise the largest
      unit that fits, counted down to whole units. */
  function AgeOf(secs: int): (a: Age)
    ensures a == JustNow <==> secs < 60
    ensures a.Ago? ==> UnitSeconds(a.unit) <= secs
    ensures a.Ago? ==> a.count * UnitSeconds(a.unit) <= secs < (a.count + 1) * UnitSeconds(a.unit)
    ensures a.Ago? && a.unit == Minutes ==> secs < UnitSeconds(Hours)
    ensures a.Ago? && a.unit == Hours ==> secs < UnitSeconds(Days)
    ensures a.Ago? && a.unit == Days ==> secs < UnitSeconds(Weeks)
  {
    if secs < 60 then JustNow
    else if secs < 3600 then Ago(secs / 60, Minutes)
    else if secs < 86400 then Ago(secs / 3600, Hours)
    else if secs < 604800 then Ago(secs / 86400, Days)
    else Ago(secs / 604800, Weeks)
  }

  function AgeText(a: Age): string
  {
    match a
    case JustNow => "just now"
    case Ago(n, u) => Decimal.Show(n) + UnitSuffix(u) + " ago"
  }

  /** The shown count is at least 1 and below the next unit's ratio. */
  lemma AgeCountBounds(secs: int)
    requires AgeOf(secs).Ago?
    ensures var a := AgeOf(secs);
            1 <= a.count &&
            (a.unit == Minutes ==> a.count < 60) &&
            (a.unit == Hours ==> a.count < 24) &&
            (a.unit == Days ==> a.count < 7)
  {
  }

  function AgeSegment(commitSecs: Option<int>): Option<string>
  {
    if commitSecs.Some? then Some(Grey + "⏱ " + AgeText(AgeOf(commitSecs.value)) + Reset) else None
  }

  // ----- current task (statusline.js:123-146) -----

  /** One entry of the todo list; a missing string field is "". */
  datatype Todo = Todo(status: string, activeForm: string, subject: string)

  /** `todos.find(t => t.status === 'in_progress')`, as an index. */
  function FirstInProgress(todos: seq<Todo>): (r: Option<nat>)
    ensures r.Some? ==> r.value < |todos| && todos[r.value].status == "in_progress"
    ensures forall j :: 0 <= j < |todos| && (r.None? || j < r.value) ==> todos[j].status != "in_progress"
  {
    if todos == [] then None
    else if todos[0].status == "in_progress" then Some(0)
    else match FirstInProgress(todos[1..])
      case None => None
      case Some(k) => Some(k + 1)
  }

  /** `todos.filter(t => t.status === 'completed').length`. */
  function CountCompleted(todos: seq<Todo>): (n: nat)
    ensures n <= |todos|
  {
    if todos == [] then 0
    else (if todos[0].status == "completed" then 1 else 0) + CountCompleted(todos[1..])
  }

  datatype TaskSummary =
    | Current(title: string, done: nat, total: nat)
    | Tally(done: nat, total: nat)
    | NoTasks

  function Summarize(todos: seq<Todo>): TaskSummary
  {
    var done := CountCompleted(todos);
    match FirstInProgress(todos)
    case Some(k) =>
      var t := todos[k];
      Current(if t.activeForm != "" then t.activeForm else t.subject, done, |todos|)
    case None =>
      if |todos| > 0 then Tally(done, |todos|) else NoTasks
  }

  /** The summary names the first task in progress if there is one, else
      tallies a non-empty list; an empty list shows nothing.  At most all
      tasks are done. */
  lemma SummarizeCases(todos: seq<Todo>)
    ensures Summarize(todos).NoTasks? <==> todos == []
    ensures Summarize(todos).Current? <==> exists j :: 0 <= j < |todos| && todos[j].status == "in_progress"
    ensures Summarize(todos).Current? ==>
              var k := FirstInProgress(todos).value;
              Summarize(todos).title ==
                (if todos[k].activeForm != "" then todos[k].activeForm else todos[k].subject)
    ensures !Summarize(todos).NoTasks? ==>
              Summarize(todos).total == |todos| && Summarize(todos).done <= Summarize(todos).total
  {
    if FirstInProgress(todos).Some? {
      var k := FirstInProgress(todos).value;
      assert todos[k].status == "in_progress";
    }
  }

  function TodoSegment(todos: Option<seq<Todo>>): Option<string>
  {
    if todos.None? then None
    else match Summarize(todos.value)
      case Current(title, done, total) =>
        Some(Magenta + "▸" + Reset + " " + Bold + title + Reset + " "
             + Grey + "[" + Decimal.Show(done) + "/" + Decimal.Show(total) + "]" + Reset)
      case Tally(done, total) =>
        Some(Green + "✓" + Reset + " " + Dim + Decimal.Show(done) + "/" + Decimal.Show(total)
             + " tasks" + Reset)
      case NoTasks => None
  }

  // ----- running sub-agents (statusline.js:148-165) -----

  /** The status of each task file of the session; absent when unreadable. */
  function RunningCount(statuses: seq<Option<string>>): (n: nat)
    ensures n <= |statuses|
  {
    if statuses == [] then 0
    else (if statuses[0] == Some("running") then 1 else 0) + RunningCount(statuses[1..])
  }

  /** No agent is counted exactly when no file says "running". */
  lemma {:induction false} RunningCountZero(statuses: seq<Option<string>>)
    ensures RunningCount(statuses) == 0 <==>
            forall j :: 0 <= j < |statuses| ==> statuses[j] != Some("running")
  {
    if statuses != [] {
      RunningCountZero(statuses[1..]);
      assert forall j :: 1 <= j < |statuses| ==> statuses[j] == statuses[1..][j - 1];
    }
  }

  lemma {:induction false} RunningCountAppend(statuses: seq<Option<string>>, s: Option<string>)
    ensures RunningCount(statuses + [s]) == RunningCount(statuses) + (if s == Some("running") then 1 else 0)
  {
    if statuses == [] {
      assert statuses + [s] == [s];
    } else {
      assert (statuses + [s])[1..] == statuses[1..] + [s];
      RunningCountAppend(statuses[1..], s);
    }
  }

  /** The `running++` loop. */
  method CountRunning(statuses: seq<Option<string>>) returns (running: nat)
    ensures running == RunningCount(statuses)
  {
    running := 0;
    for i := 0 to |statuses|
      invariant running == RunningCount(statuses[..i])
    {
      assert statuses[..i + 1] == statuses[..i] + [statuses[i]];
      RunningCountAppend(statuses[..i], statuses[i]);
      if statuses[i] == Some("running") {
        running := running + 1;
      }
    }
    assert statuses[..|statuses|] == statuses;
  }

  /** "1 agent", "2 agents", ... */
  function AgentText(running: nat): string
  {
    Decimal.Show(running) + " agent" + (if running > 1 then "s" else "")
  }

  /** The plural appears exactly when more than one agent runs. */
  lemma AgentTextPlural(running: nat)
    ensures EndsWith(AgentText(running), " agents") <==> running > 1
  {
    var t := AgentText(running);
    if running <= 1 {
      assert t[|t| - 1] == 't';
    }
  }

  function AgentPart(running: nat): string
  {
    Orange + "⊙" + Reset + " " + Dim + AgentText(running) + Reset
  }

  function AgentSegment(statuses: Option<seq<Option<string>>>): Option<string>
  {
    if statuses.Some? && RunningCount(statuses.value) > 0
    then Some(AgentPart(RunningCount(statuses.value)))
    else None
  }

  // ----- the list of parts -----

  /** Everything the parts are made of.  `displayName` is "" when absent;
      `dirName` is the base name of the working directory; the git strings
      are "" when git printed nothing; `commitSecs` is the age of the last
      commit in seconds; `todos` and `taskStatuses` are absent when there
      is no session, no directory or nothing readable. */
  datatype Facts = Facts(
    displayName: string, dirName: string,
    git: GitFacts, stashList: string, worktreeList: string, topLevel: string,
    version: Option<string>, commitSecs: Option<int>,
    todos: Option<seq<Todo>>, taskStatuses: Option<seq<Option<string>>>)

  function Opt(o: Option<string>): seq<string>
  {
    if o.Some? then [o.value] else []
  }

  /** The parts in priority order. */
  function Parts(f: Facts): seq<string>
  {
    [ModelSegment(f.displayName)]
    + Opt(GitSegment(f.git))
    + Opt(StashSegment(f.stashList))
    + [DirSegment(f.dirName, f.worktreeList, f.topLevel)]
    + Opt(VersionSegment(f.version))
    + Opt(AgeSegment(f.commitSecs))
    + Opt(TodoSegment(f.todos))
    + Opt(AgentSegment(f.taskStatuses))
  }

  /** The model part comes first and is always there; so is the directory
      part; at most eight parts exist. */
  lemma PartsShape(f: Facts)
    ensures 2 <= |Parts(f)| <= 8
    ensures Parts(f)[0] == ModelSegment(f.displayName)
    ensures DirSegment(f.dirName, f.worktreeList, f.topLevel) in Parts(f)
  {
    var p := Parts(f);
    var front := [ModelSegment(f.displayName)] + Opt(GitSegment(f.git)) + Opt(StashSegment(f.stashList));
    assert p[|front|] == DirSegment(f.dirName, f.worktreeList, f.topLevel);
  }

  lemma PartsStart(f: Facts)
    ensures |Parts(f)| > 0 && Parts(f)[0] == ModelSegment(f.displayName)
  {
  }

  /** `parts.push(...)` step by step; a segment that does not exist is not pushed. */
  method CollectParts(f: Facts) returns (parts: seq<string>)
    ensures parts == Parts(f)
  {
    parts := [ModelSegment(f.displayName)];
    parts := parts + Opt(GitSegment(f.git));
    parts := parts + Opt(StashSegment(f.stashList));
    parts := parts + [DirSegment(f.dirName, f.worktreeList, f.topLevel)];
    parts := parts + Opt(VersionSegment(f.version));
    parts := parts + Opt(AgeSegment(f.commitSecs));
    parts := parts + Opt(TodoSegment(f.todos));
    if f.taskStatuses.Some? {
      var running := CountRunning(f.taskStatuses.value);
      if running > 0 {
        parts := parts + [AgentPart(running)];
      }
    }
  }
}
