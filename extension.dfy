/**
 * The decision logic of the command layer (src/extension.ts): the repository
 * picker's move-to-front ordering, the one-command-at-a-time gate every
 * command is registered through, the ordered validation of a new project's
 * name, the mapping from the options picker to the two creation flags, and
 * the filters that choose which unsaved documents a backup saves and adds
 * back to the index.
 *
 * Everything these pieces ask of the outside world (the open repositories,
 * the active editor's repository, the remote repository list, the contents
 * of the project home directory, the open documents, the user's answers) is
 * an input.
 */
module Commands {
  import opened Wrappers
  import opened Utils

  // ---------------------------------------------------------------------------
  // Repository picker (src/extension.ts:908-943)
  // ---------------------------------------------------------------------------

  /** Identity of an open git repository; the source compares them by object identity. */
  type RepoId = nat

  /** `RepositoryPick`: a repository together with its position in the host's list. */
  datatype RepositoryPick = RepositoryPick(repository: RepoId, index: nat)

  /** One pick per open repository, carrying the repository and its position in the list. */
  function Picks(repos: seq<RepoId>): (r: seq<RepositoryPick>)
    ensures |r| == |repos|
    ensures forall k :: 0 <= k < |r| ==> r[k] == RepositoryPick(repos[k], k)
  {
    seq(|repos|, k requires 0 <= k < |repos| => RepositoryPick(repos[k], k))
  }

  /**
   * Whether a pick holds the active editor's repository. When there is no
   * active editor, or the host knows no repository for its document, nothing
   * matches.
   */
  predicate IsActive(pick: RepositoryPick, active: Option<RepoId>) {
    active == Some(pick.repository)
  }

  /** The position of the first pick of the active repository, or -1 when none matches. */
  function FirstActive(picks: seq<RepositoryPick>, active: Option<RepoId>): (i: int)
    ensures -1 <= i < |picks|
    ensures 0 <= i ==> IsActive(picks[i], active)
    ensures forall k :: 0 <= k < |picks| && (i < 0 || k < i) ==> !IsActive(picks[k], active)
  {
    if picks == [] then -1
    else if IsActive(picks[0], active) then 0
    else
      var j := FirstActive(picks[1..], active);
      assert forall k :: 1 <= k < |picks| ==> picks[k] == picks[1..][k - 1];
      if j < 0 then -1 else j + 1
  }

  /** What `pickRepository` ends with: it throws on an empty list, or resolves to the chosen repository. */
  datatype PickResult = NoRepositories | Chosen(repository: Option<RepoId>)

  /**
   * `pickRepository`. `choice` is the user's answer to the quick pick: the
   * position of the chosen item in the list shown, or None when the picker
   * was dismissed. The picks shown are the host's repositories with the
   * active one (its first occurrence) moved to the front and the others in
   * their original order; with no active match the order is unchanged.
   */
  method PickRepository(repos: seq<RepoId>, active: Option<RepoId>, choice: Option<nat>)
    returns (shown: seq<RepositoryPick>, r: PickResult)
    requires choice.Some? ==> choice.value < |repos|
    ensures r.NoRepositories? <==> repos == []
    ensures repos == [] ==> shown == []
    ensures |shown| == |repos|
    ensures multiset(shown) == multiset(Picks(repos))
    ensures forall k :: 0 <= k < |shown| ==> shown[k].index < |repos| && shown[k].repository == repos[shown[k].index]
    ensures var i := FirstActive(Picks(repos), active);
            && (i < 0 ==> shown == Picks(repos))
            && (0 <= i ==> shown[0].index == i && IsActive(shown[0], active))
            && (0 <= i ==> forall a, b :: 1 <= a < b < |shown| ==> shown[a].index < shown[b].index)
    ensures repos != [] ==> r == Chosen(if choice.None? then None else Some(shown[choice.value].repository))
  {
    if repos == [] {
      return [], NoRepositories;
    }
    var picks := Picks(repos);
    ghost var original := picks;
    var index := FirstActive(picks, active);
    if index > -1 {
      // Cut the active pick out of the list and put it back in front.
      var moved := picks[index];
      picks := picks[..index] + picks[index + 1..];
      picks := [moved] + picks;
      MovedToFront(repos, index, picks);
    } else {
      assert forall k :: 0 <= k < |picks| ==> picks[k].index == k;
    }
    shown := picks;
    r := Chosen(if choice.None? then None else Some(shown[choice.value].repository));
  }

  /** The facts about one pick moved to the front of the host's list. */
  lemma MovedToFront(repos: seq<RepoId>, i: nat, m: seq<RepositoryPick>)
    requires i < |repos|
    requires var p := Picks(repos); m == [p[i]] + (p[..i] + p[i + 1..])
    ensures |m| == |repos|
    ensures multiset(m) == multiset(Picks(repos))
    ensures m[0] == Picks(repos)[i]
    ensures forall k :: 0 <= k < |m| ==> m[k].index < |repos| && m[k].repository == repos[m[k].index]
    ensures forall a, b :: 1 <= a < b < |m| ==> m[a].index < m[b].index
  {
    var p := Picks(repos);
    MovedKeepsPicks(p, i, m);
    MovedIndices(p, i, m);
    forall k | 0 <= k < |m|
      ensures m[k].index < |repos| && m[k].repository == repos[m[k].index]
    {
      assert m[k] in multiset(p);
    }
  }

  lemma MovedKeepsPicks<T>(p: seq<T>, i: nat, m: seq<T>)
    requires i < |p| && m == [p[i]] + (p[..i] + p[i + 1..])
    ensures multiset(m) == multiset(p)
  {
    assert p == p[..i] + [p[i]] + p[i + 1..];
  }

  lemma MovedIndices(p: seq<RepositoryPick>, i: nat, m: seq<RepositoryPick>)
    requires i < |p| && m == [p[i]] + (p[..i] + p[i + 1..])
    requires forall k :: 0 <= k < |p| ==> p[k].index == k
    ensures forall a, b :: 1 <= a < b < |m| ==> m[a].index < m[b].index
  {
    forall k | 1 <= k < |m|
      ensures m[k].index == (if k <= i then k - 1 else k)
    {
      if k <= i {
        assert m[k] == p[..i][k - 1] == p[k - 1];
      } else {
        assert m[k] == p[i + 1..][k - 1 - i] == p[k];
      }
    }
  }

  // ---------------------------------------------------------------------------
  // The command gate (src/extension.ts:960-973)
  // ---------------------------------------------------------------------------

  type CommandId = nat
  type ErrorId = nat

  /**
   * What a command's callback does before it hands back its promise: it may
   * start other commands, in order, and then either return or throw. What the
   * promise does afterwards happens after the wrapper has already returned.
   */
  datatype Callback = Callback(nested: seq<Invocation>, throws: Option<ErrorId>)
  datatype Invocation = Invocation(command: CommandId, callback: Callback)

  /** What the registered wrapper hands back to the host. */
  datatype Dispatched = Rejected | Returned | Threw(error: ErrorId)

  /** How a callback that is allowed to run ends. */
  function Ending(callback: Callback): (d: Dispatched)
    ensures d != Rejected
    ensures d.Threw? <==> callback.throws.Some?
    ensures d.Threw? ==> d.error == callback.throws.value
  {
    if callback.throws.Some? then Threw(callback.throws.value) else Returned
  }

  /**
   * The module-level `extensionConfig`, which is non-null exactly while a
   * command's callback runs. `started` logs the commands whose callbacks ran;
   * `failures` counts the "please wait" notifications.
   */
  class CommandGate {
    var held: bool
    var started: seq<CommandId>
    var failures: nat

    constructor ()
      ensures !held && started == [] && failures == 0
    {
      held := false;
      started := [];
      failures := 0;
    }

    /**
     * The wrapper `registerCommand` installs. While the gate is held the
     * invocation only reports failure and its callback does not run.
     * Otherwise the gate is taken, the callback runs (every command it starts
     * meanwhile is therefore rejected), and the gate is released on the way
     * out whether the callback returned or threw.
     */
    method Dispatch(command: CommandId, callback: Callback) returns (r: Dispatched)
      modifies this
      decreases callback
      ensures held == old(held)
      ensures old(held) ==> r == Rejected && started == old(started) && failures == old(failures) + 1
      ensures !old(held) ==> r == Ending(callback)
      ensures !old(held) ==> started == old(started) + [command]
      ensures !old(held) ==> failures == old(failures) + |callback.nested|
    {
      if held {
        failures := failures + 1;
        return Rejected;
      }
      held := true;
      started := started + [command];
      ghost var afterStart := started;
      var k := 0;
      while k < |callback.nested|
        invariant 0 <= k <= |callback.nested|
        invariant held && started == afterStart
        invariant failures == old(failures) + k
      {
        var inner := callback.nested[k];
        var _ := Dispatch(inner.command, inner.callback);
        k := k + 1;
      }
      // Whether the callback returned or threw, the gate is released.
      held := false;
      r := Ending(callback);
    }
  }

  /**
   * The gate guards only the synchronous part of a command: a command started
   * from inside a callback is refused, but one started while the first
   * command's promise is still pending runs.
   */
  method GateScenario(first: CommandId, inner: CommandId, second: CommandId, error: ErrorId)
    returns (r1: Dispatched, r2: Dispatched, r3: Dispatched, started: seq<CommandId>, failures: nat, held: bool)
    ensures r1 == Returned && r2 == Threw(error) && r3 == Returned
    ensures started == [first, second, second] && failures == 1 && !held
  {
    var gate := new CommandGate();
    r1 := gate.Dispatch(first, Callback([Invocation(inner, Callback([], None))], None));
    r2 := gate.Dispatch(second, Callback([], Some(error)));
    r3 := gate.Dispatch(second, Callback([], None));
    started, failures, held := gate.started, gate.failures, gate.held;
  }

  // ---------------------------------------------------------------------------
  // Project name validation (src/extension.ts:500-577)
  // ---------------------------------------------------------------------------

  /** A repository on the remote server, as the repository list reports it. */
  datatype RemoteRepository = RemoteRepository(name: string, slug: string)

  /** What `stat` reports for an existing entry of the project home. */
  datatype FileKind = Directory | OtherFile

  /**
   * How the slug is prefixed: with `getIsAddPrefixToNewRepo()` set, by the
   * competition season of the current date and the chosen template's prefix.
   */
  datatype SlugSettings = SlugSettings(addPrefix: bool, year: nat, month: int, templateName: string)

  /**
   * Everything the validator reads besides the name: the slug settings, the
   * remote list (None when fetching it failed, which the validator then
   * treats as empty), the "create a remote repository" flag, and the entries
   * of the project home directory by name.
   */
  datatype ProjectContext = ProjectContext(
    settings: SlugSettings,
    remote: Option<seq<RemoteRepository>>,
    isCreateRemote: bool,
    projectHome: map<string, FileKind>)

  /** Which message the validator returns; the remote clashes word it by the flag. */
  datatype NameProblem =
    | NameLength
    | SlugLength
    | SlugTaken(createRemote: bool)
    | NameTaken(createRemote: bool)
    | FolderExists
    | FolderNotDirectory

  const MinNameLength := 3
  const MaxNameLength := 62

  function SlugPrefix(s: SlugSettings): (r: string)
    ensures !s.addPrefix ==> r == []
    ensures s.addPrefix ==> r == CompetitionSeasonString(s.year, s.month) + "-" + TemplateNamePrefix(s.templateName) + "-"
  {
    if s.addPrefix then CompetitionSeasonString(s.year, s.month) + "-" + TemplateNamePrefix(s.templateName) + "-"
    else []
  }

  /** `getProjectSlug` inside `createProject`. */
  function ProjectSlug(s: SlugSettings, name: string): (r: string)
    ensures |r| <= MaxSlugLength && AllSlugChars(r)
    ensures !s.addPrefix ==> r == ProjectSlugFromName(name)
  {
    var prefix := SlugPrefix(s);
    assert !s.addPrefix ==> prefix + name == name;
    ProjectSlugFromName(prefix + name)
  }

  /**
   * With the prefix setting on, the slug begins with the season, a dash and
   * the template's first part, provided that text is itself a clean slug that
   * the 62-character cut leaves whole.
   */
  lemma ProjectSlugStartsWithPrefix(s: SlugSettings, name: string)
    requires s.addPrefix
    requires var p := CompetitionSeasonString(s.year, s.month) + "-" + TemplateNamePrefix(s.templateName);
             p != [] && IsCleanSlug(p) && |p| <= MaxSlugLength
    ensures CompetitionSeasonString(s.year, s.month) + "-" + TemplateNamePrefix(s.templateName) <= ProjectSlug(s, name)
  {
    var p := CompetitionSeasonString(s.year, s.month) + "-" + TemplateNamePrefix(s.templateName);
    assert SlugPrefix(s) + name == p + "-" + name;
    SlugKeepsCleanPrefix(p, name);
  }

  /** In September 2024, a project from the `v5-4815lib` template gets a slug starting with `2425-v5`. */
  lemma ProjectSlugPrefixExample(name: string)
    ensures "2425-v5" <= ProjectSlug(SlugSettings(true, 2024, 9, "v5-4815lib"), name)
  {
    ExamplePrefix();
    ProjectSlugStartsWithPrefix(SlugSettings(true, 2024, 9, "v5-4815lib"), name);
  }

  lemma ExamplePrefix()
    ensures CompetitionSeasonString(2024, 9) + "-" + TemplateNamePrefix("v5-4815lib") == "2425-v5"
    ensures IsCleanSlug("2425-v5")
  {
    SeasonInAutumn();
    TemplateNamePrefixExample();
    JoinedExample("2425", "v5");
    ExamplePrefixIsClean();
  }

  lemma JoinedExample(season: string, template: string)
    requires season == "2425" && template == "v5"
    ensures season + "-" + template == "2425-v5"
  {
  }

  lemma ExamplePrefixIsClean()
    ensures IsCleanSlug("2425-v5")
  {
    var p := "2425-v5";
    assert forall i :: 0 <= i < |p| ==> IsSlugChar(p[i]);
    assert forall i :: 0 <= i < |p| && p[i] == '-' ==> i == 4;
  }

  function RemoteList(ctx: ProjectContext): seq<RemoteRepository> {
    ctx.remote.GetOr([])
  }

  predicate SlugOnRemote(remote: seq<RemoteRepository>, slug: string) {
    exists i :: 0 <= i < |remote| && remote[i].slug == slug
  }

  predicate NameOnRemote(remote: seq<RemoteRepository>, name: string) {
    exists i :: 0 <= i < |remote| && remote[i].name == name
  }

  /** Every check passes for `name` and the slug computed from it. */
  predicate Acceptable(ctx: ProjectContext, name: string, slug: string) {
    && MinNameLength <= |name| <= MaxNameLength
    && MinNameLength <= |slug| <= MaxSlugLength
    && !SlugOnRemote(RemoteList(ctx), slug)
    && !NameOnRemote(RemoteList(ctx), name)
    && slug !in ctx.projectHome
  }

  /**
   * The `validate` closure, given the name and `getProjectSlug(name)`: the
   * checks in their order, the first failing one deciding the message.
   */
  function CheckProjectName(ctx: ProjectContext, name: string, slug: string): (r: Option<NameProblem>)
    ensures r.None? <==> Acceptable(ctx, name, slug)
    ensures r.Some? && (r.value.SlugTaken? || r.value.NameTaken?) ==> r.value.createRemote == ctx.isCreateRemote
  {
    var remote := RemoteList(ctx);
    if |name| < MinNameLength || |name| > MaxNameLength then Some(NameLength)
    else if |slug| < MinNameLength || |slug| > MaxSlugLength then Some(SlugLength)
    else if SlugOnRemote(remote, slug) then Some(SlugTaken(ctx.isCreateRemote))
    else if NameOnRemote(remote, name) then Some(NameTaken(ctx.isCreateRemote))
    else if slug in ctx.projectHome then
      (if ctx.projectHome[slug] == Directory then Some(FolderExists) else Some(FolderNotDirectory))
    else None
  }

  /** The checks one at a time, each on its own, with None for a pass. */
  function NameLengthCheck(name: string): Option<NameProblem> {
    if MinNameLength <= |name| <= MaxNameLength then None else Some(NameLength)
  }

  function SlugLengthCheck(slug: string): Option<NameProblem> {
    if MinNameLength <= |slug| <= MaxSlugLength then None else Some(SlugLength)
  }

  function SlugClashCheck(ctx: ProjectContext, slug: string): Option<NameProblem> {
    if SlugOnRemote(RemoteList(ctx), slug) then Some(SlugTaken(ctx.isCreateRemote)) else None
  }

  function NameClashCheck(ctx: ProjectContext, name: string): Option<NameProblem> {
    if NameOnRemote(RemoteList(ctx), name) then Some(NameTaken(ctx.isCreateRemote)) else None
  }

  function FolderCheck(ctx: ProjectContext, slug: string): Option<NameProblem> {
    if slug !in ctx.projectHome then None
    else if ctx.projectHome[slug] == Directory then Some(FolderExists)
    else Some(FolderNotDirectory)
  }

  function Checks(ctx: ProjectContext, name: string, slug: string): (r: seq<Option<NameProblem>>)
    ensures |r| == 5
    ensures (forall k :: 0 <= k < |r| ==> r[k].None?) <==> Acceptable(ctx, name, slug)
  {
    var r := [NameLengthCheck(name), SlugLengthCheck(slug), SlugClashCheck(ctx, slug), NameClashCheck(ctx, name), FolderCheck(ctx, slug)];
    assert (forall k :: 0 <= k < |r| ==> r[k].None?) <==> r[0].None? && r[1].None? && r[2].None? && r[3].None? && r[4].None?;
    r
  }

  /** The first failing check of a list, or None when all pass. */
  function FirstProblem(checks: seq<Option<NameProblem>>): (r: Option<NameProblem>)
    ensures r.None? <==> forall i :: 0 <= i < |checks| ==> checks[i].None?
    ensures r.Some? ==> exists i :: 0 <= i < |checks| && checks[i] == r && forall j :: 0 <= j < i ==> checks[j].None?
  {
    if checks == [] then None
    else if checks[0].Some? then checks[0]
    else
      var r := FirstProblem(checks[1..]);
      assert forall k :: 1 <= k < |checks| ==> checks[k] == checks[1..][k - 1];
      r
  }

  /** The validator reports exactly the first check, in source order, that fails. */
  lemma ValidationReportsFirstFailure(ctx: ProjectContext, name: string, slug: string)
    ensures CheckProjectName(ctx, name, slug) == FirstProblem(Checks(ctx, name, slug))
  {
    FirstProblemOfFive(NameLengthCheck(name), SlugLengthCheck(slug), SlugClashCheck(ctx, slug),
                       NameClashCheck(ctx, name), FolderCheck(ctx, slug));
  }

  /** Five checks in a row report the first of them that fails. */
  lemma FirstProblemOfFive(a: Option<NameProblem>, b: Option<NameProblem>, c: Option<NameProblem>,
                           d: Option<NameProblem>, e: Option<NameProblem>)
    ensures FirstProblem([a, b, c, d, e]) ==
            if a.Some? then a else if b.Some? then b else if c.Some? then c else if d.Some? then d else e
  {
    assert [a, b, c, d, e] == [a] + [b, c, d, e];
    assert [b, c, d, e] == [b] + [c, d, e];
    assert [c, d, e] == [c] + [d, e];
    assert [d, e] == [d] + [e];
    FirstProblemCons(a, [b, c, d, e]);
    FirstProblemCons(b, [c, d, e]);
    FirstProblemCons(c, [d, e]);
    FirstProblemCons(d, [e]);
    FirstProblemCons(e, []);
  }

  lemma FirstProblemCons(x: Option<NameProblem>, rest: seq<Option<NameProblem>>)
    ensures FirstProblem([x] + rest) == if x.Some? then x else FirstProblem(rest)
  {
    assert ([x] + rest)[1..] == rest;
  }

  /**
   * The slug check fails only for slugs that are too short: the slug chain
   * already cuts slugs to 62 characters, so a long name is refused for its
   * own length and never for its slug's.
   */
  lemma SlugNeverTooLong(ctx: ProjectContext, name: string)
    ensures var slug := ProjectSlug(ctx.settings, name);
            CheckProjectName(ctx, name, slug) == Some(SlugLength) ==> |slug| < MinNameLength
  {
    BoundedSlugFailsOnlyShort(ctx, name, ProjectSlug(ctx.settings, name));
  }

  lemma BoundedSlugFailsOnlyShort(ctx: ProjectContext, name: string, slug: string)
    requires |slug| <= MaxSlugLength
    ensures CheckProjectName(ctx, name, slug) == Some(SlugLength) ==> |slug| < MinNameLength
  {
  }

  /** `prompt` of the input box the validator writes in its `finally`. */
  datatype Prompt = AskForName | SlugPreview(slug: string)

  class NamePrompt {
    var prompt: Prompt

    constructor ()
      ensures prompt == AskForName
    {
      prompt := AskForName;
    }

    /**
     * One run of `validate`: its message, and the prompt it leaves behind,
     * which previews the slug exactly when the name was accepted.
     */
    method Validate(ctx: ProjectContext, name: string) returns (message: Option<NameProblem>)
      modifies this
      ensures var slug := ProjectSlug(ctx.settings, name);
              && message == CheckProjectName(ctx, name, slug)
              && (prompt.SlugPreview? <==> Acceptable(ctx, name, slug))
              && (prompt.SlugPreview? ==> prompt.slug == slug)
    {
      var slug := ProjectSlug(ctx.settings, name);
      var success := false;
      message := CheckProjectName(ctx, name, slug);
      if message.None? {
        success := true;
      }
      // Runs whether or not the checks passed.
      if success {
        prompt := SlugPreview(slug);
      } else {
        prompt := AskForName;
      }
    }
  }

  // ---------------------------------------------------------------------------
  // Creation options (src/extension.ts:406-430)
  // ---------------------------------------------------------------------------

  /** A picked item of the options picker, by its `key`. */
  datatype OptionItem = OptionItem(key: string)

  /** Whether some picked item carries the key. */
  function HasKey(picked: seq<OptionItem>, key: string): (b: bool)
    ensures b <==> exists i :: 0 <= i < |picked| && picked[i].key == key
  {
    if picked == [] then false
    else picked[0].key == key || HasKey(picked[1..], key)
  }

  datatype CreateFlags = CreateFlags(isCreateRemote: bool, isPullTemplate: bool)

  function CreateOptions(picked: seq<OptionItem>): (f: CreateFlags)
    ensures f.isCreateRemote <==> exists i :: 0 <= i < |picked| && picked[i].key == "createRemote"
    ensures f.isPullTemplate <==> exists i :: 0 <= i < |picked| && picked[i].key == "pullTemplate"
  {
    CreateFlags(HasKey(picked, "createRemote"), HasKey(picked, "pullTemplate"))
  }

  /** The flags depend only on which keys were picked, not on their order or repetition. */
  lemma {:induction false} OptionsIgnoreOrder(a: seq<OptionItem>, b: seq<OptionItem>)
    requires forall x :: x in a <==> x in b
    ensures CreateOptions(a) == CreateOptions(b)
  {
    forall key | key in {"createRemote", "pullTemplate"}
      ensures HasKey(a, key) == HasKey(b, key)
    {
      if HasKey(a, key) {
        var i :| 0 <= i < |a| && a[i].key == key;
        assert a[i] in b;
        var j :| 0 <= j < |b| && b[j] == a[i];
      }
      if HasKey(b, key) {
        var j :| 0 <= j < |b| && b[j].key == key;
        assert b[j] in a;
        var i :| 0 <= i < |a| && a[i] == b[j];
      }
    }
  }

  // ---------------------------------------------------------------------------
  // Unsaved documents of a backup (src/extension.ts:117-154)
  // ---------------------------------------------------------------------------

  /** An open text document: its file path and the two flags the filter reads. */
  datatype Document = Document(path: string, isUntitled: bool, isDirty: bool)

  /** A document whose unsaved changes would be missing from the commit. */
  predicate IsUnsavedIn(pl: Platform, root: string, d: Document) {
    !d.isUntitled && d.isDirty && IsDescendant(pl, root, d.path)
  }

  /** `allUnsavedRepoDocuments`: the open documents the filter keeps, in their order. */
  function UnsavedRepoDocuments(pl: Platform, root: string, docs: seq<Document>): (r: seq<Document>)
    ensures forall d :: d in r <==> d in docs && IsUnsavedIn(pl, root, d)
    ensures |r| <= |docs|
  {
    if docs == [] then []
    else
      assert forall d :: d in docs <==> d == docs[0] || d in docs[1..];
      (if IsUnsavedIn(pl, root, docs[0]) then [docs[0]] else []) + UnsavedRepoDocuments(pl, root, docs[1..])
  }

  /** The filter keeps the documents' order: it distributes over concatenation. */
  lemma {:induction false} UnsavedKeepsOrder(pl: Platform, root: string, a: seq<Document>, b: seq<Document>)
    ensures UnsavedRepoDocuments(pl, root, a + b) == UnsavedRepoDocuments(pl, root, a) + UnsavedRepoDocuments(pl, root, b)
    decreases |a|
  {
    if a == [] {
      assert a + b == b;
    } else {
      assert (a + b)[0] == a[0];
      assert (a + b)[1..] == a[1..] + b;
      UnsavedKeepsOrder(pl, root, a[1..], b);
    }
  }

  /** Whether some change staged in the index has a path equal to `path`. */
  function InIndex(pl: Platform, indexChanges: seq<string>, path: string): (b: bool)
    ensures b <==> exists i :: 0 <= i < |indexChanges| && PathEquals(pl, indexChanges[i], path)
  {
    if indexChanges == [] then false
    else PathEquals(pl, indexChanges[0], path) || InIndex(pl, indexChanges[1..], path)
  }

  /** `allAddBacks`: the saved documents whose path is staged, in their order. */
  function AddBacks(pl: Platform, saved: seq<Document>, indexChanges: seq<string>): (r: seq<Document>)
    ensures forall d :: d in r <==> d in saved && InIndex(pl, indexChanges, d.path)
    ensures |r| <= |saved|
  {
    if saved == [] then []
    else
      assert forall d :: d in saved <==> d == saved[0] || d in saved[1..];
      (if InIndex(pl, indexChanges, saved[0].path) then [saved[0]] else []) + AddBacks(pl, saved[1..], indexChanges)
  }

  /** The add-back filter keeps the documents' order. */
  lemma {:induction false} AddBacksKeepOrder(pl: Platform, a: seq<Document>, b: seq<Document>, indexChanges: seq<string>)
    ensures AddBacks(pl, a + b, indexChanges) == AddBacks(pl, a, indexChanges) + AddBacks(pl, b, indexChanges)
    decreases |a|
  {
    if a == [] {
      assert a + b == b;
    } else {
      assert (a + b)[0] == a[0];
      assert (a + b)[1..] == a[1..] + b;
      AddBacksKeepOrder(pl, a[1..], b, indexChanges);
    }
  }

  function Paths(docs: seq<Document>): (r: seq<string>)
    ensures |r| == |docs| && forall k :: 0 <= k < |r| ==> r[k] == docs[k].path
  {
    seq(|docs|, k requires 0 <= k < |docs| => docs[k].path)
  }

  /** The user's answer to the modal warning about unsaved files. */
  datatype SaveChoice = SaveAllAndCommit | CommitOnly | Dismissed

  /** Whether the backup goes on to commit, and what it saves and adds back first. */
  datatype BackupPlan = Abort | Proceed(save: seq<Document>, addBack: seq<string>)

  /**
   * The unsaved-files step of `backupChanges`. Without unsaved documents no
   * warning is shown and `choice` is not asked for.
   */
  function PlanBackup(pl: Platform, root: string, docs: seq<Document>, indexChanges: seq<string>, choice: SaveChoice): (p: BackupPlan)
    ensures var unsaved := UnsavedRepoDocuments(pl, root, docs);
            && (p.Abort? <==> unsaved != [] && choice == Dismissed)
            && (p.Proceed? && p.save != [] ==> choice == SaveAllAndCommit && p.save == unsaved)
            && (p.Proceed? && choice == SaveAllAndCommit ==> p.save == unsaved)
            && (p.Proceed? ==> forall k :: 0 <= k < |p.addBack| ==> InIndex(pl, indexChanges, p.addBack[k]))
            && (p.Proceed? ==> |p.addBack| <= |p.save|)
            && (p.Proceed? && choice == SaveAllAndCommit ==> p.addBack == Paths(AddBacks(pl, unsaved, indexChanges)))
  {
    var unsaved := UnsavedRepoDocuments(pl, root, docs);
    if unsaved == [] then Proceed([], [])
    else match choice
      case SaveAllAndCommit =>
        Proceed(unsaved, Paths(AddBacks(pl, unsaved, indexChanges)))
      case CommitOnly => Proceed([], [])
      case Dismissed => Abort
  }
}
