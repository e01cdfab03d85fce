/** The reconciliation engine of src/index.ts: every declared entry is
    read, given to its strategy's `update`, compared, and turned into an
    outcome; `UpdaterWithOptions` then reports the drifted entries (test
    mode) or writes them one by one (apply mode). */
module Engine {
  import opened Types
  import opened Paths
  import opened Io
  import opened Messages
  import Strategies

  /** The options `updaterWithOptions` reads: an optional workspace
      directory, test mode, and `quiet` (which only silences logging). */
  datatype UpdaterOptions = UpdaterOptions(workspaceDir: Option<Path>, test: bool, quiet: bool)

  /** What `checkFileForUpdates` returns: the `equal` flag, the label
      `toString` gives, and the deferred `write`, represented by the
      strategy, the resolved path and the expected content it will use. */
  datatype Outcome = Outcome(equal: bool, display: string, path: Path, config: FileConfig, expected: Value)

  /** The filesystem after a sequence of writes, with the error that
      stopped it, if any. */
  datatype Applied = Applied(tree: FileTree, error: Option<string>)

  ghost predicate ValidEntries(entries: seq<(string, Updater)>) {
    forall i :: 0 <= i < |entries| ==> entries[i].1.Valid()
  }

  ghost predicate ValidConfigs(configs: seq<(string, FileConfig)>) {
    forall i :: 0 <= i < |configs| ==> configs[i].1.Valid()
  }

  ghost predicate ValidOutcomes(outcomes: seq<Outcome>) {
    forall i :: 0 <= i < |outcomes| ==> outcomes[i].config.Valid()
  }

  /** `isEqual`: a file is unchanged when it is absent and should be, or
      present and should be, with the strategy judging the two contents
      equal. Every other combination is drift. `equal` is only consulted
      when both contents are non-null. */
  function IsEqual(config: FileConfig, expected: Value, actual: Value): (r: bool)
    requires config.Valid()
    ensures actual.Null? && expected.Null? ==> r
    ensures actual.Null? && !expected.Null? ==> !r
    ensures !actual.Null? && expected.Null? ==> !r
    ensures !actual.Null? && !expected.Null? ==> (r <==> config.equal(expected, actual))
  {
    (actual.Null? && expected.Null?)
    || (!actual.Null? && !expected.Null? && config.equal(expected, actual))
  }

  /** One entry of `convertCallbacksToConfigs`: a bare callback becomes the
      text strategy, a strategy passes through. */
  function Normalise(u: Updater): (c: FileConfig)
    requires u.Valid()
    ensures c.Valid()
    ensures u.Callback? ==> c == Strategies.Text(u.callback)
    ensures u.Config? ==> c == u.config
  {
    match u
    case Callback(f) => Strategies.Text(f)
    case Config(c) => c
  }

  /** `convertCallbacksToConfigs`: the same keys in the same order, each
      with a strategy the engine may call. */
  function ConvertCallbacksToConfigs(entries: seq<(string, Updater)>): (r: seq<(string, FileConfig)>)
    requires ValidEntries(entries)
    ensures |r| == |entries|
    ensures forall i :: 0 <= i < |r| ==> r[i].0 == entries[i].0 && r[i].1 == Normalise(entries[i].1)
    ensures ValidConfigs(r)
  {
    if |entries| == 0 then []
    else [(entries[0].0, Normalise(entries[0].1))] + ConvertCallbacksToConfigs(entries[1..])
  }

  /** The content `update` receives: `read`'s result when the file exists,
      `Null` (without calling `read`) when it does not. */
  function Actual(files: map<Path, string>, filePath: Path, config: FileConfig): Result<Value> {
    if filePath in files then config.read(filePath, files[filePath]) else Ok(Null)
  }

  /** The display label `toString` gives an entry. */
  function Label(workspaceDir: Path, filePath: Path): string {
    "    " + ForwardSlashes(Relative(workspaceDir, filePath))
  }

  /** `checkFileForUpdates`. */
  function CheckFileForUpdates(files: map<Path, string>, workspaceDir: Path, file: string, config: FileConfig)
    : (r: Result<Outcome>)
    requires config.Valid()
    ensures Join(workspaceDir, file) !in files ==>
              r.Ok? && r.value.expected == config.update(Null, Context(file, Join(workspaceDir, file)))
    ensures r.Err? <==> Actual(files, Join(workspaceDir, file), config).Err?
    ensures r.Err? ==> r.error == Actual(files, Join(workspaceDir, file), config).error
    ensures r.Ok? ==>
              var filePath := Join(workspaceDir, file);
              var actual := Actual(files, filePath, config).value;
              && r.value.path == filePath
              && r.value.config == config
              && r.value.display == "    " + ForwardSlashes(file)
              && r.value.expected == config.update(actual, Context(file, filePath))
              && r.value.equal == IsEqual(config, r.value.expected, actual)
    ensures r.Ok? && !r.value.equal && r.value.expected.Null? ==> Join(workspaceDir, file) in files
  {
    var filePath := Join(workspaceDir, file);
    match Actual(files, filePath, config)
    case Err(e) => Err(e)
    case Ok(actual) =>
      var expected := config.update(actual, Context(file, filePath));
      RelativeJoin(workspaceDir, file);
      Ok(Outcome(IsEqual(config, expected, actual), Label(workspaceDir, filePath), filePath, config, expected))
  }

  /** `checkFilesForUpdates`: one outcome per entry, in entry order, or the
      error of the first entry whose read failed. */
  function CheckFilesForUpdates(files: map<Path, string>, workspaceDir: Path, configs: seq<(string, FileConfig)>)
    : (r: Result<seq<Outcome>>)
    requires ValidConfigs(configs)
    ensures r.Ok? ==> |r.value| == |configs| && ValidOutcomes(r.value)
  {
    if |configs| == 0 then Ok([])
    else
      match CheckFileForUpdates(files, workspaceDir, configs[0].0, configs[0].1)
      case Err(e) => Err(e)
      case Ok(o) =>
        match CheckFilesForUpdates(files, workspaceDir, configs[1..])
        case Err(e) => Err(e)
        case Ok(os) => Ok([o] + os)
  }

  /** On success, each outcome is its own entry's check. */
  lemma {:induction false} CheckFilesForUpdatesOk(files: map<Path, string>, workspaceDir: Path,
                                                  configs: seq<(string, FileConfig)>)
    requires ValidConfigs(configs)
    ensures var r := CheckFilesForUpdates(files, workspaceDir, configs);
            r.Ok? ==> forall i :: 0 <= i < |configs| ==>
              CheckFileForUpdates(files, workspaceDir, configs[i].0, configs[i].1) == Ok(r.value[i])
    decreases |configs|
  {
    if |configs| > 0 {
      CheckFilesForUpdatesOk(files, workspaceDir, configs[1..]);
      assert forall i :: 1 <= i < |configs| ==> configs[i] == configs[1..][i - 1];
    }
  }

  /** On failure, the error is that of the first entry whose check failed,
      every earlier entry having succeeded. */
  lemma {:induction false} CheckFilesForUpdatesFirstError(files: map<Path, string>, workspaceDir: Path,
                                                          configs: seq<(string, FileConfig)>)
    requires ValidConfigs(configs)
    ensures var r := CheckFilesForUpdates(files, workspaceDir, configs);
            r.Err? ==>
              exists i ::
                && 0 <= i < |configs|
                && CheckFileForUpdates(files, workspaceDir, configs[i].0, configs[i].1) == Err(r.error)
                && forall j :: 0 <= j < i ==> CheckFileForUpdates(files, workspaceDir, configs[j].0, configs[j].1).Ok?
    decreases |configs|
  {
    if |configs| > 0 && CheckFileForUpdates(files, workspaceDir, configs[0].0, configs[0].1).Ok? {
      var rest := CheckFilesForUpdates(files, workspaceDir, configs[1..]);
      if rest.Err? {
        CheckFilesForUpdatesFirstError(files, workspaceDir, configs[1..]);
        var k :| 0 <= k < |configs[1..]|
          && CheckFileForUpdates(files, workspaceDir, configs[1..][k].0, configs[1..][k].1) == Err(rest.error)
          && forall j :: 0 <= j < k ==>
               CheckFileForUpdates(files, workspaceDir, configs[1..][j].0, configs[1..][j].1).Ok?;
        assert forall j :: 1 <= j < k + 2 ==> configs[j] == configs[1..][j - 1];
        assert CheckFileForUpdates(files, workspaceDir, configs[k + 1].0, configs[k + 1].1) == Err(rest.error);
      }
    }
  }

  /** `changedFiles`: the outcomes that drifted, in entry order. */
  function Changed(outcomes: seq<Outcome>): (r: seq<Outcome>)
    ensures |r| <= |outcomes|
    ensures forall i :: 0 <= i < |r| ==> !r[i].equal && r[i] in outcomes
    ensures forall i :: 0 <= i < |outcomes| && !outcomes[i].equal ==> outcomes[i] in r
    ensures ValidOutcomes(outcomes) ==> ValidOutcomes(r)
  {
    if |outcomes| == 0 then []
    else if outcomes[0].equal then Changed(outcomes[1..])
    else [outcomes[0]] + Changed(outcomes[1..])
  }

  /** The positions, from `from` on, of the outcomes that drifted, in
      increasing order (order and completeness are
      `EngineProperties.DriftedIncreasing` and `DriftedComplete`): an index-based
      description of `Changed`. */
  ghost function DriftedFrom(outcomes: seq<Outcome>, from: nat): (r: seq<nat>)
    ensures forall k :: 0 <= k < |r| ==> from <= r[k] < |outcomes| && !outcomes[r[k]].equal
    decreases |outcomes| - from
  {
    if from >= |outcomes| then []
    else if outcomes[from].equal then DriftedFrom(outcomes, from + 1)
    else [from] + DriftedFrom(outcomes, from + 1)
  }

  /** The labels of a list of outcomes, in order. */
  function Labels(outcomes: seq<Outcome>): (r: seq<string>)
    ensures |r| == |outcomes|
    ensures forall i :: 0 <= i < |outcomes| ==> r[i] == outcomes[i].display
  {
    if |outcomes| == 0 then [] else [outcomes[0].display] + Labels(outcomes[1..])
  }

  /** The first line of every drift report. */
  function Header(count: nat): string {
    "Updater found changes to " + NatToString(count) + " files:"
  }

  /** The error message test mode throws: the header, then one line per
      drifted entry. */
  function TestMessage(changed: seq<Outcome>): string {
    JoinLines([Header(|changed|)] + Labels(changed))
  }

  /** `write`: a `Null` expected content deletes the file; anything else
      first creates the parent directories, then stores what the strategy's
      `write` produces. */
  function WriteEffect(t: FileTree, config: FileConfig, filePath: Path, expected: Value): (r: Applied)
    requires config.Valid()
    ensures forall p :: p != filePath ==> (p in r.tree.files <==> p in t.files)
    ensures forall p :: p != filePath && p in t.files ==> r.tree.files[p] == t.files[p]
    ensures t.dirs <= r.tree.dirs
  {
    if expected.Null? then
      if filePath in t.files then Applied(t.(files := t.files - {filePath}), None)
      else Applied(t, Some(UnlinkError(filePath)))
    else
      var t1 := t.(dirs := t.dirs + Ancestors(Dirname(filePath)));
      match config.write(filePath, expected)
      case Ok(text) => Applied(t1.(files := t1.files[filePath := text]), None)
      case Err(e) => Applied(t1, Some(e))
  }

  /** The apply loop: the outcomes' writes one after the other, stopping at
      the first that fails. */
  function ApplyWrites(t: FileTree, changed: seq<Outcome>): Applied
    requires ValidOutcomes(changed)
    decreases |changed|
  {
    if |changed| == 0 then Applied(t, None)
    else
      var a := WriteEffect(t, changed[0].config, changed[0].path, changed[0].expected);
      if a.error.Some? then a else ApplyWrites(a.tree, changed[1..])
  }

  /** The workspace directory a run uses: the option when given, otherwise
      the current directory when it holds a `package.json`. */
  function WorkspaceDir(options: UpdaterOptions, cwd: Path, files: map<Path, string>): Result<Path> {
    match options.workspaceDir
    case Some(dir) => Ok(dir)
    case None => FindWorkspaceDir(cwd, files)
  }

  /** Everything a run computes before it acts: the outcome of every entry. */
  function Evaluate(files: map<Path, string>, entries: seq<(string, Updater)>, options: UpdaterOptions, cwd: Path)
    : Result<seq<Outcome>>
    requires ValidEntries(entries)
  {
    match WorkspaceDir(options, cwd, files)
    case Err(e) => Err(e)
    case Ok(dir) => CheckFilesForUpdates(files, dir, ConvertCallbacksToConfigs(entries))
  }

  /** The deferred `write` of one outcome, performed on the disk. */
  method Write(disk: Disk, config: FileConfig, filePath: Path, expected: Value) returns (err: Option<string>)
    requires config.Valid()
    modifies disk
    ensures Applied(disk.Tree(), err) == WriteEffect(old(disk.Tree()), config, filePath, expected)
  {
    if expected.Null? {
      err := disk.RemoveFile(filePath);
    } else {
      disk.MakeDirs(Dirname(filePath));
      match config.write(filePath, expected)
      case Ok(text) =>
        disk.WriteFile(filePath, text);
        err := None;
      case Err(e) =>
        err := Some(e);
    }
  }

  /** The message test mode throws, built as the source builds it: the
      header, then each drifted entry's label pushed in turn, joined by
      newlines. */
  method DriftMessage(changed: seq<Outcome>) returns (msg: string)
    ensures msg == TestMessage(changed)
  {
    var parts := [Header(|changed|)];
    for i := 0 to |changed|
      invariant parts == [Header(|changed|)] + Labels(changed[..i])
    {
      assert changed[..i + 1] == changed[..i] + [changed[i]];
      LabelsAppend(changed[..i], changed[i]);
      parts := parts + [changed[i].display];
    }
    assert changed[..|changed|] == changed;
    msg := JoinLines(parts);
  }

  lemma LabelsAppend(outcomes: seq<Outcome>, o: Outcome)
    ensures Labels(outcomes + [o]) == Labels(outcomes) + [o.display]
  {
  }

  /** `updaterWithOptions`: evaluates every entry against the disk, then
      returns quietly when nothing drifted, throws the drift report without
      touching the disk in test mode, and otherwise performs the drifted
      entries' writes in order, stopping at the first failure. */
  method UpdaterWithOptions(disk: Disk, entries: seq<(string, Updater)>, options: UpdaterOptions, cwd: Path)
    returns (r: Result<()>)
    requires ValidEntries(entries)
    modifies disk
    ensures match Evaluate(old(disk.files), entries, options, cwd)
            case Err(e) => r == Err(e) && unchanged(disk)
            case Ok(outcomes) =>
              var changed := Changed(outcomes);
              if |changed| == 0 then r == Ok(()) && unchanged(disk)
              else if options.test then r == Err(TestMessage(changed)) && unchanged(disk)
              else
                var a := ApplyWrites(old(disk.Tree()), changed);
                && disk.Tree() == a.tree
                && r == (if a.error.Some? then Err(a.error.value) else Ok(()))
  {
    var workspaceDir: Path;
    match options.workspaceDir {
      case Some(dir) =>
        workspaceDir := dir;
      case None =>
        var found := FindWorkspaceDir(cwd, disk.files);
        if found.Err? {
          return Err(found.error);
        }
        workspaceDir := found.value;
    }
    var fileConfigs := ConvertCallbacksToConfigs(entries);
    var updatedFiles := CheckFilesForUpdates(disk.files, workspaceDir, fileConfigs);
    if updatedFiles.Err? {
      return Err(updatedFiles.error);
    }
    var changedFiles := Changed(updatedFiles.value);
    if |changedFiles| == 0 {
      return Ok(());
    }
    if options.test {
      var msg := DriftMessage(changedFiles);
      return Err(msg);
    }
    var err := ApplyChanged(disk, changedFiles);
    if err.Some? {
      return Err(err.value);
    }
    return Ok(());
  }

  /** The apply loop of `updaterWithOptions`: each drifted outcome's write in
      turn, stopping at the first that fails. */
  method ApplyChanged(disk: Disk, changed: seq<Outcome>) returns (err: Option<string>)
    requires ValidOutcomes(changed)
    modifies disk
    ensures Applied(disk.Tree(), err) == ApplyWrites(old(disk.Tree()), changed)
  {
    ghost var t0 := disk.Tree();
    var i := 0;
    while i < |changed|
      invariant 0 <= i <= |changed|
      invariant ApplyWrites(t0, changed) == ApplyWrites(disk.Tree(), changed[i..])
    {
      var file := changed[i];
      assert changed[i..][1..] == changed[i + 1..];
      err := Write(disk, file.config, file.path, file.expected);
      if err.Some? {
        return;
      }
      i := i + 1;
    }
    return None;
  }
}
