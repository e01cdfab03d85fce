/** The situations the repository's tests exercise, worked through the
    model on concrete workspaces. */
module Scenarios {
  import opened Types
  import opened Io
  import opened Engine
  import opened Paths
  import opened Messages
  import Strategies
  import opened EngineProperties

  const Workspace: Path := "/w"

  /** `(content) => content + "2"` for the string contents it is used on. */
  function AppendTwo(actual: Value, ctx: Context): Value {
    if actual.Str? then Str(actual.s + "2") else Str("null2")
  }

  /** `(content) => content`. */
  function Identity(actual: Value, ctx: Context): Value {
    actual
  }

  /** `() => "foo"`. */
  function Foo(actual: Value, ctx: Context): Value {
    Str("foo")
  }

  /** A workspace of one entry evaluates to that entry's outcome. */
  lemma OneEntry(files: map<Path, string>, ws: Path, configs: seq<(string, FileConfig)>, o: Outcome)
    requires |configs| == 1 && configs[0].1.Valid()
    requires CheckFileForUpdates(files, ws, configs[0].0, configs[0].1) == Ok(o)
    ensures CheckFilesForUpdates(files, ws, configs) == Ok([o])
  {
    assert CheckFilesForUpdates(files, ws, configs[1..]) == Ok([]);
    assert [o] + [] == [o];
  }

  /** A workspace whose only entry is the bare callback `f` for `key`
      evaluates to the outcome the text strategy gives it. */
  lemma OneTextEntry(files: map<Path, string>, key: string, f: FileCallback)
    requires '\\' !in key
    ensures var p := Join(Workspace, key);
            var actual := if p in files then Str(files[p]) else Null;
            var expected := f(actual, Context(key, p));
            CheckFilesForUpdates(files, Workspace, ConvertCallbacksToConfigs([(key, Callback(f))]))
              == Ok([Outcome(expected == actual, "    " + key, p, Strategies.Text(f), expected)])
  {
    var configs := ConvertCallbacksToConfigs([(key, Callback(f))]);
    assert configs == [(key, Strategies.Text(f))];
    TextEntryOutcome(files, Workspace, key, f);
    ForwardSlashesKeeps(key);
    OneEntry(files, Workspace, configs, CheckFileForUpdates(files, Workspace, key, Strategies.Text(f)).value);
  }

  /** New file, bare callback: a missing `foo` whose callback returns
      `"foo"` drifts, and applying creates it holding exactly `foo`. */
  lemma NewFileIsCreated()
    ensures var configs := ConvertCallbacksToConfigs([("foo", Callback(Foo))]);
            var r := CheckFilesForUpdates(map[], Workspace, configs);
            && r.Ok? && |r.value| == 1 && !r.value[0].equal
            && Changed(r.value) == r.value
            && ApplyWrites(FileTree(map[], {Workspace}), r.value).error == None
            && ApplyWrites(FileTree(map[], {Workspace}), r.value).tree.files == map["/w/foo" := "foo"]
  {
    OneTextEntry(map[], "foo", Foo);
    var p := Join(Workspace, "foo");
    assert p == "/w/foo";
    var o := Outcome(false, "    foo", p, Strategies.Text(Foo), Str("foo"));
    assert Changed([o]) == [o];
    var t := FileTree(map[], {Workspace});
    var a := WriteEffect(t, o.config, o.path, o.expected);
    assert o.config.write(o.path, o.expected) == Ok("foo");
    assert a.tree.files == map[p := "foo"] && a.error == None;
    assert ApplyWrites(t, [o]) == ApplyWrites(a.tree, []);
  }

  /** Changed file, test mode: `hw` holding `H` with
      a callback appending `2` drifts, and the report names it. */
  lemma ChangedFileIsReported()
    ensures var files := map["/w/hw" := "H"];
            var configs := ConvertCallbacksToConfigs([("hw", Callback(AppendTwo))]);
            var r := CheckFilesForUpdates(files, Workspace, configs);
            && r.Ok? && |Changed(r.value)| == 1
            && TestMessage(Changed(r.value)) == "Updater found changes to 1 files:\n    hw"
  {
    var o := Outcome(false, "    hw", "/w/hw", Strategies.Text(AppendTwo), Str("H2"));
    AppendTwoDrifts();
    assert Changed([o]) == [o];
    OneDriftReport(o);
  }

  /** `hw` holding `H`, with a callback appending `2`, evaluates to one
      drifted outcome that expects `H2`. */
  lemma AppendTwoDrifts()
    ensures CheckFilesForUpdates(map["/w/hw" := "H"], Workspace, ConvertCallbacksToConfigs([("hw", Callback(AppendTwo))]))
              == Ok([Outcome(false, "    hw", "/w/hw", Strategies.Text(AppendTwo), Str("H2"))])
  {
    var files := map["/w/hw" := "H"];
    OneTextEntry(files, "hw", AppendTwo);
    var p := Join(Workspace, "hw");
    assert p == "/w/hw";
    assert p in files && files[p] == "H";
    assert AppendTwo(Str("H"), Context("hw", p)) == Str("H2");
    assert Str("H2") != Str("H");
    assert "    " + "hw" == "    hw";
  }

  /** The report for a single drifted entry: the header, a newline, and
      the entry's label. */
  lemma OneDriftReport(o: Outcome)
    ensures TestMessage([o]) == "Updater found changes to 1 files:\n" + o.display
  {
    assert NatToString(1) == "1";
    assert Labels([o]) == [o.display];
    assert [Header(1)] + Labels([o]) == [Header(1), o.display];
    assert JoinLines([Header(1), o.display]) == Header(1) + "\n" + JoinLines([o.display]);
    assert Header(1) == "Updater found changes to 1 files:";
  }

  /** No changes: a callback returning the content unchanged leaves
      `hw` undrifted, so neither mode does anything. */
  lemma UnchangedFileIsLeftAlone()
    ensures var files := map["/w/hw" := "H"];
            var configs := ConvertCallbacksToConfigs([("hw", Callback(Identity))]);
            var r := CheckFilesForUpdates(files, Workspace, configs);
            r.Ok? && Changed(r.value) == []
  {
    var files := map["/w/hw" := "H"];
    OneTextEntry(files, "hw", Identity);
    assert Join(Workspace, "hw") == "/w/hw";
  }
}
