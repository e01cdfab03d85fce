/** What a run of the engine guarantees: the apply loop touches exactly
    the drifted paths and stops at the first failing write, test mode's
    report lists exactly the drifted entries, and a second run after apply
    finds nothing left to do. */
module EngineProperties {
  import opened Types
  import opened Paths
  import opened Io
  import opened Messages
  import opened Engine
  import Strategies

  /** Object keys are distinct. */
  ghost predicate DistinctKeys(configs: seq<(string, FileConfig)>) {
    forall i, j :: 0 <= i < j < |configs| ==> configs[i].0 != configs[j].0
  }

  ghost predicate DistinctPaths(outcomes: seq<Outcome>) {
    forall i, j :: 0 <= i < j < |outcomes| ==> outcomes[i].path != outcomes[j].path
  }

  /** Path `p` is in the same state in both file maps. */
  ghost predicate SameAt(files: map<Path, string>, files': map<Path, string>, p: Path) {
    && (p in files <==> p in files')
    && (p in files ==> files[p] == files'[p])
  }

  /** The outcome's write can be performed: a deletion, or a strategy
      `write` that does not throw. */
  ghost predicate WriteSucceeds(o: Outcome) {
    !o.expected.Null? ==> o.config.write.requires(o.path, o.expected) && o.config.write(o.path, o.expected).Ok?
  }

  /** The file is as the outcome asks: gone when the expected content is
      null, otherwise holding the text the strategy's `write` produced. */
  ghost predicate ReconciledFile(files: map<Path, string>, o: Outcome) {
    if o.expected.Null? then o.path !in files
    else
      && o.config.write.requires(o.path, o.expected)
      && o.config.write(o.path, o.expected).Ok?
      && o.path in files
      && files[o.path] == o.config.write(o.path, o.expected).value
  }

  /** The filesystem is as the outcome asks: the file reconciled and, for a
      write, its directory created. */
  ghost predicate Reconciled(t: FileTree, o: Outcome) {
    && ReconciledFile(t.files, o)
    && (!o.expected.Null? ==> Dirname(o.path) in t.dirs)
  }

  /** The apply loop never touches a path that none of its outcomes names,
      and never removes a directory. */
  lemma {:induction false} ApplyWritesFrame(t: FileTree, changed: seq<Outcome>, p: Path)
    requires ValidOutcomes(changed)
    requires forall i :: 0 <= i < |changed| ==> changed[i].path != p
    decreases |changed|
    ensures SameAt(t.files, ApplyWrites(t, changed).tree.files, p)
    ensures t.dirs <= ApplyWrites(t, changed).tree.dirs
  {
    if |changed| > 0 {
      var a := WriteEffect(t, changed[0].config, changed[0].path, changed[0].expected);
      if a.error.None? {
        ApplyWritesFrame(a.tree, changed[1..], p);
      }
    }
  }

  /** When the paths are distinct, every deleted file exists and every
      strategy write succeeds, the apply loop completes and leaves each
      outcome's path reconciled. */
  lemma {:induction false} ApplyWritesEffect(t: FileTree, changed: seq<Outcome>)
    requires ValidOutcomes(changed)
    requires DistinctPaths(changed)
    requires forall i :: 0 <= i < |changed| && changed[i].expected.Null? ==> changed[i].path in t.files
    requires forall i :: 0 <= i < |changed| ==> WriteSucceeds(changed[i])
    ensures ApplyWrites(t, changed).error == None
    ensures forall i :: 0 <= i < |changed| ==> Reconciled(ApplyWrites(t, changed).tree, changed[i])
    decreases |changed|
  {
    if |changed| > 0 {
      var o := changed[0];
      var a := WriteEffect(t, o.config, o.path, o.expected);
      assert a.error == None;
      if !o.expected.Null? {
        assert Dirname(o.path) in Ancestors(Dirname(o.path));
      }
      assert Reconciled(a.tree, o);
      var rest := changed[1..];
      forall i | 0 <= i < |rest| && rest[i].expected.Null?
        ensures rest[i].path in a.tree.files
      {
        assert rest[i] == changed[i + 1];
      }
      ApplyWritesEffect(a.tree, rest);
      ApplyWritesFrame(a.tree, rest, o.path);
      var final := ApplyWrites(t, changed).tree;
      forall i | 0 <= i < |changed|
        ensures Reconciled(final, changed[i])
      {
        if i > 0 {
          assert changed[i] == rest[i - 1];
        }
      }
    }
  }

  /** The apply loop over a list is the loop over a prefix followed, unless
      that failed, by the loop over the rest. */
  lemma {:induction false} ApplyWritesSplit(t: FileTree, changed: seq<Outcome>, k: nat)
    requires ValidOutcomes(changed)
    requires k <= |changed|
    ensures ValidOutcomes(changed[..k]) && ValidOutcomes(changed[k..])
    ensures var pre := ApplyWrites(t, changed[..k]);
            ApplyWrites(t, changed) == if pre.error.Some? then pre else ApplyWrites(pre.tree, changed[k..])
    decreases k
  {
    if k == 0 {
      assert changed[..0] == [];
      assert changed[0..] == changed;
    } else {
      var a := WriteEffect(t, changed[0].config, changed[0].path, changed[0].expected);
      assert changed[..k][0] == changed[0];
      assert changed[..k][1..] == changed[1..][..k - 1];
      if a.error.None? {
        ApplyWritesSplit(a.tree, changed[1..], k - 1);
        assert changed[1..][k - 1..] == changed[k..];
      }
    }
  }

  /** A failing write ends the apply loop: the result is the state after
      the failing write, and no later outcome is acted on. */
  lemma ApplyWritesHaltsAtFailure(t: FileTree, changed: seq<Outcome>, k: nat)
    requires ValidOutcomes(changed)
    requires k < |changed|
    requires ApplyWrites(t, changed[..k]).error == None
    requires WriteEffect(ApplyWrites(t, changed[..k]).tree, changed[k].config, changed[k].path, changed[k].expected)
               .error.Some?
    ensures ApplyWrites(t, changed)
              == WriteEffect(ApplyWrites(t, changed[..k]).tree, changed[k].config, changed[k].path, changed[k].expected)
  {
    ApplyWritesSplit(t, changed, k);
    assert changed[k..][0] == changed[k];
  }

  /** Filtering keeps paths distinct. */
  lemma {:induction false} ChangedDistinctPaths(outcomes: seq<Outcome>)
    requires DistinctPaths(outcomes)
    ensures DistinctPaths(Changed(outcomes))
  {
    if |outcomes| > 0 {
      var rest := outcomes[1..];
      assert DistinctPaths(rest) by {
        forall i, j | 0 <= i < j < |rest| ensures rest[i].path != rest[j].path {
          assert rest[i] == outcomes[i + 1] && rest[j] == outcomes[j + 1];
        }
      }
      ChangedDistinctPaths(rest);
      if !outcomes[0].equal {
        var r := Changed(outcomes);
        forall j | 1 <= j < |r| ensures r[0].path != r[j].path {
          assert r[j] in rest;
        }
      }
    }
  }

  /** What evaluation tells about its outcomes, entry by entry: the
      strategy and path each refers to, its label, and that a drifted entry
      to be deleted names a file that exists. */
  ghost predicate Describes(files: map<Path, string>, ws: Path, configs: seq<(string, FileConfig)>, outcomes: seq<Outcome>) {
    && |outcomes| == |configs|
    && (forall i :: 0 <= i < |outcomes| ==>
          && outcomes[i].config == configs[i].1
          && outcomes[i].path == Join(ws, configs[i].0)
          && outcomes[i].display == "    " + ForwardSlashes(configs[i].0)
          && (!outcomes[i].equal && outcomes[i].expected.Null? ==> outcomes[i].path in files))
  }

  /** The outcomes of distinct entries have distinct paths, each under the
      workspace, and a drifted entry that must be deleted names a file that
      exists. */
  lemma OutcomesWellFormed(files: map<Path, string>, ws: Path, configs: seq<(string, FileConfig)>, outcomes: seq<Outcome>)
    requires ValidConfigs(configs)
    requires DistinctKeys(configs)
    requires CheckFilesForUpdates(files, ws, configs) == Ok(outcomes)
    ensures Describes(files, ws, configs, outcomes)
    ensures ValidOutcomes(outcomes)
    ensures DistinctPaths(outcomes)
  {
    CheckFilesForUpdatesOk(files, ws, configs);
    forall i | 0 <= i < |outcomes|
      ensures && outcomes[i].config == configs[i].1
              && outcomes[i].path == Join(ws, configs[i].0)
              && outcomes[i].display == "    " + ForwardSlashes(configs[i].0)
              && (!outcomes[i].equal && outcomes[i].expected.Null? ==> outcomes[i].path in files)
    {
      assert CheckFileForUpdates(files, ws, configs[i].0, configs[i].1) == Ok(outcomes[i]);
    }
    forall i, j | 0 <= i < j < |outcomes| ensures outcomes[i].path != outcomes[j].path {
      if outcomes[i].path == outcomes[j].path {
        JoinInjective(ws, configs[i].0, configs[j].0);
      }
    }
  }

  /** The drifted outcomes are exactly those of the list that drifted. */
  lemma ChangedMember(outcomes: seq<Outcome>, k: nat)
    requires k < |Changed(outcomes)|
    ensures exists i :: 0 <= i < |outcomes| && !outcomes[i].equal && outcomes[i] == Changed(outcomes)[k]
  {
    assert Changed(outcomes)[k] in outcomes;
  }

  /** Each position comes after the one before it. */
  ghost predicate StrictlyIncreasing(s: seq<nat>) {
    forall k, l :: 0 <= k < l < |s| ==> s[k] < s[l]
  }

  /** `DriftedFrom` lists positions in strictly increasing order. */
  lemma {:induction false} DriftedIncreasing(outcomes: seq<Outcome>, from: nat)
    ensures StrictlyIncreasing(DriftedFrom(outcomes, from))
    decreases |outcomes| - from
  {
    if from < |outcomes| {
      DriftedIncreasing(outcomes, from + 1);
      var tail := DriftedFrom(outcomes, from + 1);
      if !outcomes[from].equal {
        var r := [from] + tail;
        assert DriftedFrom(outcomes, from) == r;
        forall k, l | 0 <= k < l < |r| ensures r[k] < r[l] {
          assert r[l] == tail[l - 1] >= from + 1;
          if k > 0 {
            assert r[k] == tail[k - 1];
            assert tail[k - 1] < tail[l - 1];
          }
        }
      } else {
        assert DriftedFrom(outcomes, from) == tail;
      }
    }
  }

  /** `DriftedFrom` lists every position from `from` on whose outcome
      drifted. */
  lemma {:induction false} DriftedComplete(outcomes: seq<Outcome>, from: nat)
    ensures forall i :: from <= i < |outcomes| && !outcomes[i].equal ==> i in DriftedFrom(outcomes, from)
    decreases |outcomes| - from
  {
    if from < |outcomes| {
      DriftedComplete(outcomes, from + 1);
      var tail := DriftedFrom(outcomes, from + 1);
      if !outcomes[from].equal {
        assert DriftedFrom(outcomes, from) == [from] + tail;
      }
    }
  }

  /** `Changed` keeps the drifted outcomes in entry order, each once:
      its k-th element is the outcome at the k-th drifted position. */
  lemma ChangedInEntryOrder(outcomes: seq<Outcome>)
    ensures var idx := DriftedFrom(outcomes, 0);
            && |Changed(outcomes)| == |idx|
            && forall k :: 0 <= k < |idx| ==> Changed(outcomes)[k] == outcomes[idx[k]]
  {
    ChangedFrom(outcomes, 0);
    assert outcomes[0..] == outcomes;
  }

  lemma {:induction false} ChangedFrom(outcomes: seq<Outcome>, from: nat)
    requires from <= |outcomes|
    ensures var idx := DriftedFrom(outcomes, from);
            && |Changed(outcomes[from..])| == |idx|
            && forall k :: 0 <= k < |idx| ==> Changed(outcomes[from..])[k] == outcomes[idx[k]]
    decreases |outcomes| - from
  {
    if from < |outcomes| {
      ChangedFrom(outcomes, from + 1);
      ChangedStep(outcomes, from);
      if !outcomes[from].equal {
        var c := Changed(outcomes[from + 1..]);
        var tail := DriftedFrom(outcomes, from + 1);
        var idx := [from] + tail;
        assert DriftedFrom(outcomes, from) == idx;
        forall k | 0 <= k < |idx| ensures ([outcomes[from]] + c)[k] == outcomes[idx[k]] {
          if k > 0 {
            assert ([outcomes[from]] + c)[k] == c[k - 1];
            assert idx[k] == tail[k - 1];
          }
        }
      }
    }
  }

  /** Filtering a suffix: its first outcome, when drifted, then the
      filtered rest. */
  lemma ChangedStep(outcomes: seq<Outcome>, from: nat)
    requires from < |outcomes|
    ensures Changed(outcomes[from..]) ==
              (if outcomes[from].equal then [] else [outcomes[from]]) + Changed(outcomes[from + 1..])
  {
    assert outcomes[from..][1..] == outcomes[from + 1..];
  }

  /** The apply loop over the drifted outcomes of a well-formed evaluation,
      when their writes succeed: completes, reconciles the drifted paths,
      and leaves every other path as it was. */
  lemma ReconcileDescribed(t: FileTree, ws: Path, configs: seq<(string, FileConfig)>, outcomes: seq<Outcome>)
    requires Describes(t.files, ws, configs, outcomes)
    requires ValidOutcomes(outcomes)
    requires DistinctPaths(outcomes)
    requires forall i :: 0 <= i < |outcomes| && !outcomes[i].equal ==> WriteSucceeds(outcomes[i])
    ensures ValidOutcomes(Changed(outcomes))
    ensures ApplyWrites(t, Changed(outcomes)).error == None
    ensures forall i :: 0 <= i < |outcomes| ==>
              if outcomes[i].equal then SameAt(t.files, ApplyWrites(t, Changed(outcomes)).tree.files, outcomes[i].path)
              else Reconciled(ApplyWrites(t, Changed(outcomes)).tree, outcomes[i])
    ensures forall p :: (forall i :: 0 <= i < |configs| ==> p != Join(ws, configs[i].0)) ==>
              SameAt(t.files, ApplyWrites(t, Changed(outcomes)).tree.files, p)
  {
    var changed := Changed(outcomes);
    ChangedDistinctPaths(outcomes);
    forall k | 0 <= k < |changed|
      ensures (changed[k].expected.Null? ==> changed[k].path in t.files) && WriteSucceeds(changed[k])
    {
      ChangedMember(outcomes, k);
    }
    ApplyWritesEffect(t, changed);
    var final := ApplyWrites(t, changed).tree;
    forall i | 0 <= i < |outcomes| && outcomes[i].equal
      ensures SameAt(t.files, final.files, outcomes[i].path)
    {
      forall k | 0 <= k < |changed| ensures changed[k].path != outcomes[i].path {
        ChangedMember(outcomes, k);
      }
      ApplyWritesFrame(t, changed, outcomes[i].path);
    }
    forall i | 0 <= i < |outcomes| && !outcomes[i].equal
      ensures Reconciled(final, outcomes[i])
    {
      assert outcomes[i] in changed;
    }
    forall p | forall i :: 0 <= i < |configs| ==> p != Join(ws, configs[i].0)
      ensures SameAt(t.files, final.files, p)
    {
      forall k | 0 <= k < |changed| ensures changed[k].path != p {
        ChangedMember(outcomes, k);
      }
      ApplyWritesFrame(t, changed, p);
    }
  }

  /** Apply mode reconciles the workspace: when every drifted entry's write
      succeeds, the loop completes, each drifted path ends up as its entry
      asks (created or rewritten with the strategy's text, or deleted), and
      every other path, unchanged entries' included, is left as it was. */
  lemma ApplyModeReconciles(t: FileTree, ws: Path, configs: seq<(string, FileConfig)>, outcomes: seq<Outcome>)
    requires ValidConfigs(configs)
    requires DistinctKeys(configs)
    requires CheckFilesForUpdates(t.files, ws, configs) == Ok(outcomes)
    requires forall i :: 0 <= i < |outcomes| && !outcomes[i].equal ==> WriteSucceeds(outcomes[i])
    ensures ValidOutcomes(Changed(outcomes))
    ensures ApplyWrites(t, Changed(outcomes)).error == None
    ensures forall i :: 0 <= i < |outcomes| ==>
              if outcomes[i].equal then SameAt(t.files, ApplyWrites(t, Changed(outcomes)).tree.files, outcomes[i].path)
              else Reconciled(ApplyWrites(t, Changed(outcomes)).tree, outcomes[i])
    ensures forall p :: (forall i :: 0 <= i < |configs| ==> p != Join(ws, configs[i].0)) ==>
              SameAt(t.files, ApplyWrites(t, Changed(outcomes)).tree.files, p)
  {
    OutcomesWellFormed(t.files, ws, configs, outcomes);
    ReconcileDescribed(t, ws, configs, outcomes);
  }

  /** No newline can enter a label from a key without one. */
  lemma LabelHasNoNewline(key: string)
    requires '\n' !in key
    ensures '\n' !in "    " + ForwardSlashes(key)
  {
    var r := ForwardSlashes(key);
    forall i | 0 <= i < |r| ensures r[i] != '\n' {
      assert key[i] in key;
    }
  }

  /** The header names the count in decimal, without leading zeros. */
  lemma HeaderNamesCount(count: nat)
    ensures var h := Header(count);
            && |h| >= 32
            && h[..25] == "Updater found changes to "
            && h[|h| - 7..] == " files:"
            && DecimalValue(h[25..|h| - 7]) == count
            && (h[25] == '0' <==> count == 0)
            && (|h| > 33 ==> h[25] != '0')
            && '\n' !in h
  {
    var h := Header(count);
    assert h[25..|h| - 7] == NatToString(count);
    NatToStringValue(count);
    HeaderHasNoNewline(count);
  }

  /** The header is a single line. */
  lemma HeaderHasNoNewline(count: nat)
    ensures '\n' !in Header(count)
  {
    var h := Header(count);
    var digits := NatToString(count);
    forall i | 0 <= i < |h| ensures h[i] != '\n' {
      if 25 <= i < |h| - 7 {
        assert h[i] == digits[i - 25];
      }
    }
  }

  /** `line` is the label of an entry that drifted. */
  ghost predicate LabelOfDrifted(configs: seq<(string, FileConfig)>, outcomes: seq<Outcome>, line: string) {
    exists i :: 0 <= i < |configs| && i < |outcomes| && !outcomes[i].equal
      && line == "    " + ForwardSlashes(configs[i].0)
  }

  /** Every line of the report after the header is the label of an entry
      that drifted. */
  lemma ChangedLabelsFromDrifted(files: map<Path, string>, ws: Path, configs: seq<(string, FileConfig)>,
                                 outcomes: seq<Outcome>)
    requires Describes(files, ws, configs, outcomes)
    ensures forall k :: 0 <= k < |Changed(outcomes)| ==>
              LabelOfDrifted(configs, outcomes, Labels(Changed(outcomes))[k])
  {
    forall k | 0 <= k < |Changed(outcomes)|
      ensures LabelOfDrifted(configs, outcomes, Labels(Changed(outcomes))[k])
    {
      ChangedMember(outcomes, k);
      var i :| 0 <= i < |outcomes| && !outcomes[i].equal && outcomes[i] == Changed(outcomes)[k];
      assert Labels(Changed(outcomes))[k] == outcomes[i].display;
    }
  }

  /** Every drifted entry's label is a line of the report. */
  lemma DriftedLabelsListed(files: map<Path, string>, ws: Path, configs: seq<(string, FileConfig)>,
                            outcomes: seq<Outcome>)
    requires Describes(files, ws, configs, outcomes)
    ensures forall i :: 0 <= i < |outcomes| && !outcomes[i].equal ==>
              "    " + ForwardSlashes(configs[i].0) in Labels(Changed(outcomes))
  {
    var changed := Changed(outcomes);
    forall i | 0 <= i < |outcomes| && !outcomes[i].equal
      ensures "    " + ForwardSlashes(configs[i].0) in Labels(changed)
    {
      assert outcomes[i] in changed;
      var k :| 0 <= k < |changed| && changed[k] == outcomes[i];
      assert Labels(changed)[k] == outcomes[i].display;
    }
  }

  /** The report's entry lines, in order: the k-th is the label of the
      entry at the k-th drifted position. */
  lemma DriftedLabelsInOrder(files: map<Path, string>, ws: Path, configs: seq<(string, FileConfig)>,
                             outcomes: seq<Outcome>)
    requires Describes(files, ws, configs, outcomes)
    ensures var idx := DriftedFrom(outcomes, 0);
            && |Labels(Changed(outcomes))| == |idx|
            && forall k :: 0 <= k < |idx| ==>
                 Labels(Changed(outcomes))[k] == "    " + ForwardSlashes(configs[idx[k]].0)
  {
    ChangedInEntryOrder(outcomes);
  }

  /** No line of the report holds a newline of its own. */
  lemma ReportLinesHaveNoNewline(files: map<Path, string>, ws: Path, configs: seq<(string, FileConfig)>,
                                 outcomes: seq<Outcome>)
    requires Describes(files, ws, configs, outcomes)
    requires forall i :: 0 <= i < |configs| ==> '\n' !in configs[i].0
    ensures forall k :: 0 <= k < |Changed(outcomes)| ==> '\n' !in Labels(Changed(outcomes))[k]
  {
    ChangedLabelsFromDrifted(files, ws, configs, outcomes);
    forall k | 0 <= k < |Changed(outcomes)| ensures '\n' !in Labels(Changed(outcomes))[k] {
      var i :| 0 <= i < |configs| && i < |outcomes| && !outcomes[i].equal
                 && Labels(Changed(outcomes))[k] == "    " + ForwardSlashes(configs[i].0);
      LabelHasNoNewline(configs[i].0);
    }
  }

  /** Splitting the report gives back its header and labels. */
  lemma ReportLines(changed: seq<Outcome>)
    requires forall k :: 0 <= k < |changed| ==> '\n' !in Labels(changed)[k]
    ensures SplitLines(TestMessage(changed)) == [Header(|changed|)] + Labels(changed)
  {
    HeaderHasNoNewline(|changed|);
    ConsHasNoNewline(Header(|changed|), Labels(changed));
    SplitJoinLines([Header(|changed|)] + Labels(changed));
  }

  /** A line without a newline put before lines without one leaves no
      line holding a newline. */
  lemma ConsHasNoNewline(head: string, lines: seq<string>)
    requires '\n' !in head
    requires forall k :: 0 <= k < |lines| ==> '\n' !in lines[k]
    ensures forall k :: 0 <= k < |lines| + 1 ==> '\n' !in ([head] + lines)[k]
  {
  }

  /** Test mode's report is complete and exact: split into lines it is the
      header naming the number of drifted entries, then one line per drifted
      entry in entry order, each the entry's key indented by four spaces with
      `\` shown as `/`; every drifted entry has its line and every line after
      the header belongs to a drifted entry. */
  lemma TestModeReport(files: map<Path, string>, ws: Path, configs: seq<(string, FileConfig)>, outcomes: seq<Outcome>)
    requires ValidConfigs(configs)
    requires DistinctKeys(configs)
    requires CheckFilesForUpdates(files, ws, configs) == Ok(outcomes)
    requires forall i :: 0 <= i < |configs| ==> '\n' !in configs[i].0
    ensures var changed := Changed(outcomes);
            var lines := SplitLines(TestMessage(changed));
            && lines == [Header(|changed|)] + Labels(changed)
            && DecimalValue(lines[0][25..|lines[0]| - 7]) == |changed|
            && (forall i :: 0 <= i < |outcomes| && !outcomes[i].equal ==>
                  "    " + ForwardSlashes(configs[i].0) in lines[1..])
            && (forall k :: 1 <= k < |lines| ==> LabelOfDrifted(configs, outcomes, lines[k]))
            && var idx := DriftedFrom(outcomes, 0);
               && StrictlyIncreasing(idx)
               && (forall i :: 0 <= i < |outcomes| && !outcomes[i].equal ==> i in idx)
               && |changed| == |idx|
               && |lines| == |idx| + 1
               && (forall k :: 0 <= k < |idx| ==> lines[k + 1] == "    " + ForwardSlashes(configs[idx[k]].0))
  {
    var changed := Changed(outcomes);
    var lines := SplitLines(TestMessage(changed));
    OutcomesWellFormed(files, ws, configs, outcomes);
    ReportLinesHaveNoNewline(files, ws, configs, outcomes);
    ReportLines(changed);
    HeaderNamesCount(|changed|);
    assert lines[1..] == Labels(changed);
    ChangedLabelsFromDrifted(files, ws, configs, outcomes);
    DriftedLabelsListed(files, ws, configs, outcomes);
    ReportLinesInOrder(files, ws, configs, outcomes);
  }

  /** The report's lines after the header are the drifted entries' labels,
      one per drifted position, in entry order. */
  lemma ReportLinesInOrder(files: map<Path, string>, ws: Path, configs: seq<(string, FileConfig)>, outcomes: seq<Outcome>)
    requires Describes(files, ws, configs, outcomes)
    requires forall i :: 0 <= i < |configs| ==> '\n' !in configs[i].0
    ensures var changed := Changed(outcomes);
            var lines := SplitLines(TestMessage(changed));
            var idx := DriftedFrom(outcomes, 0);
            && StrictlyIncreasing(idx)
            && (forall i :: 0 <= i < |outcomes| && !outcomes[i].equal ==> i in idx)
            && |changed| == |idx|
            && |lines| == |idx| + 1
            && (forall k :: 0 <= k < |idx| ==> lines[k + 1] == "    " + ForwardSlashes(configs[idx[k]].0))
  {
    var changed := Changed(outcomes);
    DriftedIncreasing(outcomes, 0);
    DriftedComplete(outcomes, 0);
    ReportLinesHaveNoNewline(files, ws, configs, outcomes);
    ReportLines(changed);
    DriftedLabelsInOrder(files, ws, configs, outcomes);
    ChangedInEntryOrder(outcomes);
  }

  /** One text entry after apply: the file now holds what its callback
      asked for, so checking it again finds it unchanged. */
  lemma TextEntryClean(files: map<Path, string>, files': map<Path, string>, ws: Path, key: string,
                       c: FileConfig, o: Outcome)
    requires c == Strategies.Text(c.update)
    requires CheckFileForUpdates(files, ws, key, c) == Ok(o)
    requires o.equal ==> SameAt(files, files', o.path)
    requires !o.equal ==> ReconciledFile(files', o)
    requires !o.equal ==> c.update(o.expected, Context(key, o.path)) == o.expected
    ensures CheckFileForUpdates(files', ws, key, c).Ok?
    ensures CheckFileForUpdates(files', ws, key, c).value.equal
  {
    var p := Join(ws, key);
    if o.equal {
      assert Actual(files', p, c) == Actual(files, p, c);
    } else if o.expected.Null? {
      assert p !in files';
    } else {
      Strategies.TextWritesVerbatim(c.update, p, o.expected);
      assert files'[p] == o.expected.s;
      Strategies.TextReadsVerbatim(c.update, p, o.expected.s);
      Strategies.TextEqualIsIdentity(c.update, o.expected, o.expected);
    }
  }

  /** When every entry checks out unchanged, the whole evaluation succeeds
      and nothing has drifted. */
  lemma AllCleanNoDrift(files: map<Path, string>, ws: Path, configs: seq<(string, FileConfig)>)
    requires ValidConfigs(configs)
    requires forall i :: 0 <= i < |configs| ==>
               CheckFileForUpdates(files, ws, configs[i].0, configs[i].1).Ok?
               && CheckFileForUpdates(files, ws, configs[i].0, configs[i].1).value.equal
    ensures CheckFilesForUpdates(files, ws, configs).Ok?
    ensures Changed(CheckFilesForUpdates(files, ws, configs).value) == []
  {
    CheckFilesForUpdatesFirstError(files, ws, configs);
    CheckFilesForUpdatesOk(files, ws, configs);
    var r := CheckFilesForUpdates(files, ws, configs);
    if r.Ok? && |Changed(r.value)| > 0 {
      ChangedMember(r.value, 0);
    }
  }

  /** Idempotence for the text strategy: after apply mode has written every
      drifted entry, checking the same entries again finds no drift,
      provided each callback returns its own output unchanged (as a callback
      that ignores the current content does). */
  lemma TextReapplyFindsNoDrift(t: FileTree, ws: Path, configs: seq<(string, FileConfig)>, outcomes: seq<Outcome>)
    requires ValidConfigs(configs)
    requires DistinctKeys(configs)
    requires forall i :: 0 <= i < |configs| ==> configs[i].1 == Strategies.Text(configs[i].1.update)
    requires CheckFilesForUpdates(t.files, ws, configs) == Ok(outcomes)
    requires forall i :: 0 <= i < |outcomes| && !outcomes[i].equal ==>
               && (outcomes[i].expected.Null? || outcomes[i].expected.Str?)
               && configs[i].1.update(outcomes[i].expected, Context(configs[i].0, Join(ws, configs[i].0)))
                    == outcomes[i].expected
    ensures ValidOutcomes(Changed(outcomes))
    ensures var a := ApplyWrites(t, Changed(outcomes));
            && a.error == None
            && CheckFilesForUpdates(a.tree.files, ws, configs).Ok?
            && Changed(CheckFilesForUpdates(a.tree.files, ws, configs).value) == []
  {
    OutcomesWellFormed(t.files, ws, configs, outcomes);
    CheckFilesForUpdatesOk(t.files, ws, configs);
    TextReapplyDescribed(t, ws, configs, outcomes);
  }

  /** The idempotence argument once evaluation's outcomes are described
      entry by entry. */
  lemma TextReapplyDescribed(t: FileTree, ws: Path, configs: seq<(string, FileConfig)>, outcomes: seq<Outcome>)
    requires ValidConfigs(configs)
    requires Describes(t.files, ws, configs, outcomes)
    requires ValidOutcomes(outcomes)
    requires DistinctPaths(outcomes)
    requires forall i :: 0 <= i < |configs| ==> configs[i].1 == Strategies.Text(configs[i].1.update)
    requires forall i :: 0 <= i < |configs| ==>
               CheckFileForUpdates(t.files, ws, configs[i].0, configs[i].1) == Ok(outcomes[i])
    requires forall i :: 0 <= i < |outcomes| && !outcomes[i].equal ==>
               && (outcomes[i].expected.Null? || outcomes[i].expected.Str?)
               && configs[i].1.update(outcomes[i].expected, Context(configs[i].0, Join(ws, configs[i].0)))
                    == outcomes[i].expected
    ensures ValidOutcomes(Changed(outcomes))
    ensures var a := ApplyWrites(t, Changed(outcomes));
            && a.error == None
            && CheckFilesForUpdates(a.tree.files, ws, configs).Ok?
            && Changed(CheckFilesForUpdates(a.tree.files, ws, configs).value) == []
  {
    forall i | 0 <= i < |outcomes| && !outcomes[i].equal ensures WriteSucceeds(outcomes[i]) {
      if !outcomes[i].expected.Null? {
        Strategies.TextWritesVerbatim(configs[i].1.update, outcomes[i].path, outcomes[i].expected);
      }
    }
    ReconcileDescribed(t, ws, configs, outcomes);
    var files' := ApplyWrites(t, Changed(outcomes)).tree.files;
    EntriesCleanAfterApply(t.files, files', ws, configs, outcomes);
    AllCleanNoDrift(files', ws, configs);
  }

  /** Every text entry checks out unchanged once apply has reconciled it. */
  lemma EntriesCleanAfterApply(files: map<Path, string>, files': map<Path, string>, ws: Path,
                               configs: seq<(string, FileConfig)>, outcomes: seq<Outcome>)
    requires ValidConfigs(configs)
    requires |outcomes| == |configs|
    requires forall i :: 0 <= i < |configs| ==> configs[i].1 == Strategies.Text(configs[i].1.update)
    requires forall i :: 0 <= i < |configs| ==>
               CheckFileForUpdates(files, ws, configs[i].0, configs[i].1) == Ok(outcomes[i])
    requires forall i :: 0 <= i < |outcomes| ==>
               if outcomes[i].equal then SameAt(files, files', outcomes[i].path)
               else ReconciledFile(files', outcomes[i])
    requires forall i :: 0 <= i < |outcomes| && !outcomes[i].equal ==>
               configs[i].1.update(outcomes[i].expected, Context(configs[i].0, Join(ws, configs[i].0)))
                 == outcomes[i].expected
    ensures forall i :: 0 <= i < |configs| ==>
              CheckFileForUpdates(files', ws, configs[i].0, configs[i].1).Ok?
              && CheckFileForUpdates(files', ws, configs[i].0, configs[i].1).value.equal
  {
    forall i | 0 <= i < |configs|
      ensures CheckFileForUpdates(files', ws, configs[i].0, configs[i].1).Ok?
      ensures CheckFileForUpdates(files', ws, configs[i].0, configs[i].1).value.equal
    {
      TextEntryClean(files, files', ws, configs[i].0, configs[i].1, outcomes[i]);
    }
  }

  /** With the text strategy, `update` receives `Null` exactly when the file
      does not exist, and the file's text otherwise. */
  lemma TextActualNullIffMissing(files: map<Path, string>, ws: Path, key: string, callback: FileCallback)
    ensures var p := Join(ws, key);
            var r := CheckFileForUpdates(files, ws, key, Strategies.Text(callback));
            && r.Ok?
            && (Actual(files, p, Strategies.Text(callback)).value.Null? <==> p !in files)
            && (p in files ==> r.value.expected == callback(Str(files[p]), Context(key, p)))
            && (p !in files ==> r.value.expected == callback(Null, Context(key, p)))
  {
    var p := Join(ws, key);
    if p in files {
      Strategies.TextReadsVerbatim(callback, p, files[p]);
    }
  }

  /** A text entry drifts exactly when what its callback returns differs
      from the current content: the file's text, or `Null` when it is
      missing. */
  lemma TextEntryOutcome(files: map<Path, string>, ws: Path, key: string, callback: FileCallback)
    ensures var p := Join(ws, key);
            var actual := if p in files then Str(files[p]) else Null;
            var expected := callback(actual, Context(key, p));
            CheckFileForUpdates(files, ws, key, Strategies.Text(callback))
              == Ok(Outcome(expected == actual, "    " + ForwardSlashes(key), p, Strategies.Text(callback), expected))
  {
    var p := Join(ws, key);
    var c := Strategies.Text(callback);
    if p in files {
      Strategies.TextReadsVerbatim(callback, p, files[p]);
    }
    var actual := if p in files then Str(files[p]) else Null;
    var expected := callback(actual, Context(key, p));
    assert Actual(files, p, c) == Ok(actual);
    Strategies.TextEqualIsIdentity(callback, expected, actual);
    var r := CheckFileForUpdates(files, ws, key, c);
    assert r.Ok? && r.value.expected == expected && r.value.equal == (expected == actual);
  }

  /** A file that exists but whose content reads as `Null` (a JSON file
      holding `null`) is treated as absent: when `update` also returns
      `Null`, the entry is unchanged and the file is kept. */
  lemma ExistingNullContentIsKept(files: map<Path, string>, ws: Path, key: string, c: FileConfig)
    requires c.Valid()
    requires Join(ws, key) in files
    requires c.read(Join(ws, key), files[Join(ws, key)]) == Ok(Null)
    requires c.update(Null, Context(key, Join(ws, key))) == Null
    ensures CheckFileForUpdates(files, ws, key, c).Ok?
    ensures CheckFileForUpdates(files, ws, key, c).value.equal
    ensures CheckFileForUpdates(files, ws, key, c).value.expected.Null?
  {
  }
}
