/**
 * `Fontcustom::Generator::Template` (lib/fontcustom/generator/template.rb):
 * the step that reconciles `.fontcustom-data` with the generated files.
 * Thor runs its public methods in order: `get_data`, `reset_output`,
 * `make_relative_paths`, `generate`. The files on disk are a set of paths,
 * the data file a `DataFile`, and each step that may raise inside a loop
 * takes the index of the item whose action raises.
 */
module Generator {
  import opened Outcomes
  import opened Routing
  import opened Lists
  import opened FontcustomData

  /**
   * The part of `opts` the generator reads. `.fontcustom-data` lives under
   * `projectRoot`; the generator's `dataFile` stands for that file, so the
   * model reads nothing else from the root.
   */
  datatype Options = Options(
    projectRoot: string,
    templates: seq<string>,
    output: OutputDirs,
    preprocessorFontPath: string)

  /**
   * How far a loop over `n` items gets when the action on item
   * `failAt.value` raises (and on no item when `failAt` is `None`).
   */
  function StopIndex(failAt: Option<nat>, n: nat): (k: nat)
    ensures k <= n
    ensures k < n <==> failAt.Some? && failAt.value < n
    ensures k < n ==> failAt == Some(k)
  {
    if failAt.Some? && failAt.value < n then failAt.value else n
  }

  // ---------------------------------------------------------------------
  // The record after each step

  /** The `ensure` of `reset_output`: `@data[:templates] - deleted`. */
  function AfterReset(d: Data, deleted: seq<string>): (r: Data)
    ensures r.fonts == d.fonts && r.paths == d.paths && r.others == d.others
  {
    d.(templates := Minus(d.templates, deleted))
  }

  /** The reset list keeps exactly the listed files that were not deleted. */
  lemma AfterResetMembers(d: Data, deleted: seq<string>)
    ensures forall x :: x in AfterReset(d, deleted).templates <==> x in d.templates && x !in deleted
  {
    MinusMembers(d.templates, deleted);
  }

  /** The `ensure` of `generate`: `(@data[:templates] + created).uniq`. */
  function AfterGenerate(d: Data, created: seq<string>): (r: Data)
    ensures r.fonts == d.fonts && r.paths == d.paths && r.others == d.others
  {
    d.(templates := Uniq(d.templates + created))
  }

  /**
   * The list `generate` writes has no repeats and holds exactly the old
   * entries and the created targets.
   */
  lemma AfterGenerateMembers(d: Data, created: seq<string>)
    ensures NoDuplicates(AfterGenerate(d, created).templates)
    ensures forall x :: x in AfterGenerate(d, created).templates <==> x in d.templates || x in created
  {
    UniqMembers(d.templates + created);
  }

  /**
   * The record a run that raises nowhere writes last: every earlier
   * template gone, the derived paths stored, and the targets of all
   * templates listed once each.
   */
  function Reconciled(d: Data, opts: Options): Result<Data, Failure>
    requires SameKind(opts.output)
  {
    var r := RelativePaths(d.paths, d.fonts, opts.output, opts.preprocessorFontPath);
    if r.err.Some? then Err(r.err.value)
    else Ok(d.(templates := Uniq(Targets(opts.templates, opts.output)), paths := r.paths))
  }

  /** The records `reset_output` writes: none when there is nothing to remove. */
  function ResetSaves(d: Data): seq<Data> {
    if d.templates == [] then [] else [d.(templates := [])]
  }

  /** The generated files on disk after a run that raises nowhere. */
  function ReconciledFiles(files: set<string>, d: Data, opts: Options): set<string> {
    (files - Elements(d.templates)) + Elements(Targets(opts.templates, opts.output))
  }

  // ---------------------------------------------------------------------
  // The generator

  class Template {
    /** `opts`, fixed for the generator's life. */
    const opts: Options
    /** `@data`, the record in memory. */
    var data: Data
    /** `.fontcustom-data` in the project root. */
    var dataFile: DataFile
    /** The generated files that exist on disk. */
    var files: set<string>
    /** Every record written to `.fontcustom-data`, oldest first. */
    ghost var saves: seq<Data>

    /** Every file the record lists exists on disk. */
    predicate Tracked()
      reads this
    {
      Elements(data.templates) <= files
    }

    constructor (opts: Options, dataFile: DataFile, files: set<string>)
      ensures this.opts == opts && this.dataFile == dataFile && this.files == files
      ensures data == Data([], [], map[], map[]) && saves == []
    {
      this.opts := opts;
      this.dataFile := dataFile;
      this.files := files;
      data := Data([], [], map[], map[]);
      saves := [];
    }

    /** Clearing `.fontcustom-data` and appending the record in memory. */
    method Persist()
      modifies this
      ensures dataFile == Save(data) && saves == old(saves) + [old(data)]
      ensures data == old(data) && files == old(files)
    {
      dataFile := Save(data);
      saves := saves + [data];
    }

    /** `get_data`: load the record, or raise for a missing or corrupt file. */
    method GetData() returns (err: Option<Failure>)
      modifies this
      ensures err.None? <==> Load(old(dataFile)).Ok?
      ensures err.None? ==> data == Load(old(dataFile)).value
      ensures err.Some? ==> err.value == Load(old(dataFile)).error && data == old(data)
      ensures dataFile == old(dataFile) && files == old(files) && saves == old(saves)
    {
      match Load(dataFile)
      case Ok(d) =>
        data := d;
        err := None;
      case Err(e) =>
        err := Some(e);
    }

    /**
     * `reset_output`: delete every listed file in order until one deletion
     * raises (the one at `failAt`); then, whatever happened, drop the
     * deleted files from the list and persist the record.
     */
    method ResetOutput(failAt: Option<nat>) returns (deleted: seq<string>, err: Option<Failure>)
      modifies this
      ensures old(data.templates) == [] ==>
        && deleted == [] && err == None
        && data == old(data) && dataFile == old(dataFile) && files == old(files) && saves == old(saves)
      ensures old(data.templates) != [] ==>
        var t := old(data.templates);
        var k := StopIndex(failAt, |t|);
        && deleted == t[..k]
        && files == old(files) - Elements(deleted)
        && data == AfterReset(old(data), deleted)
        && dataFile == Save(data) && saves == old(saves) + [data]
        && err == (if k < |t| then Some(RemoveFailed(t[k])) else None)
      ensures err.None? ==>
        && deleted == old(data.templates) && data == old(data).(templates := [])
        && files == old(files) - Elements(old(data.templates))
        && dataFile == (if old(data.templates) == [] then old(dataFile) else Save(old(data).(templates := [])))
        && saves == old(saves) + ResetSaves(old(data))
      ensures old(Tracked()) ==> Tracked()
    {
      if data.templates == [] {
        return [], None;
      }
      var t := data.templates;
      var k := StopIndex(failAt, |t|);
      deleted := [];
      var i := 0;
      while i < |t| && failAt != Some(i)
        invariant i <= k
        invariant deleted == t[..i]
        invariant files == old(files) - Elements(deleted)
        invariant data == old(data) && dataFile == old(dataFile) && saves == old(saves)
      {
        assert t[..i + 1] == t[..i] + [t[i]];
        files := files - {t[i]};
        deleted := deleted + [t[i]];
        i := i + 1;
      }
      AfterResetMembers(data, deleted);
      data := data.(templates := Minus(data.templates, deleted));
      if i == |t| {
        assert t[..i] == t;
        MinusSelf(t);
      }
      Persist();
      err := if i < |t| then Some(RemoveFailed(t[i])) else None;
    }

    /**
     * `make_relative_paths`: compute the three derived paths and store
     * them in `:paths`. Nothing is persisted.
     */
    method MakeRelativePaths() returns (err: Option<Failure>)
      requires SameKind(opts.output)
      modifies this
      ensures var r := RelativePaths(old(data.paths), old(data.fonts), opts.output, opts.preprocessorFontPath);
        && data == old(data).(paths := r.paths) && err == r.err
      ensures files == old(files) && dataFile == old(dataFile) && saves == old(saves)
      ensures old(Tracked()) ==> Tracked()
    {
      var r := RelativePaths(data.paths, data.fonts, opts.output, opts.preprocessorFontPath);
      data := data.(paths := r.paths);
      err := r.err;
    }

    /**
     * The loop of `generate`: render every template to its target in order
     * until one raises (the one at `failAt`).
     */
    method RenderTemplates(failAt: Option<nat>) returns (created: seq<string>)
      modifies this`files
      ensures created == Targets(opts.templates[..StopIndex(failAt, |opts.templates|)], opts.output)
      ensures files == old(files) + Elements(created)
    {
      var src := opts.templates;
      var k := StopIndex(failAt, |src|);
      created := [];
      var i := 0;
      while i < |src| && failAt != Some(i)
        invariant i <= k <= |src|
        invariant created == Targets(src[..i], opts.output)
        invariant files == old(files) + Elements(created)
      {
        var target := Target(src[i], opts.output);
        TargetsSnoc(src, opts.output, i);
        ElementsSnoc(created, target);
        files := files + {target};
        created := created + [target];
        i := i + 1;
      }
      assert i == k;
    }

    /**
     * `generate`: render the templates; then, whatever happened, add the
     * targets written to the list without repeats and persist the record.
     */
    method Generate(failAt: Option<nat>) returns (created: seq<string>, err: Option<Failure>)
      modifies this
      ensures var src := opts.templates;
        var k := StopIndex(failAt, |src|);
        && created == Targets(src[..k], opts.output)
        && files == old(files) + Elements(created)
        && data == AfterGenerate(old(data), created)
        && dataFile == Save(data) && saves == old(saves) + [data]
        && err == (if k < |src| then Some(RenderFailed(src[k])) else None)
      ensures err.None? ==> created == Targets(opts.templates, opts.output)
      ensures old(Tracked()) ==> Tracked()
    {
      created := RenderTemplates(failAt);
      assert opts.templates[..|opts.templates|] == opts.templates;
      AfterGenerateMembers(data, created);
      data := data.(templates := Uniq(data.templates + created));
      Persist();
      var k := StopIndex(failAt, |opts.templates|);
      err := if k < |opts.templates| then Some(RenderFailed(opts.templates[k])) else None;
    }

    /**
     * `reset_output`, `make_relative_paths` and `generate` on the loaded
     * record, as Thor invokes them: each runs only if the one before it
     * did not raise.
     */
    method Reconcile(removeFailAt: Option<nat>, renderFailAt: Option<nat>) returns (err: Option<Failure>)
      requires SameKind(opts.output)
      modifies this
      ensures err.None? ==>
        && Reconciled(old(data), opts).Ok?
        && data == Reconciled(old(data), opts).value
        && files == ReconciledFiles(old(files), old(data), opts)
        && dataFile == Save(data)
        && saves == old(saves) + ResetSaves(old(data)) + [data]
      // `reset_output` raises: the deleted files leave the list, its record is the last write
      ensures var t := old(data.templates); var k := StopIndex(removeFailAt, |t|);
        k < |t| ==>
          && err == Some(RemoveFailed(t[k]))
          && data == AfterReset(old(data), t[..k])
          && files == old(files) - Elements(t[..k])
          && dataFile == Save(data) && saves == old(saves) + [data]
      // `make_relative_paths` raises: `generate` is skipped, the reset record is the last write
      ensures var t := old(data.templates);
        var r := RelativePaths(old(data.paths), old(data.fonts), opts.output, opts.preprocessorFontPath);
        StopIndex(removeFailAt, |t|) == |t| && r.err.Some? ==>
          && err == r.err
          && data == old(data).(templates := [], paths := r.paths)
          && files == old(files) - Elements(t)
          && dataFile == (if t == [] then old(dataFile) else Save(old(data).(templates := [])))
          && saves == old(saves) + ResetSaves(old(data))
      // a template raises: the targets written before it are listed, and that record is the last write
      ensures var t := old(data.templates);
        var r := RelativePaths(old(data.paths), old(data.fonts), opts.output, opts.preprocessorFontPath);
        var src := opts.templates; var k := StopIndex(renderFailAt, |src|);
        StopIndex(removeFailAt, |t|) == |t| && r.err.None? && k < |src| ==>
          && err == Some(RenderFailed(src[k]))
          && data == AfterGenerate(old(data).(templates := [], paths := r.paths), Targets(src[..k], opts.output))
          && files == (old(files) - Elements(t)) + Elements(Targets(src[..k], opts.output))
          && dataFile == Save(data)
          && saves == old(saves) + ResetSaves(old(data)) + [data]
      // nothing raises: the run succeeds
      ensures var t := old(data.templates);
        var r := RelativePaths(old(data.paths), old(data.fonts), opts.output, opts.preprocessorFontPath);
        StopIndex(removeFailAt, |t|) == |t| && r.err.None? && StopIndex(renderFailAt, |opts.templates|) == |opts.templates| ==>
          err.None?
      ensures old(Tracked()) ==> Tracked()
    {
      ghost var loaded := data;
      var deleted;
      deleted, err := ResetOutput(removeFailAt);
      if err.Some? {
        return;
      }
      err := MakeRelativePaths();
      if err.Some? {
        return;
      }
      var created;
      created, err := Generate(renderFailAt);
      if err.None? {
        GenerateAfterReset(loaded, opts, data.paths, created, data);
      }
    }

    /** The whole generator: load the record, then reconcile it with the files. */
    method Run(removeFailAt: Option<nat>, renderFailAt: Option<nat>) returns (err: Option<Failure>)
      requires SameKind(opts.output)
      modifies this
      ensures !old(dataFile).Parsed? ==>
        && err == Some(Load(old(dataFile)).error)
        && data == old(data) && dataFile == old(dataFile) && files == old(files) && saves == old(saves)
      ensures err.None? ==>
        && old(dataFile).Parsed?
        && Reconciled(old(dataFile).data, opts).Ok?
        && data == Reconciled(old(dataFile).data, opts).value
        && files == ReconciledFiles(old(files), old(dataFile).data, opts)
        && dataFile == Save(data)
        && saves == old(saves) + ResetSaves(old(dataFile).data) + [data]
      ensures old(dataFile).Parsed? ==>
        var d := old(dataFile).data; var t := d.templates; var k := StopIndex(removeFailAt, |t|);
        k < |t| ==>
          && err == Some(RemoveFailed(t[k]))
          && data == AfterReset(d, t[..k])
          && files == old(files) - Elements(t[..k])
          && dataFile == Save(data) && saves == old(saves) + [data]
      ensures old(dataFile).Parsed? ==>
        var d := old(dataFile).data; var t := d.templates;
        var r := RelativePaths(d.paths, d.fonts, opts.output, opts.preprocessorFontPath);
        StopIndex(removeFailAt, |t|) == |t| && r.err.Some? ==>
          && err == r.err
          && data == d.(templates := [], paths := r.paths)
          && files == old(files) - Elements(t)
          && dataFile == Save(d.(templates := []))
          && saves == old(saves) + ResetSaves(d)
      ensures old(dataFile).Parsed? ==>
        var d := old(dataFile).data; var t := d.templates;
        var r := RelativePaths(d.paths, d.fonts, opts.output, opts.preprocessorFontPath);
        var src := opts.templates; var k := StopIndex(renderFailAt, |src|);
        StopIndex(removeFailAt, |t|) == |t| && r.err.None? && k < |src| ==>
          && err == Some(RenderFailed(src[k]))
          && data == AfterGenerate(d.(templates := [], paths := r.paths), Targets(src[..k], opts.output))
          && files == (old(files) - Elements(t)) + Elements(Targets(src[..k], opts.output))
          && dataFile == Save(data)
          && saves == old(saves) + ResetSaves(d) + [data]
      ensures old(dataFile).Parsed? ==>
        var d := old(dataFile).data; var t := d.templates;
        var r := RelativePaths(d.paths, d.fonts, opts.output, opts.preprocessorFontPath);
        StopIndex(removeFailAt, |t|) == |t| && r.err.None? && StopIndex(renderFailAt, |opts.templates|) == |opts.templates| ==>
          err.None?
      ensures old(dataFile).Parsed? && Elements(old(dataFile).data.templates) <= old(files) ==> Tracked()
    {
      err := GetData();
      if err.Some? {
        return;
      }
      err := Reconcile(removeFailAt, renderFailAt);
    }
  }

  /** Generating every template after a complete reset gives the reconciled record. */
  lemma GenerateAfterReset(loaded: Data, opts: Options, paths: map<string, string>, created: seq<string>, final: Data)
    requires SameKind(opts.output)
    requires RelativePaths(loaded.paths, loaded.fonts, opts.output, opts.preprocessorFontPath) == PathsOutcome(paths, None)
    requires created == Targets(opts.templates, opts.output)
    requires final == AfterGenerate(loaded.(templates := [], paths := paths), created)
    ensures Reconciled(loaded, opts) == Ok(final)
  {
    assert [] + created == created;
  }

  /**
   * The list `generate` writes keeps the old list first, without repeats,
   * then the new targets in the order they were first created.
   */
  lemma GenerateKeepsOldFirst(d: Data, created: seq<string>)
    requires NoDuplicates(d.templates)
    ensures AfterGenerate(d, created).templates == d.templates + Uniq(Minus(created, d.templates))
  {
    UniqAppend(d.templates, created);
    UniqOfDistinct(d.templates);
  }

  /** The elements of `uniq` are those of the list. */
  lemma ElementsOfUniq(s: seq<string>)
    ensures Elements(Uniq(s)) == Elements(s)
  {
    UniqMembers(s);
  }

  /**
   * After a run that raises nowhere, the record lists every target once,
   * and nothing else, and keeps the fonts and every other field.
   */
  lemma ReconciledListsTargets(d: Data, opts: Options)
    requires SameKind(opts.output)
    requires Reconciled(d, opts).Ok?
    ensures var r := Reconciled(d, opts).value;
      && NoDuplicates(r.templates)
      && Elements(r.templates) == Elements(Targets(opts.templates, opts.output))
      && r.fonts == d.fonts && r.others == d.others
  {
    UniqMembers(Targets(opts.templates, opts.output));
    ElementsOfUniq(Targets(opts.templates, opts.output));
  }

  /** Storing the derived entries a second time changes nothing. */
  lemma WithDerivedTwice(paths: map<string, string>, c: string, p: string, f: string)
    ensures WithDerived(WithDerived(paths, c, p, f), c, p, f) == WithDerived(paths, c, p, f)
  {
  }

  /** Running the generator again on the record a successful run wrote writes the same record. */
  lemma ReconcileIdempotent(d: Data, opts: Options)
    requires SameKind(opts.output)
    requires Reconciled(d, opts).Ok?
    ensures Reconciled(Reconciled(d, opts).value, opts) == Reconciled(d, opts)
  {
    var r := Reconciled(d, opts).value;
    var name := FontName(d.fonts).value;
    var c := CssToFonts(opts.output, name).value;
    var p := PreviewToCss(opts.output).value;
    var f := PreprocessorToFonts(opts.preprocessorFontPath, name, c);
    assert r.paths == WithDerived(d.paths, c, p, f);
    WithDerivedTwice(d.paths, c, p, f);
  }

  /** ... and leaves the same files on disk. */
  lemma ReconcileFilesIdempotent(d: Data, files: set<string>, opts: Options)
    requires SameKind(opts.output)
    requires Reconciled(d, opts).Ok?
    ensures ReconciledFiles(ReconciledFiles(files, d, opts), Reconciled(d, opts).value, opts) == ReconciledFiles(files, d, opts)
  {
    ElementsOfUniq(Targets(opts.templates, opts.output));
  }
}
