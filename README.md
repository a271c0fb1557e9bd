# Fontcustom template generator, modelled in Dafny

This project models `Fontcustom::Generator::Template`, the step of Fontcustom
that keeps the generated stylesheets and preview page in step with the
`.fontcustom-data` record. Thor runs its four public methods in order:

- `get_data` loads the record. There are three outcomes: the record, a
  "no data file" error, or an "empty or corrupted" error.
- `reset_output` deletes every file the record lists as generated by an
  earlier run. Then, in an `ensure` block, it drops the deleted files from
  the list and rewrites the record.
- `make_relative_paths` derives three paths and stores them under `:paths`:
  - `css_to_fonts`: from the stylesheet directory to the font.
  - `preview_to_css`: from the preview directory to `fontcustom.css`.
  - `preprocessor_to_fonts`: the font under the preprocessor override, or
    `css_to_fonts` when there is no override.
- `generate` renders every template to its target. Then, in an `ensure`
  block, it adds the targets it wrote to the list without repeats and
  rewrites the record.

The model has seven modules:

- `RubyFile`: `File.basename`, `File.extname`, the two-argument
  `File.basename` and `File.join`, on '/'-separated strings.
- `Pathnames`: `Pathname#cleanpath` and `Pathname#relative_path_from`, on
  the names of a path. `Resolve` follows a relative path from a directory
  and serves as the reference for what a relative path means.
- `Routing`: the `target` expression of `generate`. It is given as the
  nested conditional of the source and also as a priority-ordered rule
  table; a lemma proves the two agree.
- `Lists`: Ruby's `Array#-` and `Array#uniq`.
- `FontcustomData`: the record, the data file, what `get_data` loads, and
  the derived paths of `make_relative_paths`.
- `Generator`: the generator as a class.
  - `data` is `@data`.
  - `dataFile` is the file on disk.
  - `files` is the set of generated files on disk.
  - A ghost log `saves` holds every record written.
  - Each loop that may raise on an item takes the index of that item as a
    parameter: `failAt`, `None` for a run where nothing raises.
- `Outcomes`: the `Option` and `Result` types.

The main results are these:

- A run where nothing raises leaves a record equal to `Reconciled`. That
  record lists each target of the configured templates exactly once,
  stores the three derived paths, and keeps every other field.
- Running again on that record changes neither the record nor the files.
- `reset_output`, `make_relative_paths` and `generate`, and hence
  `Reconcile`, each keep "every listed file exists on disk", even when they
  raise half-way. `get_data` replaces the list with what the file holds, so
  `Run` keeps the property when every file in the loaded list exists.
- Followed from their directories, the derived paths reach the font file
  and `fontcustom.css`.

## Model

| member | source | states |
|---|---|---|
| FontcustomData.Load | lib/fontcustom/generator/template.rb:20-30 | A missing file gives the "no data file" error, an empty or malformed one the "corrupted" error, and a parsed file its record, each exactly when the file is in that state |
| Generator.Template.GetData | lib/fontcustom/generator/template.rb:20-30 | `@data` becomes the loaded record exactly when loading succeeds; otherwise the loading error is returned and nothing changes |
| Generator.Template.constructor | lib/fontcustom/generator/template.rb:13 | The generator holds the given options, data file and files on disk, with an empty record and no writes yet |
| Generator.Template.Persist | lib/fontcustom/generator/template.rb:42-45 | The data file holds the record in memory afterwards; the record and the files on disk are unchanged |
| Generator.StopIndex | lib/fontcustom/generator/template.rb:36-39 | A loop over `n` items stops before `n` exactly when the item at `failAt` exists, and then stops at that item |
| Generator.AfterReset | lib/fontcustom/generator/template.rb:41 | The `ensure` of `reset_output` changes only `:templates`: fonts, paths and every other field are kept |
| Generator.AfterResetMembers | lib/fontcustom/generator/template.rb:41 | `@data[:templates] - deleted` keeps exactly the listed files that were not deleted |
| Generator.Template.ResetOutput | lib/fontcustom/generator/template.rb:32-48 | An empty list returns at once and writes nothing. Otherwise the listed files are deleted in order up to the one whose removal raises. The deleted files leave the disk and the list, the record is rewritten, and the error names the file that failed. A full reset removes every listed file from the disk and empties the list, and writes the emptied record unless the list was already empty. Every listed file still exists afterwards |
| Generator.Template.MakeRelativePaths | lib/fontcustom/generator/template.rb:50-62 | `:paths` becomes the staged result of `RelativePaths`, the error is the one it reports, and nothing is written to disk. Every listed file still exists afterwards |
| Generator.Template.RenderTemplates | lib/fontcustom/generator/template.rb:66-83 | `created` holds the targets of the templates before the one whose rendering raises, in order, and exactly those targets are added to the disk |
| Generator.AfterGenerate | lib/fontcustom/generator/template.rb:85 | The `ensure` of `generate` changes only `:templates`: fonts, paths and every other field are kept |
| Generator.AfterGenerateMembers | lib/fontcustom/generator/template.rb:85 | `(@data[:templates] + created).uniq` has no repeats and holds exactly the old entries and the created targets |
| Generator.Template.Generate | lib/fontcustom/generator/template.rb:64-92 | The record lists the old entries and the written targets without repeats and is rewritten even when rendering raises. The error names the template that failed. Without an error every target was written. Every listed file still exists afterwards |
| Generator.Template.Reconcile | lib/fontcustom/generator/template.rb:32-92 | Each step runs only when the one before it did not raise, and each case has its own clause. If a deletion raises, the error names the file that failed. The deleted files leave the disk and the list, and the reset record is the last write. If `make_relative_paths` raises, its error comes back and the list is empty. All listed files are deleted, `generate` is skipped, and the last write is the reset record (none for an empty list). If a template raises, the error names it. The list holds the targets written before it, and that record is the last write. When no deletion, path derivation or template raises, the run succeeds. A run that succeeds leaves the record `Reconciled`, and the files on disk are the old ones minus the old list plus the new targets. Every listed file still exists afterwards |
| Generator.Template.Run | lib/fontcustom/generator/template.rb:20-92 | If the data file does not parse, nothing changes and the `get_data` error is returned. A parsed record gets the same outcomes as in `Reconcile`: a failed deletion, a failed path derivation, a failed template, or, when none of these fails, success with the `Reconciled` record. A loaded list whose files all exist stays that way |
| Generator.GenerateAfterReset | lib/fontcustom/generator/template.rb:32-92 | Generating every template after a full reset and a successful path derivation gives exactly the `Reconciled` record |
| Generator.GenerateKeepsOldFirst | lib/fontcustom/generator/template.rb:85 | For a list without repeats, the new list is the old list followed by the new targets not already listed, in first-created order |
| Generator.ReconciledListsTargets | lib/fontcustom/generator/template.rb:64-92 | After a successful run the list holds each configured target once and nothing else, and the fonts and other fields are kept |
| Generator.ReconcileIdempotent | lib/fontcustom/generator/template.rb:32-92 | Running the generator again on the record a successful run wrote writes the same record |
| Generator.ReconcileFilesIdempotent | lib/fontcustom/generator/template.rb:32-92 | A second successful run leaves the same generated files on disk |
| FontcustomData.FontName | lib/fontcustom/generator/template.rb:51 | The font name fails exactly when `:fonts` is empty; otherwise the name followed by the first font's extension is that font's base name |
| FontcustomData.FontNameOfFontFile | lib/fontcustom/generator/template.rb:51 | For a first font `dir/stem.ext` the font name is `stem` |
| FontcustomData.WithDerived | lib/fontcustom/generator/template.rb:55-61 | The three derived keys are added with their values, and every other key keeps its value |
| FontcustomData.RelativePaths | lib/fontcustom/generator/template.rb:50-62 | An empty `:fonts` is the only source of the "no font" error. On success exactly the three keys are added. A failure adds at most `css_to_fonts`. Other entries keep their values. `preprocessor_to_fonts` is `css_to_fonts` without an override and the override joined with the font name otherwise |
| FontcustomData.RelativePathsResolve | lib/fontcustom/generator/template.rb:50-56 | After a successful derivation, `css_to_fonts` followed from the stylesheet directory reaches the font inside the fonts directory, and `preview_to_css` followed from the preview directory reaches `fontcustom.css` inside the stylesheet directory |
| FontcustomData.CssToFontsResolves | lib/fontcustom/generator/template.rb:55 | `css_to_fonts` followed from the stylesheet directory names the font inside the cleaned fonts directory |
| FontcustomData.PreviewToCssResolves | lib/fontcustom/generator/template.rb:56 | `preview_to_css` followed from the preview directory names `fontcustom.css` inside the cleaned stylesheet directory |
| FontcustomData.PreprocessorToFontsMeaning | lib/fontcustom/generator/template.rb:57-61 | Without an override the entry equals `css_to_fonts`; with one it names the font inside the override directory |
| FontcustomData.ResolveThenName | lib/fontcustom/generator/template.rb:55-56 | Following a relative path joined with one more plain name reaches that name inside where the path leads |
| FontcustomData.JoinNameIsRelative | lib/fontcustom/generator/template.rb:55-56 | Joining a name onto a relative path keeps it relative and appends the name to its names |
| FontcustomData.SiblingOutputDirs | lib/fontcustom/generator/template.rb:52-56 | For sibling output directories `/root/f`, `/root/c` and `/root/p`, the derived paths are `../f/<font>` and `../c/fontcustom.css` |
| Pathnames.RelativePathResolves | lib/fontcustom/generator/template.rb:55-56 | Following the result of `relative_path_from` from the base directory reaches the cleaned destination |
| Pathnames.RelativePathIsRelative | lib/fontcustom/generator/template.rb:55-56 | `relative_path_from` returns a nonempty relative path |
| Pathnames.ClimbThenDescend | lib/fontcustom/generator/template.rb:55-56 | On clean names, climbing out of what the base does not share with the destination and then descending into the rest of the destination ends at the destination |
| Pathnames.ClimbBack | lib/fontcustom/generator/template.rb:55-56 | One ".." per trailing name leads back to where those names began |
| Pathnames.FoldKeepsCanonical | lib/fontcustom/generator/template.rb:52-56 | `cleanpath` produces a clean path: names only, no ".", every ".." in front, and none at all in an absolute path |
| Pathnames.FoldCanonical | lib/fontcustom/generator/template.rb:52-56 | `cleanpath` of a clean path changes nothing |
| Pathnames.FoldAppend | lib/fontcustom/generator/template.rb:52-56 | Cleaning a concatenation is cleaning the second part onto the cleaned first part |
| Pathnames.AbsolutePathsNeverFail | lib/fontcustom/generator/template.rb:55-56 | Between two absolute directories `relative_path_from` never raises |
| Pathnames.SameDirectoryIsDot | lib/fontcustom/generator/template.rb:55-56 | From a directory to itself the relative path is "." |
| Pathnames.SiblingDirectories | lib/fontcustom/generator/template.rb:55-56 | From `/root/y` to its sibling `/root/x` the relative path is `../x` |
| Pathnames.NamesToPathShape | lib/fontcustom/generator/template.rb:55-56 | The path built from names is relative and splits back into those names ("." for none) |
| Pathnames.SegmentsOfJoin | lib/fontcustom/generator/template.rb:55-58 | The names of `File.join(a, b)` are the names of `a` followed by those of `b` |
| Pathnames.SegmentsOfJoinAll | lib/fontcustom/generator/template.rb:55-56 | Joining names and splitting the result gives the names back |
| Pathnames.SegmentsAppend | lib/fontcustom/generator/template.rb:55-56 | Splitting a concatenation that meets at a separator splits each side |
| Routing.FirstMatch | lib/fontcustom/generator/template.rb:71-79 | When no rule applies, the destination is the fonts directory |
| Routing.FirstMatchIsFirst | lib/fontcustom/generator/template.rb:71-79 | When some rule applies, the destination is that of a rule that applies, and no rule before it applies |
| Routing.TargetFollowsRules | lib/fontcustom/generator/template.rb:69-79 | The nested conditional equals the first applicable rule of the priority table, and the target is the base name joined onto that rule's directory |
| Routing.TargetPriority | lib/fontcustom/generator/template.rb:71-79 | An explicit output entry for the file name wins. Otherwise a stylesheet extension goes to the css directory, then the preview page to the preview directory, and everything else to the fonts directory |
| Routing.TargetInsideDirectory | lib/fontcustom/generator/template.rb:69-79 | The target's names are the chosen directory's names followed by the template's base name, and its base name is the template's |
| Routing.TargetEndsWithName | lib/fontcustom/generator/template.rb:69-79 | Whatever the route, the target ends with the template's base name |
| Routing.NotStylesheet | lib/fontcustom/generator/template.rb:73 | A file name not ending in 's' is never routed as a stylesheet |
| Routing.PreviewPageRouting | lib/fontcustom/generator/template.rb:75-76 | Unless an output entry names it, `fontcustom-preview.html` goes to the preview directory |
| Routing.TargetsAt | lib/fontcustom/generator/template.rb:68-83 | The `i`-th created target is the target of the `i`-th template |
| Routing.TargetsSnoc | lib/fontcustom/generator/template.rb:68-83 | Rendering one more template appends its target to `created` |
| Lists.MinusMembers | lib/fontcustom/generator/template.rb:41 | `a - b` holds exactly the elements of `a` not in `b` |
| Lists.MinusKeepsCounts | lib/fontcustom/generator/template.rb:41 | `a - b` keeps each element not in `b` as many times as `a` has it |
| Lists.MinusSelf | lib/fontcustom/generator/template.rb:41 | A list minus itself is empty, so a full reset empties the list |
| Lists.MinusNothing | lib/fontcustom/generator/template.rb:41 | A list minus the empty list is itself, so a reset that deletes nothing keeps the list |
| Lists.MinusAppend | lib/fontcustom/generator/template.rb:41 | `(a + c) - b` is `(a - b) + (c - b)` |
| Lists.UniqMembers | lib/fontcustom/generator/template.rb:85 | `uniq` has no repeats and the same elements as its input |
| Lists.UniqOfDistinct | lib/fontcustom/generator/template.rb:85 | A list without repeats is its own `uniq` |
| Lists.UniqAppend | lib/fontcustom/generator/template.rb:85 | `(a + b).uniq` is `a.uniq` followed by the first occurrences of the elements of `b` not in `a` |
| Lists.UniqIdempotent | lib/fontcustom/generator/template.rb:85 | `uniq` of `uniq` changes nothing |
| RubyFile.BasenameShape | lib/fontcustom/generator/template.rb:69 | `File.basename` is empty only for "", contains '/' only as "/" for an all-separator path, and otherwise ends the path once trailing separators are dropped |
| RubyFile.BasenameIdempotent | lib/fontcustom/generator/template.rb:69-70 | The base name of a base name is itself |
| RubyFile.BasenameOfJoin | lib/fontcustom/generator/template.rb:72-78 | The base name of a directory joined with a file name is that file name |
| RubyFile.ExtnameShape | lib/fontcustom/generator/template.rb:70 | `File.extname` is empty or a dot and at least one further character, with no other dot and no separator, ending the base name and shorter than it |
| RubyFile.ExtnameOfParts | lib/fontcustom/generator/template.rb:51 | For `stem.ext` with a stem that does not start with a dot, the extension is `.ext` and the stem is `stem` |
| RubyFile.StemShape | lib/fontcustom/generator/template.rb:51 | `File.basename(p, File.extname(p))` followed by the extension is the base name, and is empty only for "" |
| RubyFile.JoinShape | lib/fontcustom/generator/template.rb:72-78 | `File.join(a, b)` starts with `a` without trailing separators and ends with `b`, with only separators between them and at least one unless `b` starts with one |
| RubyFile.AfterLastShape | lib/fontcustom/generator/template.rb:69 | The part after the last `c` is a tail free of `c`, preceded by a `c` unless it is the whole string |
| RubyFile.StripTrailingSlashesShape | lib/fontcustom/generator/template.rb:69 | Stripping trailing separators leaves a prefix that does not end in one, and removes only separators |

## Left out

- Thor plumbing (`argument :opts`, `source_root`, template lookup): the options are a parameter of the constructor.
- ERB rendering and file contents: rendering a template is a step that either writes its target or raises. A failing render writes nothing. File contents are not modelled, only which generated files exist.
- JSON encoding and decoding: the data file is parsed, absent or unparseable. Saving stores the record itself, and `LoadSave` states that it round-trips.
- `say_changed` console output and `:verbose` flags: output only.
- Rewriting the data file (clear then append) is one atomic step. A crash between the two writes is not modelled.
- `@data` is nil before `get_data`; the constructor starts with an empty record, which no step reads before `get_data` replaces it.
- Missing keys are not modelled, because the record and the options always have these fields. In Ruby, a record without `:paths`, `:templates` or `:fonts` raises `NoMethodError`, calling a method on `nil`. An `opts[:output]` hash without `:fonts`, `:css` or `:preview` raises `TypeError` from `Pathname.new(nil)`. An `opts[:output]` that is itself `nil` raises `NoMethodError`.
- Only '/' is a separator. Windows separators and drive letters are not modelled.
- RubyFile.Extname: follows the Ruby versions before 2.7, where "foo." has no extension. Ruby 2.7 and later return ".".
- Pathnames.RelativePathFrom: mixing an absolute and a relative directory raises `ArgumentError` in Ruby. Here it is a precondition, not an error outcome. `RelativePathFrom` requires `IsAbsolute(dest) == IsAbsolute(base)`, and `SameKind` requires the same of the three output directories. The modelled error `BaseHasParent` is a base that still has '..' after the leading names it shares with the destination are dropped.
- `remove_file` of a file that is already gone does nothing in Thor. The model removes it from the set, which has the same effect.
- `get_data` and the three later steps are separate methods (`GetData`, `Reconcile`), and `Run` composes them. A step that raises ends the run, as in Thor.
- The first branch of the routing tests the keys of `opts[:output]`. Those keys are symbols in the three directory entries, so only entries keyed by a literal file name can match. The model keeps those entries in `OutputDirs.named`.
