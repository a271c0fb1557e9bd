/**
 * Where `generate` writes each template (template.rb, the `target`
 * expression): an explicit output-map entry for the template's file name,
 * else the stylesheet directory for a stylesheet extension, else the
 * preview directory for the preview page, else the fonts directory.
 */
module Routing {
  import opened RubyFile
  import opened Pathnames
  import opened Lists

  /**
   * `opts[:output]`: the three directories under their symbol keys, and
   * the entries keyed by a literal file name (string keys, which a symbol
   * key never equals).
   */
  datatype OutputDirs = OutputDirs(fonts: string, css: string, preview: string, named: map<string, string>)

  const StylesheetExtensions: set<string> := {".css", ".scss", ".sass", ".less", ".stylus"}

  const PreviewName: string := "fontcustom-preview.html"

  /** The directory a rule sends a template to. */
  datatype Destination = NamedEntry | CssDir | PreviewDir | FontsDir

  /** A routing rule: when it applies to a file name, and where it sends it. */
  datatype Rule =
    | HasEntry(to: Destination)
    | ExtensionIn(exts: set<string>, to: Destination)
    | NameIs(name: string, to: Destination)

  /** The rule table, highest priority first; a template no rule claims goes to `FontsDir`. */
  const Rules: seq<Rule> := [
    HasEntry(NamedEntry),
    ExtensionIn(StylesheetExtensions, CssDir),
    NameIs(PreviewName, PreviewDir)
  ]

  predicate Applies(rule: Rule, name: string, out: OutputDirs) {
    match rule
    case HasEntry(_) => name in out.named
    case ExtensionIn(exts, _) => Extname(name) in exts
    case NameIs(n, _) => name == n
  }

  /** The destination of the first rule of `rules` that applies, else `FontsDir`. */
  function FirstMatch(rules: seq<Rule>, name: string, out: OutputDirs): (d: Destination)
    ensures (forall i :: 0 <= i < |rules| ==> !Applies(rules[i], name, out)) ==> d == FontsDir
  {
    if rules == [] then FontsDir
    else if Applies(rules[0], name, out) then rules[0].to
    else FirstMatch(rules[1..], name, out)
  }

  /** `rules[i]` applies and no rule before it does. */
  predicate FirstApplying(rules: seq<Rule>, name: string, out: OutputDirs, i: int) {
    && 0 <= i < |rules| && Applies(rules[i], name, out)
    && forall j :: 0 <= j < i ==> !Applies(rules[j], name, out)
  }

  /**
   * When some rule applies, the destination is that of the first rule
   * that applies: every rule before it does not.
   */
  lemma {:induction false} FirstMatchIsFirst(rules: seq<Rule>, name: string, out: OutputDirs)
    requires exists i :: 0 <= i < |rules| && Applies(rules[i], name, out)
    ensures exists i :: FirstApplying(rules, name, out, i) && FirstMatch(rules, name, out) == rules[i].to
  {
    if Applies(rules[0], name, out) {
      assert FirstApplying(rules, name, out, 0);
    } else {
      var i :| 0 <= i < |rules| && Applies(rules[i], name, out);
      assert Applies(rules[1..][i - 1], name, out);
      FirstMatchIsFirst(rules[1..], name, out);
      var i' :| FirstApplying(rules[1..], name, out, i') && FirstMatch(rules[1..], name, out) == rules[1..][i'].to;
      forall j | 0 <= j < i' + 1
        ensures !Applies(rules[j], name, out)
      {
        if j > 0 {
          assert rules[j] == rules[1..][j - 1];
        }
      }
      assert FirstApplying(rules, name, out, i' + 1);
    }
  }

  function DirectoryOf(d: Destination, name: string, out: OutputDirs): string
    requires d == NamedEntry ==> name in out.named
  {
    match d
    case NamedEntry => out.named[name]
    case CssDir => out.css
    case PreviewDir => out.preview
    case FontsDir => out.fonts
  }

  /**
   * The target path of template `source`, as template.rb computes it: the
   * base name, routed by an explicit entry, then the extension, then the
   * preview name, then the fonts directory.
   */
  function Target(source: string, out: OutputDirs): string
  {
    var name := Basename(source);
    var ext := Extname(name);
    if name in out.named then Join(out.named[name], name)
    else if ext in StylesheetExtensions then Join(out.css, name)
    else if name == PreviewName then Join(out.preview, name)
    else Join(out.fonts, name)
  }

  /** Whichever rule applies, the target ends with the template's base name. */
  lemma TargetEndsWithName(source: string, out: OutputDirs)
    ensures EndsWith(Target(source, out), Basename(source))
  {
    TargetFollowsRules(source, out);
  }

  /** The targets of `sources`, in order (the `created` list of a run that raises nowhere). */
  function Targets(sources: seq<string>, out: OutputDirs): (r: seq<string>)
    ensures |r| == |sources|
  {
    MapEach(sources, s => Target(s, out))
  }

  /** The targets of one more template: the `created` list grows by one target. */
  lemma TargetsSnoc(sources: seq<string>, out: OutputDirs, i: nat)
    requires i < |sources|
    ensures Targets(sources[..i + 1], out) == Targets(sources[..i], out) + [Target(sources[i], out)]
  {
    MapEachSnoc(sources, s => Target(s, out), i);
  }

  /** The `i`-th target is the target of the `i`-th template. */
  lemma TargetsAt(sources: seq<string>, out: OutputDirs, i: nat)
    requires i < |sources|
    ensures Targets(sources, out)[i] == Target(sources[i], out)
  {
    MapEachAt(sources, s => Target(s, out), i);
  }

  /** The nested conditional of template.rb is the rule table evaluated top to bottom. */
  lemma TargetFollowsRules(source: string, out: OutputDirs)
    ensures var name := Basename(source);
      var d := FirstMatch(Rules, name, out);
      && (d == NamedEntry ==> name in out.named)
      && Target(source, out) == Join(DirectoryOf(d, name, out), name)
  {
    var name := Basename(source);
    var rest := [ExtensionIn(StylesheetExtensions, CssDir), NameIs(PreviewName, PreviewDir)];
    assert Rules == [HasEntry(NamedEntry)] + rest;
    assert rest[1..] == [NameIs(PreviewName, PreviewDir)];
    if name !in out.named {
      assert FirstMatch(Rules, name, out) == FirstMatch(rest, name, out);
      if Extname(name) !in StylesheetExtensions {
        assert FirstMatch(rest, name, out) == FirstMatch(rest[1..], name, out);
      }
    }
  }

  /**
   * The rules in priority order: an explicit entry wins over everything;
   * a stylesheet extension wins over the preview name; whatever no rule
   * claims goes to the fonts directory.
   */
  lemma TargetPriority(source: string, out: OutputDirs)
    ensures var name := Basename(source);
      && (name in out.named ==> Target(source, out) == Join(out.named[name], name))
      && (name !in out.named && Extname(name) in StylesheetExtensions ==>
            Target(source, out) == Join(out.css, name))
      && (name !in out.named && Extname(name) !in StylesheetExtensions && name == PreviewName ==>
            Target(source, out) == Join(out.preview, name))
      && (name !in out.named && Extname(name) !in StylesheetExtensions && name != PreviewName ==>
            Target(source, out) == Join(out.fonts, name))
  {
    TargetFollowsRules(source, out);
  }

  /**
   * The target is the template's file name placed directly in the chosen
   * directory: its names are the directory's names followed by the base
   * name, and its own base name is the template's.
   */
  lemma TargetInsideDirectory(source: string, out: OutputDirs)
    requires IsName(Basename(source))
    ensures var name := Basename(source);
      var d := FirstMatch(Rules, name, out);
      && (d == NamedEntry ==> name in out.named)
      && Segments(Target(source, out)) == Segments(DirectoryOf(d, name, out)) + [name]
      && Basename(Target(source, out)) == name
  {
    var name := Basename(source);
    TargetFollowsRules(source, out);
    var dir := DirectoryOf(FirstMatch(Rules, name, out), name, out);
    SegmentsOfJoin(dir, name);
    SegmentsOfName(name);
    BasenameOfJoin(dir, name);
  }

  /** Every stylesheet extension ends in 's'. */
  lemma StylesheetExtensionsEndInS(ext: string)
    requires ext in StylesheetExtensions
    ensures |ext| > 0 && ext[|ext| - 1] == 's'
  {
  }

  /** A file name whose last character is not 's' never has a stylesheet extension. */
  lemma NotStylesheet(name: string)
    requires IsName(name) && name[|name| - 1] != 's'
    ensures Extname(name) !in StylesheetExtensions
  {
    var ext := Extname(name);
    BasenameOfName(name);
    assert ext == [] || ext[|ext| - 1] == name[|name| - 1];
    if ext in StylesheetExtensions {
      StylesheetExtensionsEndInS(ext);
    }
  }

  /** The preview page goes to the preview directory unless an entry names it. */
  lemma PreviewPageRouting(dir: string, out: OutputDirs)
    requires PreviewName !in out.named
    ensures Target(Join(dir, PreviewName), out) == Join(out.preview, PreviewName)
  {
    BasenameOfJoin(dir, PreviewName);
    assert PreviewName[0] != '/';
    NotStylesheet(PreviewName);
    TargetPriority(Join(dir, PreviewName), out);
  }
}
