/**
 * The `.fontcustom-data` record the template generator reads, updates and
 * writes back, the three outcomes of reading it (`get_data`), and the
 * relative paths `make_relative_paths` derives for the templates.
 */
module FontcustomData {
  import opened Outcomes
  import opened RubyFile
  import opened Pathnames
  import opened Routing

  /**
   * The parsed record. `templates` lists the files earlier runs generated
   * (`:templates`), `fonts` the font files of the font stage (`:fonts`),
   * `paths` the derived relative paths (`:paths`), and `others` every
   * further field, carried through untouched.
   */
  datatype Data = Data(
    templates: seq<string>,
    fonts: seq<string>,
    paths: map<string, string>,
    others: map<string, string>)

  /** The file `.fontcustom-data` under the project root, as the parser sees it. */
  datatype DataFile =
    | Absent
    | Unparseable  // empty or malformed JSON
    | Parsed(data: Data)

  /** Every way a run of the generator can raise. */
  datatype Failure =
    | MissingData                 // no .fontcustom-data file in the project root
    | CorruptData                 // the file is empty or is not valid JSON
    | NoFontAssets                // `:fonts` is empty, so no font name to derive paths from
    | PathFailure(e: PathError)   // `relative_path_from` raised
    | RemoveFailed(file: string)  // deleting a previously generated file raised
    | RenderFailed(source: string) // rendering or writing a template raised

  /** `get_data`: a missing file and an unreadable one are told apart. */
  function Load(f: DataFile): (r: Result<Data, Failure>)
    ensures r == Err(MissingData) <==> f.Absent?
    ensures r == Err(CorruptData) <==> f.Unparseable?
    ensures r.Ok? <==> f.Parsed?
    ensures r.Ok? ==> r.value == f.data
  {
    match f
    case Absent => Err(MissingData)
    case Unparseable => Err(CorruptData)
    case Parsed(d) => Ok(d)
  }

  /** Clearing the file and appending the whole serialised record. */
  function Save(d: Data): DataFile {
    Parsed(d)
  }

  /** What is saved is what the next run loads. */
  lemma LoadSave(d: Data)
    ensures Load(Save(d)) == Ok(d)
  {
  }

  const CssToFontsKey: string := "css_to_fonts"
  const PreviewToCssKey: string := "preview_to_css"
  const PreprocessorToFontsKey: string := "preprocessor_to_fonts"

  /** The stylesheet file the preview page links to. */
  const StylesheetName: string := "fontcustom.css"

  /** The base name of the first font with its extension taken off. */
  function FontName(fonts: seq<string>): (r: Result<string, Failure>)
    ensures r.Err? <==> fonts == []
    ensures r.Ok? ==> r.value + Extname(fonts[0]) == Basename(fonts[0])
  {
    if fonts == [] then Err(NoFontAssets)
    else
      StemShape(fonts[0]);
      Ok(Stem(fonts[0]))
  }

  /** The three output directories are all absolute or all relative. */
  predicate SameKind(out: OutputDirs) {
    IsAbsolute(out.fonts) == IsAbsolute(out.css) == IsAbsolute(out.preview)
  }

  /** A plain directory or file name: neither "." nor "..". */
  predicate PlainName(s: string) {
    IsName(s) && s != "." && s != ".."
  }

  /** `css_to_fonts`: from the stylesheet directory to the font file named `name`. */
  function CssToFonts(out: OutputDirs, name: string): Result<string, Failure>
    requires SameKind(out)
  {
    match RelativePathFrom(out.fonts, out.css)
    case Ok(rel) => Ok(Join(rel, name))
    case Err(e) => Err(PathFailure(e))
  }

  /** `preview_to_css`: from the preview directory to the stylesheet. */
  function PreviewToCss(out: OutputDirs): Result<string, Failure>
    requires SameKind(out)
  {
    match RelativePathFrom(out.css, out.preview)
    case Ok(rel) => Ok(Join(rel, StylesheetName))
    case Err(e) => Err(PathFailure(e))
  }

  /** `preprocessor_to_fonts`: the override joined with the font name, or else `css_to_fonts`. */
  function PreprocessorToFonts(fontPath: string, name: string, cssToFonts: string): string {
    if fontPath != "" then Join(fontPath, name) else cssToFonts
  }

  /** The three keys `make_relative_paths` writes. */
  const DerivedKeys: set<string> := {CssToFontsKey, PreviewToCssKey, PreprocessorToFontsKey}

  /** `paths` with the three derived entries stored over it. */
  function WithDerived(paths: map<string, string>, cssToFonts: string, previewToCss: string, preprocessorToFonts: string)
    : (r: map<string, string>)
    ensures r.Keys == paths.Keys + DerivedKeys
    ensures r[CssToFontsKey] == cssToFonts
    ensures r[PreviewToCssKey] == previewToCss
    ensures r[PreprocessorToFontsKey] == preprocessorToFonts
    ensures forall k :: k in paths && k !in DerivedKeys ==> r[k] == paths[k]
  {
    paths[CssToFontsKey := cssToFonts][PreviewToCssKey := previewToCss][PreprocessorToFontsKey := preprocessorToFonts]
  }

  /** `:paths` after `make_relative_paths`, and what it raised, if anything. */
  datatype PathsOutcome = PathsOutcome(paths: map<string, string>, err: Option<Failure>)

  /**
   * `make_relative_paths`: the three entries are computed and stored one
   * after the other, so when `preview_to_css` raises, `css_to_fonts` is
   * already stored; every other entry keeps its value.
   */
  function RelativePaths(paths: map<string, string>, fonts: seq<string>, out: OutputDirs, fontPath: string)
    : (r: PathsOutcome)
    requires SameKind(out)
    ensures r.err == Some(NoFontAssets) <==> fonts == []
    ensures r.err.None? ==> r.paths.Keys == paths.Keys + DerivedKeys
    ensures r.err.Some? ==> r.paths.Keys <= paths.Keys + {CssToFontsKey}
    ensures forall k :: k in paths && k !in DerivedKeys ==> k in r.paths && r.paths[k] == paths[k]
    ensures r.err.None? ==>
      r.paths[PreprocessorToFontsKey] == (if fontPath == "" then r.paths[CssToFontsKey] else Join(fontPath, FontName(fonts).value))
  {
    match FontName(fonts)
    case Err(e) => PathsOutcome(paths, Some(e))
    case Ok(name) =>
      match CssToFonts(out, name)
      case Err(e) => PathsOutcome(paths, Some(e))
      case Ok(c) =>
        var stored := paths[CssToFontsKey := c];
        match PreviewToCss(out)
        case Err(e) => PathsOutcome(stored, Some(e))
        case Ok(p) => PathsOutcome(WithDerived(paths, c, p, PreprocessorToFonts(fontPath, name, c)), None)
  }

  /**
   * When `make_relative_paths` raises nowhere, `css_to_fonts` leads from
   * the stylesheet directory to the font, and `preview_to_css` from the
   * preview directory to fontcustom.css.
   */
  lemma RelativePathsResolve(paths: map<string, string>, fonts: seq<string>, out: OutputDirs, fontPath: string)
    requires SameKind(out)
    requires RelativePaths(paths, fonts, out, fontPath).err.None?
    requires PlainName(FontName(fonts).value)
    ensures var r := RelativePaths(paths, fonts, out, fontPath).paths;
      && Resolve(out.css, r[CssToFontsKey]) == Clean(Segments(out.fonts), IsAbsolute(out.fonts)) + [FontName(fonts).value]
      && Resolve(out.preview, r[PreviewToCssKey]) == Clean(Segments(out.css), IsAbsolute(out.css)) + [StylesheetName]
  {
    var name := FontName(fonts).value;
    assert RelativePaths(paths, fonts, out, fontPath).paths[CssToFontsKey] == CssToFonts(out, name).value;
    assert RelativePaths(paths, fonts, out, fontPath).paths[PreviewToCssKey] == PreviewToCss(out).value;
    CssToFontsResolves(out, name);
    PreviewToCssResolves(out);
  }

  // ---------------------------------------------------------------------
  // What the derived paths mean

  /** Joining a plain name onto a relative path keeps the path relative. */
  lemma JoinNameIsRelative(rel: string, name: string)
    requires |rel| > 0 && rel[0] != '/'
    requires IsName(name)
    ensures !IsAbsolute(Join(rel, name))
    ensures Segments(Join(rel, name)) == Segments(rel) + [name]
  {
    assert name[0] in name;
    SegmentsOfJoin(rel, name);
    SegmentsOfName(name);
  }

  /** Following `rel` and then one more plain name adds that name to where `rel` leads. */
  lemma ResolveThenName(base: string, rel: string, name: string)
    requires |rel| > 0 && rel[0] != '/'
    requires IsName(name) && name != "." && name != ".."
    ensures Resolve(base, Join(rel, name)) == Resolve(base, rel) + [name]
  {
    JoinNameIsRelative(rel, name);
    var absolute := IsAbsolute(base);
    var sb := Segments(base);
    var sr := Segments(rel);
    assert sb + (sr + [name]) == (sb + sr) + [name];
    FoldAppend([], sb + sr, [name], absolute);
  }

  /**
   * `css_to_fonts`, followed from the stylesheet directory, names the font
   * file `name` inside the fonts directory.
   */
  lemma CssToFontsResolves(out: OutputDirs, name: string)
    requires SameKind(out)
    requires IsName(name) && name != "." && name != ".."
    requires CssToFonts(out, name).Ok?
    ensures Resolve(out.css, CssToFonts(out, name).value) == Clean(Segments(out.fonts), IsAbsolute(out.fonts)) + [name]
  {
    var rel := RelativePathFrom(out.fonts, out.css).value;
    RelativePathIsRelative(out.fonts, out.css);
    RelativePathResolves(out.fonts, out.css);
    ResolveThenName(out.css, rel, name);
  }

  /**
   * `preview_to_css`, followed from the preview directory, names
   * fontcustom.css inside the stylesheet directory.
   */
  lemma PreviewToCssResolves(out: OutputDirs)
    requires SameKind(out)
    requires PreviewToCss(out).Ok?
    ensures Resolve(out.preview, PreviewToCss(out).value) == Clean(Segments(out.css), IsAbsolute(out.css)) + [StylesheetName]
  {
    var rel := RelativePathFrom(out.css, out.preview).value;
    RelativePathIsRelative(out.css, out.preview);
    RelativePathResolves(out.css, out.preview);
    StylesheetNameIsName();
    ResolveThenName(out.preview, rel, StylesheetName);
  }

  /**
   * Without an override, `preprocessor_to_fonts` is exactly `css_to_fonts`;
   * with one, it names the font file inside the override directory.
   */
  lemma PreprocessorToFontsMeaning(fontPath: string, name: string, cssToFonts: string)
    requires IsName(name)
    ensures fontPath == "" ==> PreprocessorToFonts(fontPath, name, cssToFonts) == cssToFonts
    ensures fontPath != "" ==>
      && Segments(PreprocessorToFonts(fontPath, name, cssToFonts)) == Segments(fontPath) + [name]
      && Basename(PreprocessorToFonts(fontPath, name, cssToFonts)) == name
  {
    if fontPath != "" {
      SegmentsOfJoin(fontPath, name);
      SegmentsOfName(name);
      BasenameOfJoin(fontPath, name);
    }
  }

  lemma StylesheetNameIsName()
    ensures IsName(StylesheetName) && StylesheetName != "." && StylesheetName != ".."
  {
  }

  /**
   * Output directories side by side under one absolute root (`/root/f`,
   * `/root/c`, `/root/p`): `css_to_fonts` is "../f/<font>" and
   * `preview_to_css` is "../c/fontcustom.css".
   */
  lemma SiblingOutputDirs(root: string, f: string, c: string, p: string, named: map<string, string>, name: string)
    requires PlainName(root) && PlainName(f) && PlainName(c) && PlainName(p)
    requires f != c && c != p
    requires IsName(name)
    ensures var out := OutputDirs("/" + root + "/" + f, "/" + root + "/" + c, "/" + root + "/" + p, named);
      && SameKind(out)
      && CssToFonts(out, name) == Ok("../" + f + "/" + name)
      && PreviewToCss(out) == Ok("../" + c + "/" + StylesheetName)
  {
    SiblingDirectories(root, f, c);
    SiblingDirectories(root, c, p);
    JoinOntoName("../" + f, name);
    JoinOntoName("../" + c, StylesheetName);
  }

  lemma JoinOntoName(dir: string, name: string)
    requires |dir| > 0 && dir[|dir| - 1] != '/'
    requires IsName(name)
    ensures Join(dir, name) == dir + "/" + name
  {
    assert name[0] in name;
  }

  /** The font name of a font file `dir/stem.ext` is `stem`. */
  lemma FontNameOfFontFile(dir: string, stem: string, ext: string, others: seq<string>)
    requires IsName(stem) && stem[0] != '.'
    requires |ext| >= 2 && ext[0] == '.' && '.' !in ext[1..] && '/' !in ext
    ensures FontName([Join(dir, stem + ext)] + others) == Ok(stem)
  {
    var file := stem + ext;
    assert '/' !in file by {
      assert forall i :: 0 <= i < |file| ==> file[i] == if i < |stem| then stem[i] else ext[i - |stem|];
    }
    var font := Join(dir, file);
    BasenameOfJoin(dir, file);
    assert Stem(font) == Stem(file) by {
      BasenameOfName(file);
    }
    ExtnameOfParts(stem, ext);
    assert ([font] + others)[0] == font;
  }
}
