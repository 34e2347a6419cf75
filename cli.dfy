/**
 * Option resolution and input-mode dispatch of the `highlight` command line.
 *
 * `argv` is taken as already parsed. The file system, the theme parser, the
 * highlighter's `supportsLanguage` and Node's `path.extname` are parameters.
 */
module Cli {
  import opened Wrappers
  import opened Text

  /** The options handed to the highlighter with every record. */
  datatype HighlightOptions<Theme> = HighlightOptions(ignoreIllegals: bool, theme: Option<Theme>, language: Option<string>)

  /** What the program does with its input. */
  datatype Mode = StreamMode | FileMode(path: string) | HelpMode

  /** `path.extname(filePath).slice(1)`: the extension without its leading dot, or `""`. */
  function Extension(extName: string -> string, filePath: string): (r: string)
    ensures extName(filePath) == "" ==> r == ""
    ensures extName(filePath) != "" ==> extName(filePath) == extName(filePath)[..1] + r
  {
    var e := extName(filePath);
    if e == "" then "" else e[1..]
  }

  /** The language the file extension names, when there is a truthy path and the highlighter supports it. */
  function ExtensionLanguage(filePath: Option<string>, extName: string -> string, supportsLanguage: string -> bool): (r: Option<string>)
    ensures r.Some? <==> Truthy(filePath) && Extension(extName, filePath.value) != ""
                         && supportsLanguage(Extension(extName, filePath.value))
    ensures r.Some? ==> r.value == Extension(extName, filePath.value)
  {
    if Truthy(filePath) then
      var ext := Extension(extName, filePath.value);
      if ext != "" && supportsLanguage(ext) then Some(ext) else None
    else None
  }

  /** The theme: the theme file's text, when truthy, parsed; otherwise none. */
  function ResolveTheme<Theme>(themeText: Option<string>, parse: string -> Theme): (r: Option<Theme>)
    ensures r.Some? <==> Truthy(themeText)
    ensures r.Some? ==> r.value == parse(themeText.value)
  {
    if Truthy(themeText) then Some(parse(themeText.value)) else None
  }

  /**
   * The options as the program builds them: the extension language is stored and then
   * overwritten by `argv.language`, present or not.
   */
  function ResolveOptions<Theme>(filePath: Option<string>, language: Option<string>, themeText: Option<string>,
                                 parse: string -> Theme, extName: string -> string,
                                 supportsLanguage: string -> bool): (r: HighlightOptions<Theme>)
    ensures r.ignoreIllegals
    ensures r.theme == ResolveTheme(themeText, parse)
    ensures r.language == language
  {
    var options := HighlightOptions(true, ResolveTheme(themeText, parse), None);
    var inferred := ExtensionLanguage(filePath, extName, supportsLanguage);
    var options := if inferred.Some? then options.(language := inferred) else options;
    options.(language := language)
  }

  /** The options as the language option's help text describes them: an explicit language wins, else the extension's. */
  function ResolveOptionsIntended<Theme>(filePath: Option<string>, language: Option<string>, themeText: Option<string>,
                                         parse: string -> Theme, extName: string -> string,
                                         supportsLanguage: string -> bool): (r: HighlightOptions<Theme>)
    ensures r.ignoreIllegals
    ensures r.theme == ResolveTheme(themeText, parse)
    ensures language.Some? ==> r.language == language
    ensures language.None? ==> r.language == ExtensionLanguage(filePath, extName, supportsLanguage)
  {
    var options := HighlightOptions(true, ResolveTheme(themeText, parse), None);
    var inferred := ExtensionLanguage(filePath, extName, supportsLanguage);
    var options := if inferred.Some? then options.(language := inferred) else options;
    if language.Some? then options.(language := language) else options
  }

  /** The program and its intended form disagree exactly when no language is given and the extension names a supported one. */
  lemma ExtensionLanguageDiscarded<Theme>(filePath: Option<string>, language: Option<string>, themeText: Option<string>,
                                          parse: string -> Theme, extName: string -> string,
                                          supportsLanguage: string -> bool)
    ensures ResolveOptions(filePath, language, themeText, parse, extName, supportsLanguage)
            != ResolveOptionsIntended(filePath, language, themeText, parse, extName, supportsLanguage)
            <==> language.None? && ExtensionLanguage(filePath, extName, supportsLanguage).Some?
  {
  }

  /** `example.py` with `py` supported and no language option: the program passes no language at all. */
  lemma PythonFileLosesLanguage()
    ensures var extName := (p: string) => if p == "example.py" then ".py" else "";
            var supports := (l: string) => l == "py";
            var parse := (t: string) => t;
            ResolveOptions(Some("example.py"), None, None, parse, extName, supports).language == None &&
            ResolveOptionsIntended(Some("example.py"), None, None, parse, extName, supports).language == Some("py")
  {
    var extName := (p: string) => if p == "example.py" then ".py" else "";
    assert Extension(extName, "example.py") == "py";
  }

  /** Which input the program reads: stdin when no truthy path and stdin is not a terminal, the file when a path is given, help otherwise. */
  function Dispatch(filePath: Option<string>, isTTY: bool): (m: Mode)
    ensures m == StreamMode <==> !Truthy(filePath) && !isTTY
    ensures m.FileMode? <==> Truthy(filePath)
    ensures m.FileMode? ==> m.path == filePath.value
    ensures m == HelpMode <==> !Truthy(filePath) && isTTY
  {
    if !Truthy(filePath) && !isTTY then StreamMode
    else if Truthy(filePath) then FileMode(filePath.value)
    else HelpMode
  }

  /** The exit code: 0 after a file or after the end of the stream, 1 after help. */
  function ExitCode(m: Mode): (code: int)
    ensures code == 1 <==> m == HelpMode
    ensures code == 0 <==> m != HelpMode
  {
    match m
    case StreamMode => 0
    case FileMode(_) => 0
    case HelpMode => 1
  }

  /** A file given on the command line is always read and highlighted, whatever stdin is, and the exit code is 0. */
  lemma FileWins(path: string, isTTY: bool)
    requires path != ""
    ensures Dispatch(Some(path), isTTY) == FileMode(path)
    ensures ExitCode(Dispatch(Some(path), isTTY)) == 0
  {
  }

  /** No file and an interactive terminal: help, exit code 1. */
  lemma InteractiveWithoutFileShowsHelp(filePath: Option<string>)
    requires !Truthy(filePath)
    ensures Dispatch(filePath, true) == HelpMode
    ensures ExitCode(Dispatch(filePath, true)) == 1
  {
  }
}
