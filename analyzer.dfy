/**
 * `CodeAnalyzer.analyze_file`: the strategy is chosen by the extension that
 * `os.path.splitext` gives. The file's text is an input (reading it is not part
 * of this model), and so is what `ast.parse` makes of it.
 */
module CodeAnalyzer {
  import opened Wrappers
  import opened Strings
  import opened Paths
  import opened PyAst
  import opened Records
  import opened PythonAnalysis
  import opened TypeScriptAnalysis

  /** What `analyze_file(path)` returns or raises for a file with text
      `content`; `parsed` is what `ast.parse(content)` gives (`None` when it
      raises). `.js` and `.jsx` files call `_analyze_javascript`, which the
      class does not define: an `AttributeError`. */
  function FileRecords(path: string, content: string, parsed: Option<Node>): Result<seq<CodeElement>, Error> {
    var ext := SplitExt(path).1;
    if ext == ".py" then Success(PythonRecords(parsed))
    else if ext == ".ts" || ext == ".tsx" then TypeScriptRecords(content)
    else if ext == ".js" || ext == ".jsx" then Failure(AttributeError)
    else Success([])
  }

  /** `analyze_file(path)`. */
  method AnalyzeFile(path: string, content: string, parsed: Option<Node>) returns (r: Result<seq<CodeElement>, Error>)
    ensures r == FileRecords(path, content, parsed)
  {
    var elements: seq<CodeElement> := [];
    var ext := SplitExt(path).1;
    if ext == ".py" {
      var found := AnalyzePython(parsed);
      elements := elements + found;
      assert elements == found;
    } else if ext == ".ts" || ext == ".tsx" {
      var found := AnalyzeTypeScript(content);
      if found.Failure? {
        return found;
      }
      elements := elements + found.value;
      assert elements == found.value;
    } else if ext == ".js" || ext == ".jsx" {
      return Failure(AttributeError);
    }
    return Success(elements);
  }

  /** A file named `stem + ext` goes to the strategy of its extension, even
      when the stem has dots of its own (`app.component.ts`); a file with any
      other extension gives no records. */
  lemma DispatchByExtension(dir: string, stem: string, ext: string, content: string, parsed: Option<Node>)
    requires '/' !in stem && exists k :: 0 <= k < |stem| && stem[k] != '.'
    requires ext != [] && ext[0] == '.' && '/' !in ext && '.' !in ext[1..]
    ensures ext == ".py" ==> FileRecords(dir + stem + ext, content, parsed) == Success(PythonRecords(parsed))
    ensures ext == ".ts" || ext == ".tsx" ==> FileRecords(dir + stem + ext, content, parsed) == TypeScriptRecords(content)
    ensures ext == ".js" || ext == ".jsx" ==> FileRecords(dir + stem + ext, content, parsed) == Failure(AttributeError)
    ensures ext != ".py" && ext != ".ts" && ext != ".tsx" && ext != ".js" && ext != ".jsx" ==>
      FileRecords(dir + stem + ext, content, parsed) == Success([])
  {
    SplitExtOfStem(dir, stem, ext);
  }

  /** The usual name of an Angular source, such as `app.component.ts`, has
      extension `.ts`: it goes to the TypeScript strategy. */
  lemma AngularFileIsTypeScript(dir: string, content: string, parsed: Option<Node>)
    ensures FileRecords(dir + "app.component.ts", content, parsed) == TypeScriptRecords(content)
  {
    var stem := "app.component";
    assert stem[0] != '.';
    DispatchByExtension(dir, stem, ".ts", content, parsed);
    assert dir + stem + ".ts" == dir + "app.component.ts";
  }

  /** A file called just ".py" (or ".ts") has no extension for `splitext`, so it
      gives no records whatever it holds. */
  lemma DotFileHasNoExtension(dir: string, name: string, content: string, parsed: Option<Node>)
    requires dir == [] || dir[|dir| - 1] == '/'
    requires name == ".py" || name == ".ts"
    ensures FileRecords(dir + name, content, parsed) == Success([])
  {
    var p := dir + name;
    assert p[|dir|] == '.';
    assert forall i | |dir| < i < |p| :: p[i] != '.' && p[i] != '/';
    assert LastIndexOf(p, '.') == |dir|;
    if dir != [] {
      assert p[|dir| - 1] == '/';
    }
    assert LastIndexOf(p, '/') == |dir| - 1;
  }
}
