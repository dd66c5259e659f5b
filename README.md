# Code analyzer and class splitter of `background`

`background` is a PyQt desktop tool. It loads one source file and lists the
structural elements it finds, then shows metrics for them. It can also split a
Python file into one file per class. This project models the non-graphical
core of that tool and proves properties of the model:

- **Code analyzer.** `CodeAnalyzer` (`src/code_analyzer.py`) picks a strategy
  from the file's extension. It also exists as a verbatim copy in
  `scripts/generator.py:27-150`, 19 lines further down.
  - *Python files:* it walks the parse tree and makes one record per class
    definition, nested ones included. Each record carries:
    - the class's plain decorators;
    - its direct methods;
    - the import statements of the whole file;
    - the identifiers its subtree references.
  - *TypeScript files:* it scans the text line by line for four Angular
    decorator signatures. Every signature a line contains gives a record named
    after the class declared on the next line. Each record carries every import
    line and every method signature of the file.
- **Metrics and selection.** `update_ui` (`main_window.py:253-339`, copied at
  `scripts/generator.py:436-522`) shows three counts: classes, methods and
  imports. It then selects the first record with the smallest line number.
- **Class splitter.** `split_classes` and its two helpers
  (`main_window.py:344-414`, copied at `scripts/generator.py:527-597`) write
  each class to a file of its own, next to the source file. Each such file holds:
  - the import statements whose imported names occur in the class's source;
  - an empty line;
  - the class's source.

The model is written in Dafny, with one module per part of the tool:

- `Strings`, `Paths`, `Seqs`: the Python primitives the code relies on
  (`str.strip`, `str.split`, `str.join`, `str.lower`, `os.path.basename`,
  `dirname`, `splitext`, `join`, and list comprehensions).
- `PyAst`: the part of the `ast` module the tool reads. The tree is a datatype,
  and `ast.walk` is a breadth-first queue walk. It is proved to visit every
  node exactly once.
- `Records`: the record type and the errors that can escape.
- `PythonAnalysis`, `TypeScriptAnalysis`, `CodeAnalyzer`: the analyzer. Its
  loops are methods proved against reference functions.
- `Metrics`: the counts and the selection of `update_ui`.
- `ClassSplitter`: `split_classes`, `_get_class_imports` and
  `_get_imported_names`.
- `SourceWiring`: the analyzer exactly as `src/code_analyzer.py` wires it to
  `src/code_element.py` (see Findings).

The world outside the program enters only as parameters:

- a file's text;
- the tree `ast.parse` gives, or `None` when it raises (each node stores its
  `ast.get_source_segment` text);
- whether the selected file could be read;
- the set of paths whose write succeeds.

Behaviours of the code that the model keeps as they are:

- A decorator signature on the last line of a TypeScript file makes
  `lines[i+1]` raise `IndexError`. Nothing guards or catches it, so
  `analyze_file` raises. The model returns `Failure(IndexError)`.
- The signature loop has no `break`: every signature a line contains gives its
  own record, in table order, so one line can give up to four records.
- A `.js` or `.jsx` file makes `analyze_file` call `_analyze_javascript`. The
  class does not define it, so this raises `AttributeError`. The model returns
  `Failure(AttributeError)`.
- `_get_class_imports` keeps the selected imports in the order `ast.walk`
  visits them, not in file order.
- The record type is the `@dataclass` of `scripts/generator.py:17-25`. The
  field `type` is named `kind` here.

## Model

| member | source | states |
|---|---|---|
| `CodeAnalyzer.AnalyzeFile` | src/code_analyzer.py:35-47 | the result is the Python records for `.py`, the TypeScript result for `.ts`/`.tsx`, `AttributeError` for `.js`/`.jsx`, and no records for any other extension |
| `CodeAnalyzer.DispatchByExtension` | src/code_analyzer.py:38-45 | for a file `stem + ext` whose stem has no `/` and is not all dots (`app.component` included), each extension reaches exactly its branch, and every other extension gives no records |
| `CodeAnalyzer.AngularFileIsTypeScript` | scripts/generator.py:57-62 | a file named `app.component.ts` is analysed as TypeScript: the extension is the last one, `.ts` |
| `CodeAnalyzer.DotFileHasNoExtension` | scripts/generator.py:57-66 | a file called just `.py` or `.ts` has no extension for `splitext`, so it gives no records |
| `PythonAnalysis.AnalyzePython` | src/code_analyzer.py:49-68 | the records are those of the class definitions in walk order; a tree that failed to parse gives none |
| `PythonAnalysis.PythonRecordsPerClass` | src/code_analyzer.py:53-65 | there is one record per class definition, nested ones included; record i is a `class` record with the i-th class's name, line, plain decorators, direct methods and dependencies, and the file-wide imports |
| `PythonAnalysis.DecoratorNamesArePlain` | src/code_analyzer.py:55 | a decorator name is recorded if and only if a plain `@name` decorator of that name is present |
| `PythonAnalysis.MethodNamesAreDirect` | src/code_analyzer.py:56 | a method name is recorded if and only if a `def` of that name is a direct statement of the class body |
| `PythonAnalysis.GetImports` | src/code_analyzer.py:92-99 | the loop returns, in walk order, the bare names of each `import` and the text `from M import a, b` of each `from` import |
| `PythonAnalysis.ImportEntriesFromWholeTree` | scripts/generator.py:111-118 | an entry is collected if and only if an import statement anywhere in the tree contributes it, not only at top level |
| `PythonAnalysis.GetDependencies` | src/code_analyzer.py:101-106 | the loop collects the id of every `Name` node the walk meets, then removes repeats |
| `PythonAnalysis.DependenciesExact` | scripts/generator.py:120-125 | the dependencies hold no repeats, and an identifier is among them if and only if a `Name` node with it lies in the subtree |
| `PyAst.WalkVisitsAll` | src/code_analyzer.py:53 | `ast.walk` visits every node of the tree exactly once (as a multiset the walk is the tree's nodes), the root first |
| `PyAst.WalkClassDefs` | src/code_analyzer.py:53-54 | the walk meets exactly as many class definitions as the tree holds, nested ones included |
| `TypeScriptAnalysis.AnalyzeTypeScript` | src/code_analyzer.py:70-90 | the result is `IndexError` when the last line holds a signature; otherwise it is, line by line and in table order, one record per signature a line contains |
| `TypeScriptAnalysis.ScanLine` | src/code_analyzer.py:77-88 | the inner loop appends, in table order, one record for each signature the line contains |
| `TypeScriptAnalysis.TrySignature` | src/code_analyzer.py:78-88 | one signature extends the records by its record exactly when the line contains it |
| `TypeScriptAnalysis.SignatureElement` | src/code_analyzer.py:79-87 | the record has the next line's class name, the signature's kind, the stripped line as its only decorator, the file's import lines and method signatures, the 1-based line and no dependencies |
| `TypeScriptAnalysis.LastLineRaises` | scripts/generator.py:94-99 | on the last line the loop raises if and only if the line contains a signature |
| `TypeScriptAnalysis.TypeScriptRecordsSound` | scripts/generator.py:94-107 | every record stands for a signature contained in a line that is not the last: its kind, decorator, name, imports, methods and empty dependencies are those that line and the next give |
| `TypeScriptAnalysis.TypeScriptRecordsComplete` | src/code_analyzer.py:75-88 | every signature contained in a line that is not the last gives a record of that kind on that line |
| `TypeScriptAnalysis.TypeScriptRecordsOrdered` | src/code_analyzer.py:75-88 | the records come in scan order: by line number, and on one line by the table order of their kinds; so no signature of a line gives two records |
| `TypeScriptAnalysis.ExtractName` | src/code_analyzer.py:108-112 | the name is a non-empty run of word characters; with no match it is `Unknown` |
| `TypeScriptAnalysis.ExtractNameIsFirstClassWord` | scripts/generator.py:127-131 | the name is the word after the leftmost `class` keyword followed by whitespace and a word, or `Unknown`; the `export class` alternative never decides it |
| `TypeScriptAnalysis.SearchNameIsFirstClassWord` | src/code_analyzer.py:109-111 | the leftmost match of the two alternatives gives the same name as the leftmost match of the `class` alternative alone |
| `TypeScriptAnalysis.ExtractImports` | src/code_analyzer.py:114-119 | the loop returns, in file order, the stripped lines that start with `import ` or `from ` |
| `TypeScriptAnalysis.ImportLinesExact` | scripts/generator.py:133-138 | a text is an import if and only if some line, stripped, equals it and starts with `import ` or `from ` |
| `TypeScriptAnalysis.ImportLinesAreImports` | src/code_analyzer.py:116-118 | every import is a single line that starts with `import ` or `from ` |
| `TypeScriptAnalysis.ExtractMethods` | src/code_analyzer.py:121-127 | the loop returns the stripped texts of the successive leftmost matches of the method pattern |
| `TypeScriptAnalysis.MatchAt` | src/code_analyzer.py:123 | a match of the method pattern at an offset is non-empty and ends with `{` |
| `TypeScriptAnalysis.MethodSignaturesEndWithBrace` | scripts/generator.py:140-146 | every method signature is non-empty, ends with `{` and does not start with whitespace |
| `Metrics.SignatureKeyNotClass` | src/code_analyzer.py:11-16 | no key of the Angular signature table is `class` |
| `Metrics.TotalClasses` | main_window.py:260 | the class count never exceeds the number of records |
| `Metrics.AllClassRecords` | scripts/generator.py:443 | when every record is a `class` record, the class count is the record count |
| `Metrics.NoClassRecords` | main_window.py:260 | when no record is a `class` record, the class count is zero |
| `Metrics.MethodsShared` | main_window.py:261 | records that share one method list count its length once per record |
| `Metrics.ImportsShared` | main_window.py:262 | records that share one import list count its length once per record |
| `Metrics.PythonMetrics` | main_window.py:260-262 | for a Python file the class total is the number of class definitions, nested ones included, and the import total is that number times the file's import count |
| `Metrics.TypeScriptMetrics` | scripts/generator.py:443-445 | for a TypeScript file the class total is zero, and the import and method totals are the file's counts times the number of records |
| `Metrics.LineNumbers` | main_window.py:330 | there is one line number per record, in order |
| `Metrics.FirstMinimum` | main_window.py:332 | `lines.index(min(lines))` holds the smallest value, and every earlier position holds a larger one |
| `Metrics.SelectedRow` | main_window.py:330-332 | no row is selected exactly when there are no records; otherwise the row is the first record with the smallest line number |
| `Strings.StripSpec` | src/code_analyzer.py:117-118 | `strip()` gives the slice between the leading and the trailing whitespace, and that slice neither starts nor ends with whitespace |
| `Strings.ContainsIffOccurs` | src/code_analyzer.py:78 | searching for an escaped literal signature is a substring test: it holds if and only if the signature occurs at some offset |
| `Strings.Split` | src/code_analyzer.py:72 | `split('\n')` gives at least one piece, and no piece holds the separator |
| `Strings.JoinSplit` | src/code_analyzer.py:72 | property of `str.split`: the lines, joined again with line breaks, give the file's text back, so the scan loses no character |
| `Strings.SplitJoin` | src/code_analyzer.py:72 | property of `str.split` and `str.join`: splitting a join of separator-free parts gives the parts back |
| `Strings.Lower` | main_window.py:367 | the lower-cased name has the name's length, and each character is lowered |
| `Paths.SplitExt` | src/code_analyzer.py:38 | root and extension concatenate to the path; the extension is empty or a dot followed by neither `.` nor `/` |
| `Paths.SplitExtOfStem` | scripts/generator.py:57 | a stem with no `/` that is not all dots (it may hold dots, as `app.component` does), followed by an extension, splits into exactly that stem and extension |
| `Paths.Basename` | main_window.py:357 | the base name holds no `/`, ends the path, and follows a `/` when it is not the whole path |
| `Paths.Dirname` | main_window.py:356 | the directory part is a prefix of the path |
| `Paths.PathJoin` | main_window.py:365-368 | joining a relative name gives a path that ends with that name |
| `Paths.SplitFileBesideSource` | scripts/generator.py:539-551 | the class file is named `{base}_{lower-case class name}.py`, lies in the source's directory, and is never the `.py` source itself |
| `ClassSplitter.ImportedNames` | main_window.py:405-414 | the imported names of a node that is not an import statement are none |
| `ClassSplitter.ClassImports` | main_window.py:386-400 | the loop returns, in walk order, the source segments of the import statements one of whose names occurs in the class's source |
| `ClassSplitter.SelectedImportsMember` | main_window.py:391-395 | a segment is selected if and only if a relevant import statement among the walked nodes has it |
| `ClassSplitter.ClassImportsExact` | scripts/generator.py:569-580 | a segment is selected if and only if an import statement anywhere in the tree has it and one of its names occurs in the class's source |
| `ClassSplitter.ContentLayout` | main_window.py:364 | the content is the import block (each import followed by a line break), one more line break, and the class's source |
| `ClassSplitter.ContentEndsWithClass` | scripts/generator.py:547 | the content starts with the import block and a line break, and ends with the class's source verbatim |
| `ClassSplitter.SplitOutcome` | main_window.py:344-381 | with no selected file nothing is reported; an unreadable file, or a `.py` file that does not parse, ends with the error message and no files; class files come only from a readable `.py` file that parses |
| `ClassSplitter.SplitClasses` | scripts/generator.py:527-564 | the method's report is the outcome function's report for the same inputs |
| `ClassSplitter.SplitClass` | main_window.py:360-373 | a class's file is written when its path is writable, otherwise a warning names the class |
| `ClassSplitter.SplitTree` | main_window.py:359-373 | the loop gives the outcome of each class in order |
| `ClassSplitter.SplitOnePerClass` | main_window.py:352-379 | a readable `.py` file that parses gives one outcome per class definition, nested ones included, and the success message |
| `ClassSplitter.ClassOutcomeWrittenIffWritable` | scripts/generator.py:548-556 | the k-th class's file is written if and only if its path is writable; a written file is the planned one, and a warning names the class |
| `ClassSplitter.PlannedFileShape` | main_window.py:356-371 | a class file ends with the class's source after its import block; it is named after the source's base name and the lower-cased class name, lies beside the source, and never overwrites it |
| `ClassSplitter.FailureIsLocal` | main_window.py:372-373 | a class's outcome depends only on whether its own path is writable, so a failed write does not affect any other class |
| `SourceWiring.PlainPythonScanRaises` | src/code_analyzer.py:53-65 | with the plain record class the walk raises `TypeError` if and only if it meets a class definition, and otherwise finds nothing |
| `SourceWiring.PlainPythonLosesClasses` | src/code_analyzer.py:49-68 | with the plain record class a Python file with classes yields no records, where the dataclass version yields one per class |
| `SourceWiring.PlainTypeScriptSucceeds` | src/code_analyzer.py:75-90 | with the plain record class the scan succeeds if and only if no line holds a signature, and then finds nothing |
| `SourceWiring.PlainTypeScriptTypeError` | src/code_analyzer.py:79-87 | a signature on a line before the last makes the plain-class scan raise `TypeError`, whatever the last line holds |
| `SourceWiring.PlainTypeScriptRaises` | src/code_analyzer.py:70-90 | wherever the dataclass version finds a record, the plain-class version raises `TypeError` |
| `SourceWiring.PlainTypeScriptAgreesUnsigned` | src/code_analyzer.py:72-78 | when no line holds a signature both versions agree on no records |

## Left out

- The PyQt user interface is not modelled: the dashboard cards, the tree widget items and their colours, the progress bar, the file dialog, the worker thread (`src/analysis_worker.py`, `AnalysisWorker`) and the file-information panel (size, modification time). The message boxes of `split_classes` become the report's notice and its per-class warnings.
- File I/O is abstracted. `_read_file` is replaced by the file's text as a parameter, `open` for reading by a `readable` flag, and writing by the set of writable paths. Encoding errors are not modelled.
- `ast.parse` and `ast.get_source_segment` are inputs: the tree, or `None`, and a segment stored on each class and import node. Only the node kinds the tool inspects are distinguished; every other node is a generic node with its children.
- `_get_class_imports` parses the source again; the model reuses the tree the caller parsed, since both parses give the same tree. Its `except` branch (a `None` class segment making `in` raise) is not modelled, because segments are always text here.
- `print` and the log line of the `except` branch of `_analyze_python` are not modelled.
- The `react`, `python` and `nestjs` pattern tables are defined but never read by the code, so they are not modelled.
- The average methods per class shown by `update_ui` is a floating-point division and is not modelled.
- `Strings.Lower`: lower-cases ASCII letters only, not Python's full Unicode `str.lower`.
- `TypeScriptAnalysis.ExtractName`: `\w` is restricted to ASCII word characters, not Python's Unicode word class.
- `TypeScriptAnalysis.ExtractMethods`: `\w` is restricted to ASCII word characters, so for a line such as `héllo() {` the model's leftmost match is `llo() {` where Python's `re.finditer` matches `héllo() {`.
- `TypeScriptAnalysis.MatchAt`: the method pattern's `\w` matches ASCII word characters only, not Python's Unicode word class.
- `Paths.SplitExt`: paths follow POSIX `os.path` rules; Windows drive letters and backslashes are not modelled.
- `PythonAnalysis.GetDependencies`: `list(set(deps))` has an unspecified order. The model keeps the first occurrence of each identifier, and `PythonAnalysis.DependenciesExact` states only which identifiers are present and that none repeats.
- Two classes that lower-case to the same name are written to the same path, and the later one overwrites the earlier. The model records both outcomes and does not model the final disk state.

## Findings

| source | as written | input that shows it | evidently intended | confidence | as-written member | corrected member |
|---|---|---|---|---|---|---|
| src/code_element.py:3-10 | `CodeElement` is a plain class with annotations and no `@dataclass`. It has no `__init__` taking fields, so the keyword construction at src/code_analyzer.py:57-65 raises `TypeError`. `except Exception` swallows it, and a Python file never gives a record | a `.py` file containing `class A: pass` gives no records | a dataclass record, as scripts/generator.py:17-25 declares it: one record per class definition | high (not executed) | `SourceWiring.PlainPythonLosesClasses` | `PythonAnalysis.PythonRecordsPerClass` |
| src/code_element.py:3-10 | the same plain class makes the keyword construction at src/code_analyzer.py:79-87 raise `TypeError`. Nothing catches it, so every TypeScript file with a decorator signature makes `analyze_file` raise | a `.ts` file whose first line is `@Component({` and whose second is `export class A {}` raises `TypeError` | one record per signature a line contains | high (not executed) | `SourceWiring.PlainTypeScriptRaises` | `TypeScriptAnalysis.TypeScriptRecordsComplete` |
