/**
 * `split_classes`: every class definition of a Python file is written to a file
 * of its own, next to the source, holding the import statements the class
 * refers to, an empty line and the class's source text.
 *
 * Reading the source, parsing it and writing files are inputs here: whether the
 * source could be read, the tree `ast.parse` gave (`None` when it raised), the
 * source segments stored on the nodes, and the set of paths whose write
 * succeeds. The message boxes become the report's notice and its warnings.
 */
module ClassSplitter {
  import opened Wrappers
  import opened Strings
  import opened Paths
  import opened PyAst
  import opened Seqs

  /** `_get_imported_names(node)`: the alias names of an import statement, and
      none for any other node. */
  function ImportedNames(node: Node): (names: seq<string>)
    ensures !(node.Import? || node.ImportFrom?) ==> names == []
  {
    match node
    case Import(names, _) => names
    case ImportFrom(_, names, _) => names
    case _ => []
  }

  /** `any(name in class_content for name in names)`. */
  predicate AnyContained(names: seq<string>, text: string) {
    exists k | 0 <= k < |names| :: Contains(text, names[k])
  }

  /** An import statement one of whose names occurs in the class's source. */
  predicate Relevant(node: Node, classSource: string) {
    (node.Import? || node.ImportFrom?) && AnyContained(ImportedNames(node), classSource)
  }

  /** The source segments of the relevant import statements among `nodes`, in
      order. */
  function SelectedImports(nodes: seq<Node>, classSource: string): seq<string> {
    if nodes == [] then []
    else
      var n := nodes[|nodes| - 1];
      SelectedImports(nodes[..|nodes| - 1], classSource) + if Relevant(n, classSource) then [n.segment] else []
  }

  /** `_get_class_imports(source, class_node)`. The source is parsed again
      there; that gives the same tree. */
  method ClassImports(tree: Node, classNode: Node) returns (imports: seq<string>)
    requires classNode.ClassDef?
    ensures imports == SelectedImports(Walk(tree), classNode.segment)
  {
    imports := [];
    var classContent := classNode.segment;
    var nodes := Walk(tree);
    for i := 0 to |nodes|
      invariant imports == SelectedImports(nodes[..i], classContent)
    {
      var node := nodes[i];
      assert nodes[..i + 1][..i] == nodes[..i];
      if node.Import? || node.ImportFrom? {
        var importContent := node.segment;
        if AnyContained(ImportedNames(node), classContent) {
          imports := imports + [importContent];
        }
      }
    }
    assert nodes[..|nodes|] == nodes;
  }

  /** The selected segments are those of the relevant nodes, in order of the
      nodes. */
  lemma {:induction false} SelectedImportsMember(nodes: seq<Node>, classSource: string, s: string)
    ensures s in SelectedImports(nodes, classSource) <==>
      exists i | 0 <= i < |nodes| :: Relevant(nodes[i], classSource) && nodes[i].segment == s
  {
    if nodes != [] {
      var front, last := nodes[..|nodes| - 1], nodes[|nodes| - 1];
      SelectedImportsMember(front, classSource, s);
      MemberOfAppend(s, SelectedImports(front, classSource), if Relevant(last, classSource) then [last.segment] else []);
      if exists i | 0 <= i < |front| :: Relevant(front[i], classSource) && front[i].segment == s {
        var i :| 0 <= i < |front| && Relevant(front[i], classSource) && front[i].segment == s;
        assert nodes[i] == front[i];
      }
      if exists i | 0 <= i < |nodes| :: Relevant(nodes[i], classSource) && nodes[i].segment == s {
        var i :| 0 <= i < |nodes| && Relevant(nodes[i], classSource) && nodes[i].segment == s;
        if i < |front| {
          assert front[i] == nodes[i];
        }
      }
    }
  }

  /** An import statement anywhere in the tree is selected for a class exactly
      when one of its names occurs in the class's source; what is kept is the
      statement's own source segment. */
  lemma ClassImportsExact(tree: Node, classSource: string, s: string)
    ensures s in SelectedImports(Walk(tree), classSource) <==>
      exists n | n in Subtree(tree) :: Relevant(n, classSource) && n.segment == s
  {
    var nodes := Walk(tree);
    SelectedImportsMember(nodes, classSource, s);
    WalkVisitsAll(tree);
    if s in SelectedImports(nodes, classSource) {
      var i :| 0 <= i < |nodes| && Relevant(nodes[i], classSource) && nodes[i].segment == s;
      assert nodes[i] in multiset(nodes);
    }
    if exists n | n in Subtree(tree) :: Relevant(n, classSource) && n.segment == s {
      var n :| n in Subtree(tree) && Relevant(n, classSource) && n.segment == s;
      assert n in multiset(nodes);
      assert n in nodes;
      var i :| 0 <= i < |nodes| && nodes[i] == n;
    }
  }

  /** The imports, each followed by a line break. */
  function ImportBlock(imports: seq<string>): string {
    if imports == [] then "" else imports[0] + "\n" + ImportBlock(imports[1..])
  }

  /** `"\n".join(imports + ["", class_content])` is the import block, one more
      line break and the class's source. */
  lemma {:induction false} ContentLayout(imports: seq<string>, classSource: string)
    ensures Join(imports + ["", classSource], "\n") == ImportBlock(imports) + "\n" + classSource
  {
    if imports == [] {
      assert imports + ["", classSource] == ["", classSource];
      assert Join([classSource], "\n") == classSource;
    } else {
      ContentLayout(imports[1..], classSource);
      TailOfAppend(imports, ["", classSource]);
    }
  }

  /** The class's source ends the content verbatim, after the import block and
      one more line break. */
  lemma ContentEndsWithClass(imports: seq<string>, classSource: string)
    ensures EndsWith(Join(imports + ["", classSource], "\n"), classSource)
    ensures StartsWith(Join(imports + ["", classSource], "\n"), ImportBlock(imports) + "\n")
  {
    ContentLayout(imports, classSource);
    var head := ImportBlock(imports) + "\n";
    var content := head + classSource;
    assert content[|content| - |classSource|..] == classSource;
    assert content[..|head|] == head;
  }

  /** One class file as `split_classes` means to write it. */
  datatype ClassFile = ClassFile(className: string, path: string, content: string)

  /** What became of one class: its file written, or a warning naming it. */
  datatype ClassOutcome = Written(file: ClassFile) | Warned(className: string)

  /** The closing message box: none, the success message, or the error. */
  datatype Notice = Silent | Information | Critical

  datatype SplitReport = SplitReport(outcomes: seq<ClassOutcome>, notice: Notice)

  /** The file for class `c`, `basePath` being the source's directory and
      `baseName` its file name without the extension. */
  function PlannedFile(basePath: string, baseName: string, tree: Node, c: Node): ClassFile
    requires c.ClassDef?
  {
    ClassFile(c.name, PathJoin(basePath, baseName + "_" + Lower(c.name) + ".py"), Join(SelectedImports(Walk(tree), c.segment) + ["", c.segment], "\n"))
  }

  /** Writing a file succeeds exactly for the paths in `writable`. */
  function Attempt(file: ClassFile, writable: set<string>): ClassOutcome {
    if file.path in writable then Written(file) else Warned(file.className)
  }

  /** The outcomes of the classes, in order. */
  function ClassOutcomes(basePath: string, baseName: string, tree: Node, classes: seq<Node>, writable: set<string>): seq<ClassOutcome>
    requires forall c | c in classes :: c.ClassDef?
  {
    seq(|classes|, i requires 0 <= i < |classes| => Attempt(PlannedFile(basePath, baseName, tree, classes[i]), writable))
  }

  /** Extending the classes by one extends the outcomes by its outcome. */
  lemma ClassOutcomesSnoc(basePath: string, baseName: string, tree: Node, classes: seq<Node>, c: Node, writable: set<string>)
    requires forall d | d in classes :: d.ClassDef?
    requires c.ClassDef?
    ensures ClassOutcomes(basePath, baseName, tree, classes + [c], writable) ==
      ClassOutcomes(basePath, baseName, tree, classes, writable) + [Attempt(PlannedFile(basePath, baseName, tree, c), writable)]
  {
  }

  /** What `split_classes` does, given the selected file (`None`: no file
      selected yet), whether it could be read, what `ast.parse` made of it and
      which writes succeed. Class files come only from a readable ".py" file that
      parses, and the success message closes every run that gets past reading,
      whatever became of the classes. */
  function SplitOutcome(currentFile: Option<string>, readable: bool, parsed: Option<Node>, writable: set<string>): (r: SplitReport)
    ensures r.notice == Silent <==> currentFile.None?
    ensures r.outcomes != [] ==> currentFile.Some? && readable && EndsWith(currentFile.value, ".py") && parsed.Some?
    ensures r.notice == Critical <==> currentFile.Some? && (!readable || (EndsWith(currentFile.value, ".py") && parsed.None?))
  {
    match currentFile
    case None => SplitReport([], Silent)
    case Some(path) =>
      if !readable then SplitReport([], Critical)
      else if !EndsWith(path, ".py") then SplitReport([], Information)
      else
        match parsed
        case None => SplitReport([], Critical)
        case Some(tree) =>
          SplitReport(ClassOutcomes(Dirname(path), SplitExt(Basename(path)).0, tree, ClassDefs(Walk(tree)), writable), Information)
  }

  /** The body of the loop of `split_classes` for one class, whose failure is
      caught and reported as a warning. */
  method SplitClass(basePath: string, baseName: string, tree: Node, classNode: Node, writable: set<string>)
    returns (outcome: ClassOutcome)
    requires classNode.ClassDef?
    ensures outcome == Attempt(PlannedFile(basePath, baseName, tree, classNode), writable)
  {
    var classContent := classNode.segment;
    var imports := ClassImports(tree, classNode);
    var newContent := Join(imports + ["", classContent], "\n");
    var newFilePath := PathJoin(basePath, baseName + "_" + Lower(classNode.name) + ".py");
    if newFilePath in writable {
      outcome := Written(ClassFile(classNode.name, newFilePath, newContent));
    } else {
      outcome := Warned(classNode.name);
    }
  }

  /** The loop of `split_classes` over the class definitions. */
  method SplitTree(basePath: string, baseName: string, tree: Node, classes: seq<Node>, writable: set<string>)
    returns (outcomes: seq<ClassOutcome>)
    requires forall c | c in classes :: c.ClassDef?
    ensures outcomes == ClassOutcomes(basePath, baseName, tree, classes, writable)
  {
    outcomes := [];
    for i := 0 to |classes|
      invariant outcomes == ClassOutcomes(basePath, baseName, tree, classes[..i], writable)
    {
      var classNode := classes[i];
      assert classNode in classes;
      var outcome := SplitClass(basePath, baseName, tree, classNode, writable);
      PrefixSnoc(classes, i);
      ClassOutcomesSnoc(basePath, baseName, tree, classes[..i], classNode, writable);
      outcomes := outcomes + [outcome];
    }
    assert classes[..|classes|] == classes;
  }

  /** `split_classes()`. */
  method SplitClasses(currentFile: Option<string>, readable: bool, parsed: Option<Node>, writable: set<string>)
    returns (report: SplitReport)
    ensures report == SplitOutcome(currentFile, readable, parsed, writable)
  {
    if currentFile.None? {
      return SplitReport([], Silent);
    }
    var path := currentFile.value;
    if !readable {
      return SplitReport([], Critical);
    }
    var outcomes: seq<ClassOutcome> := [];
    if EndsWith(path, ".py") {
      if parsed.None? {
        return SplitReport([], Critical);
      }
      var tree := parsed.value;
      var classes := ClassDefs(Walk(tree));
      var basePath := Dirname(path);
      var baseName := SplitExt(Basename(path)).0;
      outcomes := SplitTree(basePath, baseName, tree, classes, writable);
    }
    report := SplitReport(outcomes, Information);
  }

  /** A readable ".py" file that parses gives one outcome per class definition,
      nested ones included, in walk order. */
  lemma SplitOnePerClass(path: string, tree: Node, writable: set<string>)
    requires EndsWith(path, ".py")
    ensures var report := SplitOutcome(Some(path), true, Some(tree), writable);
      && report.notice == Information
      && report.outcomes == ClassOutcomes(Dirname(path), SplitExt(Basename(path)).0, tree, ClassDefs(Walk(tree)), writable)
      && |report.outcomes| == ClassCount(tree)
  {
    WalkClassDefs(tree);
  }

  /** The class's file is written exactly when its path is writable, and
      otherwise a warning names the class. */
  lemma ClassOutcomeWrittenIffWritable(basePath: string, baseName: string, tree: Node, classes: seq<Node>, writable: set<string>, k: nat)
    requires forall c | c in classes :: c.ClassDef?
    requires k < |classes|
    ensures var outcome := ClassOutcomes(basePath, baseName, tree, classes, writable)[k];
      var path := PathJoin(basePath, baseName + "_" + Lower(classes[k].name) + ".py");
      && (outcome.Written? <==> path in writable)
      && (outcome.Written? ==> outcome.file == PlannedFile(basePath, baseName, tree, classes[k]) && outcome.file.path == path)
      && (outcome.Warned? ==> outcome.className == classes[k].name)
  {
    assert classes[k] in classes;
  }

  /** The file of a class ends with the class's source verbatim, after the
      selected imports each followed by a line break and one more line break.
      It is named `{base}_{lower-case class name}.py` in the source's
      directory, and is never the source file itself. */
  lemma PlannedFileShape(path: string, tree: Node, c: Node)
    requires c.ClassDef? && '/' !in c.name
    ensures var file := PlannedFile(Dirname(path), SplitExt(Basename(path)).0, tree, c);
      && EndsWith(file.content, c.segment)
      && StartsWith(file.content, ImportBlock(SelectedImports(Walk(tree), c.segment)) + "\n")
      && Basename(file.path) == SplitExt(Basename(path)).0 + "_" + Lower(c.name) + ".py"
      && Dirname(file.path) == Dirname(path)
      && (EndsWith(path, ".py") ==> file.path != path)
  {
    ContentEndsWithClass(SelectedImports(Walk(tree), c.segment), c.segment);
    SplitFileBesideSource(path, c.name);
  }

  /** A failed write is local to its class: the outcome of a class depends only
      on whether its own path is writable, so the other classes are processed
      as if it had succeeded. */
  lemma FailureIsLocal(path: string, tree: Node, w1: set<string>, w2: set<string>, k: nat)
    requires k < |ClassDefs(Walk(tree))|
    requires var c := ClassDefs(Walk(tree))[k]; SplitFilePath(path, c.name) in w1 <==> SplitFilePath(path, c.name) in w2
    ensures var base := SplitExt(Basename(path)).0;
      ClassOutcomes(Dirname(path), base, tree, ClassDefs(Walk(tree)), w1)[k] == ClassOutcomes(Dirname(path), base, tree, ClassDefs(Walk(tree)), w2)[k]
  {
    var classes := ClassDefs(Walk(tree));
    assert classes[k] in classes;
  }
}
