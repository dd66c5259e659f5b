/**
 * The Python strategy of the code analyzer: one record per class definition that
 * `ast.walk` meets, with the file's imports, the class's plain decorators and
 * direct methods, and the identifiers its subtree references.
 */
module PythonAnalysis {
  import opened Strings
  import opened Seqs
  import opened Wrappers
  import opened PyAst
  import opened Records

  /** A decorator as recorded: its name when it is a plain `@name`, nothing when
      it is a call or an attribute access. */
  function PlainDecorator(d: Node): seq<string> {
    if d.Name? then [d.id] else []
  }

  /** `[d.id for d in node.decorator_list if isinstance(d, ast.Name)]`. */
  function DecoratorNames(decorators: seq<Node>): seq<string> {
    FlatMap(decorators, PlainDecorator)
  }

  /** A decorator name is recorded exactly when a plain `@name` decorator of
      that name is present; call and attribute decorators contribute nothing. */
  lemma DecoratorNamesArePlain(decorators: seq<Node>, x: string)
    ensures x in DecoratorNames(decorators) <==> Name(x) in decorators
  {
    FlatMapMember(decorators, PlainDecorator, x);
    if Name(x) in decorators {
      var i :| 0 <= i < |decorators| && decorators[i] == Name(x);
      assert x in PlainDecorator(decorators[i]);
    }
  }

  /** A body statement as recorded among the methods: its name when it is a
      `def` (not an `async def`). */
  function DirectMethod(m: Node): seq<string> {
    if m.FunctionDef? then [m.name] else []
  }

  /** `[m.name for m in node.body if isinstance(m, ast.FunctionDef)]`. */
  function MethodNames(body: seq<Node>): seq<string> {
    FlatMap(body, DirectMethod)
  }

  /** A method name is recorded exactly when a function definition of that name
      is a direct statement of the class body; nested definitions are not. */
  lemma MethodNamesAreDirect(body: seq<Node>, x: string)
    ensures x in MethodNames(body) <==> exists i :: 0 <= i < |body| && body[i].FunctionDef? && body[i].name == x
  {
    FlatMapMember(body, DirectMethod, x);
  }

  /** The text `from M import a, b` recorded for `from M import a, b`; a relative
      import without a module prints its module as `None`. */
  function ImportFromText(m: ModuleName, names: seq<string>): string {
    var moduleText := match m case NoModule => "None" case Module(dotted) => dotted;
    "from " + moduleText + " import " + Join(names, ", ")
  }

  /** What one node contributes to `_get_imports`: the bare names of an
      `import`, the whole text of a `from … import`. */
  function ImportEntry(n: Node): seq<string> {
    match n
    case Import(names, _) => names
    case ImportFrom(m, names, _) => [ImportFromText(m, names)]
    case _ => []
  }

  /** The imports `_get_imports` collects from a whole tree, in walk order. */
  function ImportEntries(tree: Node): seq<string> {
    FlatMap(Walk(tree), ImportEntry)
  }

  /** `_get_imports(tree)`. */
  method GetImports(tree: Node) returns (imports: seq<string>)
    ensures imports == ImportEntries(tree)
  {
    imports := [];
    var nodes := Walk(tree);
    for i := 0 to |nodes|
      invariant imports == FlatMap(nodes[..i], ImportEntry)
    {
      FlatMapSnoc(nodes, i, ImportEntry);
      var node := nodes[i];
      if node.Import? {
        imports := imports + node.names;
      } else if node.ImportFrom? {
        imports := imports + [ImportFromText(node.moduleName, node.names)];
      }
    }
    assert nodes[..|nodes|] == nodes;
  }

  /** The imports come from every import statement anywhere in the tree, not
      only from the top level. */
  lemma ImportEntriesFromWholeTree(tree: Node, x: string)
    ensures x in ImportEntries(tree) <==> exists n :: n in Subtree(tree) && x in ImportEntry(n)
  {
    var nodes := Walk(tree);
    FlatMapMember(nodes, ImportEntry, x);
    WalkVisitsAll(tree);
    if exists n :: n in Subtree(tree) && x in ImportEntry(n) {
      var n :| n in Subtree(tree) && x in ImportEntry(n);
      assert n in multiset(nodes);
      var i :| 0 <= i < |nodes| && nodes[i] == n;
    }
    if exists i :: 0 <= i < |nodes| && x in ImportEntry(nodes[i]) {
      var i :| 0 <= i < |nodes| && x in ImportEntry(nodes[i]);
      assert nodes[i] in multiset(nodes);
    }
  }

  /** What one node contributes to `_get_dependencies`. */
  function NameId(n: Node): seq<string> {
    if n.Name? then [n.id] else []
  }

  /** `_get_dependencies(node)`: the identifiers of the `Name` nodes of the
      subtree, each once. */
  function Dependencies(node: Node): seq<string> {
    Dedup(FlatMap(Walk(node), NameId))
  }

  /** `_get_dependencies(node)`: the loop collects every `Name` id the walk
      meets; `list(set(…))` then keeps each once. */
  method GetDependencies(node: Node) returns (deps: seq<string>)
    ensures deps == Dependencies(node)
  {
    deps := [];
    var nodes := Walk(node);
    for i := 0 to |nodes|
      invariant deps == FlatMap(nodes[..i], NameId)
    {
      FlatMapSnoc(nodes, i, NameId);
      if nodes[i].Name? {
        deps := deps + [nodes[i].id];
      }
    }
    assert nodes[..|nodes|] == nodes;
    deps := Dedup(deps);
  }

  /** The dependencies are exactly the identifiers referenced anywhere in the
      subtree, each once. */
  lemma DependenciesExact(node: Node, x: string)
    ensures NoDuplicates(Dependencies(node))
    ensures x in Dependencies(node) <==> Name(x) in Subtree(node)
  {
    var nodes := Walk(node);
    FlatMapMember(nodes, NameId, x);
    WalkVisitsAll(node);
    if Name(x) in Subtree(node) {
      assert Name(x) in multiset(nodes);
      var i :| 0 <= i < |nodes| && nodes[i] == Name(x);
      assert x in NameId(nodes[i]);
    }
    if exists i :: 0 <= i < |nodes| && x in NameId(nodes[i]) {
      var i :| 0 <= i < |nodes| && x in NameId(nodes[i]);
      assert nodes[i] == Name(x);
      assert nodes[i] in multiset(nodes);
    }
  }

  /** The record of one class definition, given the file's imports. */
  function ClassRecord(c: Node, imports: seq<string>): CodeElement
    requires c.ClassDef?
  {
    CodeElement(c.name, "class", DecoratorNames(c.decorators), imports, MethodNames(c.body), c.lineno, Dependencies(c))
  }

  /** The records of a sequence of class definitions, in order. */
  function ClassRecords(classes: seq<Node>, imports: seq<string>): seq<CodeElement>
    requires forall c | c in classes :: c.ClassDef?
  {
    seq(|classes|, i requires 0 <= i < |classes| => ClassRecord(classes[i], imports))
  }

  /** Extending the classes by one extends the records by its record. */
  lemma ClassRecordsSnoc(classes: seq<Node>, c: Node, imports: seq<string>)
    requires forall d | d in classes :: d.ClassDef?
    requires c.ClassDef?
    ensures ClassRecords(classes + [c], imports) == ClassRecords(classes, imports) + [ClassRecord(c, imports)]
  {
  }

  /** The records of `_analyze_python`, given what `ast.parse` made of the file
      (`None` when it raised): one per class definition in walk order. */
  function PythonRecords(tree: Option<Node>): seq<CodeElement> {
    match tree
    case None => []
    case Some(root) => ClassRecords(ClassDefs(Walk(root)), ImportEntries(root))
  }

  /** `_analyze_python`. A parse failure is caught and yields no records. */
  method AnalyzePython(tree: Option<Node>) returns (elements: seq<CodeElement>)
    ensures elements == PythonRecords(tree)
    ensures tree.None? ==> elements == []
  {
    elements := [];
    if tree.None? {
      return;
    }
    var root := tree.value;
    var nodes := Walk(root);
    for i := 0 to |nodes|
      invariant elements == ClassRecords(ClassDefs(nodes[..i]), ImportEntries(root))
    {
      var node := nodes[i];
      PrefixSnoc(nodes, i);
      ClassDefsAppend(nodes[..i], [node]);
      if node.ClassDef? {
        ClassRecordsSnoc(ClassDefs(nodes[..i]), node, ImportEntries(root));
        var decorators := DecoratorNames(node.decorators);
        var methods := MethodNames(node.body);
        var imports := GetImports(root);
        var deps := GetDependencies(node);
        elements := elements + [CodeElement(node.name, "class", decorators, imports, methods, node.lineno, deps)];
      } else {
        assert ClassDefs([node]) == [];
      }
    }
    assert nodes[..|nodes|] == nodes;
  }

  /** One record per class definition of the tree, nested ones included, in walk
      order; each is a `class` record carrying the class's line, and every
      record carries the same, file-wide imports. */
  lemma PythonRecordsPerClass(root: Node)
    ensures |PythonRecords(Some(root))| == ClassCount(root)
    ensures forall i | 0 <= i < |PythonRecords(Some(root))| ::
      var r := PythonRecords(Some(root))[i];
      var c := ClassDefs(Walk(root))[i];
      && r.kind == "class" && r.name == c.name
      && r.lineNumber == c.lineno >= 1
      && r.imports == ImportEntries(root)
      && r.decorators == DecoratorNames(c.decorators)
      && r.methods == MethodNames(c.body)
      && r.dependencies == Dependencies(c)
  {
    WalkClassDefs(root);
  }
}
