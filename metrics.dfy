/**
 * The metrics that `update_ui` shows for the records of one file, and the item
 * it selects: the first record with the smallest line number.
 */
module Metrics {
  import opened Wrappers
  import opened Records
  import opened PyAst
  import opened PythonAnalysis
  import opened Strings
  import opened TypeScriptAnalysis

  /** `len([e for e in elements if e.type == 'class'])`. */
  function TotalClasses(elements: seq<CodeElement>): (n: nat)
    ensures n <= |elements|
  {
    if elements == [] then 0
    else TotalClasses(elements[..|elements| - 1]) + if elements[|elements| - 1].kind == "class" then 1 else 0
  }

  /** `sum(len(e.methods) for e in elements)`. */
  function TotalMethods(elements: seq<CodeElement>): nat {
    if elements == [] then 0
    else TotalMethods(elements[..|elements| - 1]) + |elements[|elements| - 1].methods|
  }

  /** `sum(len(e.imports) for e in elements)`. */
  function TotalImports(elements: seq<CodeElement>): nat {
    if elements == [] then 0
    else TotalImports(elements[..|elements| - 1]) + |elements[|elements| - 1].imports|
  }

  /** `[element.line_number for element in elements]`. */
  function LineNumbers(elements: seq<CodeElement>): (lines: seq<int>)
    ensures |lines| == |elements|
  {
    seq(|elements|, i requires 0 <= i < |elements| => elements[i].lineNumber)
  }

  /** `lines.index(min(lines))`: the first position holding the smallest value. */
  function FirstMinimum(lines: seq<int>): (k: nat)
    requires lines != []
    ensures k < |lines|
    ensures forall j | 0 <= j < |lines| :: lines[k] <= lines[j]
    ensures forall j | 0 <= j < k :: lines[j] > lines[k]
  {
    if |lines| == 1 then 0
    else
      var k := FirstMinimum(lines[..|lines| - 1]);
      if lines[|lines| - 1] < lines[k] then |lines| - 1 else k
  }

  /** The row `update_ui` makes current: none when there are no records,
      otherwise the first record with the smallest line number. */
  function SelectedRow(elements: seq<CodeElement>): (row: Option<nat>)
    ensures row.None? <==> elements == []
    ensures row.Some? ==>
      && row.value < |elements|
      && (forall j | 0 <= j < |elements| :: elements[row.value].lineNumber <= elements[j].lineNumber)
      && (forall j | 0 <= j < row.value :: elements[j].lineNumber > elements[row.value].lineNumber)
  {
    var lines := LineNumbers(elements);
    if lines == [] then None
    else
      var k := FirstMinimum(lines);
      assert forall j | 0 <= j < |elements| :: lines[j] == elements[j].lineNumber;
      Some(k)
  }

  /** When every record is a `class` record, the class count is the record count. */
  lemma {:induction false} AllClassRecords(elements: seq<CodeElement>)
    requires forall i | 0 <= i < |elements| :: elements[i].kind == "class"
    ensures TotalClasses(elements) == |elements|
  {
    if elements != [] {
      AllClassRecords(elements[..|elements| - 1]);
    }
  }

  /** When no record is a `class` record, the class count is zero. */
  lemma {:induction false} NoClassRecords(elements: seq<CodeElement>)
    requires forall i | 0 <= i < |elements| :: elements[i].kind != "class"
    ensures TotalClasses(elements) == 0
  {
    if elements != [] {
      NoClassRecords(elements[..|elements| - 1]);
    }
  }

  /** Records that all carry the same methods: the method total is a multiple
      of that list's length. */
  lemma {:induction false} MethodsShared(elements: seq<CodeElement>, methods: seq<string>)
    requires forall i | 0 <= i < |elements| :: elements[i].methods == methods
    ensures TotalMethods(elements) == |elements| * |methods|
  {
    if elements != [] {
      MethodsShared(elements[..|elements| - 1], methods);
    }
  }

  /** For a Python file, the class total is the number of class definitions,
      nested ones included, and the import total counts the file's imports once
      per class, because every record carries all of them. */
  lemma PythonMetrics(root: Node)
    ensures TotalClasses(PythonRecords(Some(root))) == ClassCount(root)
    ensures TotalImports(PythonRecords(Some(root))) == ClassCount(root) * |ImportEntries(root)|
  {
    var records := PythonRecords(Some(root));
    PythonRecordsPerClass(root);
    AllClassRecords(records);
    ImportsShared(records, ImportEntries(root));
  }

  /** Records that all carry the same imports: the import total is a multiple
      of that list's length. */
  lemma {:induction false} ImportsShared(elements: seq<CodeElement>, imports: seq<string>)
    requires forall i | 0 <= i < |elements| :: elements[i].imports == imports
    ensures TotalImports(elements) == |elements| * |imports|
  {
    if elements != [] {
      ImportsShared(elements[..|elements| - 1], imports);
    }
  }

  lemma SignatureKeyNotClass(k: nat)
    requires k < |AngularPatterns|
    ensures AngularPatterns[k].0 != "class"
  {
    assert AngularPatterns[k].0[0] != 'c' || AngularPatterns[k].0 == "component";
  }

  /** For a TypeScript file the class total is zero, since no signature key is
      `class`, and the import and method totals count the file's lists once per
      record. */
  lemma TypeScriptMetrics(content: string)
    requires TypeScriptRecords(content).Success?
    ensures var records := TypeScriptRecords(content).value;
      && TotalClasses(records) == 0
      && TotalImports(records) == |records| * |ImportLines(content)|
      && TotalMethods(records) == |records| * |MethodSignatures(content)|
  {
    var records := TypeScriptRecords(content).value;
    var lines := Split(content, '\n');
    forall i | 0 <= i < |records|
      ensures records[i].kind != "class"
      ensures records[i].imports == ImportLines(content) && records[i].methods == MethodSignatures(content)
    {
      var r := records[i];
      TypeScriptRecordsSound(content, records, r);
      assert FromSignature(lines, r, ImportLines(content), MethodSignatures(content));
      var k :| 0 <= k < |AngularPatterns| && AngularPatterns[k].0 == r.kind && Contains(lines[r.lineNumber - 1], AngularPatterns[k].1);
      SignatureKeyNotClass(k);
    }
    NoClassRecords(records);
    ImportsShared(records, ImportLines(content));
    MethodsShared(records, MethodSignatures(content));
  }
}
