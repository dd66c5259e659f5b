/**
 * The analyzer as `src/code_analyzer.py` wires it: the `CodeElement` it
 * imports from `src/code_element.py` is a plain class with annotations and no
 * `@dataclass`, so it has no `__init__` taking fields, and every keyword
 * construction `CodeElement(name=..., ...)` raises `TypeError`. The record
 * used by the rest of this model is the dataclass of `scripts/generator.py`.
 */
module SourceWiring {
  import opened Wrappers
  import opened Strings
  import opened PyAst
  import opened Records
  import opened PythonAnalysis
  import opened TypeScriptAnalysis

  // ---------------------------------------------------------------------------
  // _analyze_python with the plain class
  // ---------------------------------------------------------------------------

  /** The loop of `_analyze_python` over the walked nodes with the plain class:
      the first class definition raises before anything is appended. */
  function PlainPythonScan(nodes: seq<Node>): Result<seq<CodeElement>, Error> {
    if nodes == [] then Success([])
    else if nodes[0].ClassDef? then Failure(TypeError)
    else PlainPythonScan(nodes[1..])
  }

  /** `_analyze_python` with the plain class: the `except Exception` clause
      catches the `TypeError` and returns the list built so far. */
  function PlainPythonRecords(tree: Option<Node>): seq<CodeElement> {
    match tree
    case None => []
    case Some(root) =>
      match PlainPythonScan(Walk(root))
      case Success(elements) => elements
      case Failure(_) => []
  }

  /** The scan raises exactly when a class definition is met, and otherwise
      finds nothing. */
  lemma {:induction false} PlainPythonScanRaises(nodes: seq<Node>)
    ensures PlainPythonScan(nodes).Failure? <==> exists i | 0 <= i < |nodes| :: nodes[i].ClassDef?
    ensures PlainPythonScan(nodes).Failure? ==> PlainPythonScan(nodes).error == TypeError
    ensures PlainPythonScan(nodes).Success? ==> PlainPythonScan(nodes).value == []
  {
    if nodes != [] && !nodes[0].ClassDef? {
      PlainPythonScanRaises(nodes[1..]);
      if exists i | 0 <= i < |nodes| :: nodes[i].ClassDef? {
        var i :| 0 <= i < |nodes| && nodes[i].ClassDef?;
        assert nodes[1..][i - 1] == nodes[i];
      }
      if exists i | 0 <= i < |nodes[1..]| :: nodes[1..][i].ClassDef? {
        var i :| 0 <= i < |nodes[1..]| && nodes[1..][i].ClassDef?;
        assert nodes[i + 1] == nodes[1..][i];
      }
    }
  }

  /** With the plain class, a Python file never yields a record, although the
      dataclass version yields one per class definition. */
  lemma PlainPythonLosesClasses(root: Node)
    requires ClassCount(root) >= 1
    ensures PlainPythonRecords(Some(root)) == []
    ensures |PythonRecords(Some(root))| == ClassCount(root)
  {
    PlainPythonScanRaises(Walk(root));
    PythonRecordsPerClass(root);
  }

  // ---------------------------------------------------------------------------
  // _analyze_typescript with the plain class
  // ---------------------------------------------------------------------------

  /** The loop of `_analyze_typescript` from line `i` with the plain class: on
      the first line with a signature, `lines[i+1]` is evaluated before the
      call, so the last line raises `IndexError` and any other line the
      constructor's `TypeError`. Nothing catches either. */
  function PlainTypeScriptFrom(lines: seq<string>, i: nat): Result<seq<CodeElement>, Error>
    requires i <= |lines|
    decreases |lines| - i
  {
    if i == |lines| then Success([])
    else if Signed(lines[i]) then
      if i + 1 < |lines| then Failure(TypeError) else Failure(IndexError)
    else PlainTypeScriptFrom(lines, i + 1)
  }

  /** `_analyze_typescript` with the plain class. */
  function PlainTypeScriptRecords(content: string): Result<seq<CodeElement>, Error> {
    PlainTypeScriptFrom(Split(content, '\n'), 0)
  }

  /** From line `i`, the scan succeeds exactly when no line carries a signature,
      and then finds nothing. */
  lemma {:induction false} PlainTypeScriptSucceeds(lines: seq<string>, i: nat)
    requires i <= |lines|
    ensures PlainTypeScriptFrom(lines, i).Success? <==> forall j | i <= j < |lines| :: !Signed(lines[j])
    ensures PlainTypeScriptFrom(lines, i).Success? ==> PlainTypeScriptFrom(lines, i).value == []
    decreases |lines| - i
  {
    if i < |lines| && !Signed(lines[i]) {
      PlainTypeScriptSucceeds(lines, i + 1);
    }
  }

  /** A signature on a line before the last makes the scan raise `TypeError`,
      whatever the last line holds. */
  lemma {:induction false} PlainTypeScriptTypeError(lines: seq<string>, i: nat, k: nat)
    requires i <= k && k + 1 < |lines|
    requires Signed(lines[k])
    ensures PlainTypeScriptFrom(lines, i) == Failure(TypeError)
    decreases k - i
  {
    if !Signed(lines[i]) {
      PlainTypeScriptTypeError(lines, i + 1, k);
    }
  }

  /** A record of the dataclass version comes from a signature on a line that
      has a next one. */
  lemma RecordLineSigned(content: string)
    requires TypeScriptRecords(content).Success? && TypeScriptRecords(content).value != []
    ensures exists k | 0 <= k && k + 1 < |Split(content, '\n')| :: Signed(Split(content, '\n')[k])
  {
    var lines := Split(content, '\n');
    var records := TypeScriptRecords(content).value;
    var r := records[0];
    TypeScriptRecordsSound(content, records, r);
    assert Signed(lines[r.lineNumber - 1]);
  }

  /** Wherever the dataclass version finds a record, the plain class makes the
      analysis raise `TypeError` instead. */
  lemma PlainTypeScriptRaises(content: string)
    requires TypeScriptRecords(content).Success? && TypeScriptRecords(content).value != []
    ensures PlainTypeScriptRecords(content) == Failure(TypeError)
  {
    var lines := Split(content, '\n');
    RecordLineSigned(content);
    var k :| 0 <= k && k + 1 < |lines| && Signed(lines[k]);
    PlainTypeScriptTypeError(lines, 0, k);
  }

  /** When no line carries a signature both versions agree on no records. */
  lemma PlainTypeScriptAgreesUnsigned(content: string)
    requires forall j | 0 <= j < |Split(content, '\n')| :: !Signed(Split(content, '\n')[j])
    ensures PlainTypeScriptRecords(content) == Success([])
    ensures TypeScriptRecords(content) == Success([])
  {
    PlainTypeScriptSucceeds(Split(content, '\n'), 0);
    if TypeScriptRecords(content).Success? && TypeScriptRecords(content).value != [] {
      RecordLineSigned(content);
    }
  }
}
