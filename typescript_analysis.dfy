/**
 * The TypeScript strategy of the code analyzer: a line-by-line scan for the
 * Angular decorator signatures. Each signature a line contains gives one record,
 * named after the class declared on the next line, and every record carries the
 * import lines and method signatures of the whole file.
 */
module TypeScriptAnalysis {
  import opened Strings
  import opened Seqs
  import opened Wrappers
  import opened Records

  /** `patterns['angular']`, in table order: a record kind and its signature.
      Each pattern is an escaped literal (`@Component\(` matches the text
      "@Component("), so matching it is a substring test. */
  const AngularPatterns: seq<(string, string)> := [
    ("component", "@Component("),
    ("service", "@Injectable("),
    ("module", "@NgModule("),
    ("pipe", "@Pipe(")
  ]

  /** The end of the run of whitespace (`\s*`) that starts at `i`. */
  function SkipSpaces(s: string, i: nat): (j: nat)
    requires i <= |s|
    ensures i <= j <= |s|
    ensures forall k | i <= k < j :: IsSpace(s[k])
    ensures j == |s| || !IsSpace(s[j])
    decreases |s| - i
  {
    if i == |s| || !IsSpace(s[i]) then i else SkipSpaces(s, i + 1)
  }

  /** The end of the run of word characters (`\w*`) that starts at `i`. */
  function SkipWord(s: string, i: nat): (j: nat)
    requires i <= |s|
    ensures i <= j <= |s|
    ensures forall k | i <= k < j :: IsWordChar(s[k])
    ensures j == |s| || !IsWordChar(s[j])
    decreases |s| - i
  {
    if i == |s| || !IsWordChar(s[i]) then i else SkipWord(s, i + 1)
  }

  /** The first index at or after `i` holding `c`, or `|s|` (`[^c]*` then `c`). */
  function FindChar(s: string, i: nat, c: char): (j: nat)
    requires i <= |s|
    ensures i <= j <= |s|
    ensures forall k | i <= k < j :: s[k] != c
    ensures j < |s| ==> s[j] == c
    decreases |s| - i
  {
    if i == |s| || s[i] == c then i else FindChar(s, i + 1, c)
  }

  // ---------------------------------------------------------------------------
  // _extract_name: re.search(r'class\s+(\w+)|export\s+class\s+(\w+)', line)
  // ---------------------------------------------------------------------------

  /** The first alternative, `class\s+(\w+)`, tried at offset `i`: the captured
      name. Both quantifiers are greedy and nothing follows the group, so the
      name is the whole run of word characters. */
  function ClassAt(s: string, i: nat): (name: Option<string>)
    requires i <= |s|
    ensures name.Some? ==> name.value != [] && forall k | 0 <= k < |name.value| :: IsWordChar(name.value[k])
  {
    if !StartsWith(s[i..], "class") then None
    else
      var j := SkipSpaces(s, i + 5);
      if j == i + 5 then None
      else
        var k := SkipWord(s, j);
        if k == j then None else Some(s[j..k])
  }

  /** The second alternative, `export\s+class\s+(\w+)`, tried at offset `i`. */
  function ExportClassAt(s: string, i: nat): (name: Option<string>)
    requires i <= |s|
    ensures name.Some? ==> name.value != [] && forall k | 0 <= k < |name.value| :: IsWordChar(name.value[k])
  {
    if !StartsWith(s[i..], "export") then None
    else
      var j := SkipSpaces(s, i + 6);
      if j == i + 6 then None else ClassAt(s, j)
  }

  /** `re.search` from offset `i`: the leftmost offset where an alternative
      matches, the first alternative tried first. */
  function SearchName(s: string, i: nat): (name: Option<string>)
    requires i <= |s|
    ensures name.Some? ==> name.value != [] && forall k | 0 <= k < |name.value| :: IsWordChar(name.value[k])
    decreases |s| - i
  {
    var a := ClassAt(s, i);
    if a.Some? then a
    else
      var b := ExportClassAt(s, i);
      if b.Some? then b
      else if i == |s| then None
      else SearchName(s, i + 1)
  }

  /** `_extract_name(line)`: the captured name, or "Unknown" without a match. */
  function ExtractName(line: string): (name: string)
    ensures name != [] && forall k | 0 <= k < |name| :: IsWordChar(name[k])
  {
    match SearchName(line, 0)
    case Some(n) => n
    case None => "Unknown"
  }

  /** The name after the leftmost `class` keyword followed by whitespace and a
      word: a reference for `_extract_name` that ignores the `export`
      alternative. */
  function FirstClassWord(s: string, i: nat): Option<string>
    requires i <= |s|
    decreases |s| - i
  {
    var a := ClassAt(s, i);
    if a.Some? then a
    else if i == |s| then None
    else FirstClassWord(s, i + 1)
  }

  /** Offsets that do not hold a 'c' cannot start a `class` match. */
  lemma {:induction false} FirstClassWordSkip(s: string, i: nat, j: nat)
    requires i <= j <= |s|
    requires forall k | i <= k < j :: s[k] != 'c'
    ensures FirstClassWord(s, i) == FirstClassWord(s, j)
    decreases j - i
  {
    if i < j {
      assert s[i..][0] == s[i];
      assert ClassAt(s, i).None?;
      FirstClassWordSkip(s, i + 1, j);
    }
  }

  /** The `export class` alternative never decides the name: whenever it
      matches, the `class` alternative matches the same name further on, with no
      earlier `class` match in between. */
  lemma {:induction false} SearchNameIsFirstClassWord(s: string, i: nat)
    requires i <= |s|
    ensures SearchName(s, i) == FirstClassWord(s, i)
    decreases |s| - i
  {
    if ClassAt(s, i).None? {
      if ExportClassAt(s, i).Some? {
        var j := SkipSpaces(s, i + 6);
        assert s[i..i + 6] == "export";
        forall k | i <= k < j ensures s[k] != 'c' {
          if k < i + 6 {
            assert s[k] == "export"[k - i];
          } else {
            assert IsSpace(s[k]);
          }
        }
        FirstClassWordSkip(s, i, j);
      } else if i < |s| {
        SearchNameIsFirstClassWord(s, i + 1);
      }
    }
  }

  /** `_extract_name(line)` is the word after the leftmost `class` keyword that
      is followed by whitespace and a word, or "Unknown". */
  lemma ExtractNameIsFirstClassWord(line: string)
    ensures ExtractName(line) == match FirstClassWord(line, 0) case Some(n) => n case None => "Unknown"
  {
    SearchNameIsFirstClassWord(line, 0);
  }

  // ---------------------------------------------------------------------------
  // _extract_imports
  // ---------------------------------------------------------------------------

  predicate IsImportLine(line: string) {
    StartsWith(Strip(line), "import ") || StartsWith(Strip(line), "from ")
  }

  /** What one line contributes to `_extract_imports`. */
  function ImportLine(line: string): seq<string> {
    if IsImportLine(line) then [Strip(line)] else []
  }

  /** The import lines of a file, stripped, in file order. */
  function ImportLines(content: string): seq<string> {
    FlatMap(Split(content, '\n'), ImportLine)
  }

  /** `_extract_imports(content)`. */
  method ExtractImports(content: string) returns (imports: seq<string>)
    ensures imports == ImportLines(content)
  {
    imports := [];
    var lines := Split(content, '\n');
    for i := 0 to |lines|
      invariant imports == FlatMap(lines[..i], ImportLine)
    {
      FlatMapSnoc(lines, i, ImportLine);
      var line := lines[i];
      if StartsWith(Strip(line), "import ") || StartsWith(Strip(line), "from ") {
        imports := imports + [Strip(line)];
      }
    }
    assert lines[..|lines|] == lines;
  }

  /** The imports of the lines of a file (`ImportLines(content)` for the lines of
      `content`) are exactly the stripped lines that start with `import ` or
      `from `. */
  lemma ImportLinesExact(lines: seq<string>, x: string)
    ensures x in FlatMap(lines, ImportLine) <==> exists i | 0 <= i < |lines| :: IsImportLine(lines[i]) && Strip(lines[i]) == x
  {
    FlatMapMember(lines, ImportLine, x);
    if x in FlatMap(lines, ImportLine) {
      var i :| 0 <= i < |lines| && x in ImportLine(lines[i]);
      assert IsImportLine(lines[i]) && Strip(lines[i]) == x;
    }
    if exists i | 0 <= i < |lines| :: IsImportLine(lines[i]) && Strip(lines[i]) == x {
      var i :| 0 <= i < |lines| && IsImportLine(lines[i]) && Strip(lines[i]) == x;
      assert x in ImportLine(lines[i]);
    }
  }

  /** Each import is a single line that starts with `import ` or `from `. */
  lemma ImportLinesAreImports(content: string, x: string)
    requires x in ImportLines(content)
    ensures StartsWith(x, "import ") || StartsWith(x, "from ")
    ensures '\n' !in x
  {
    var lines := Split(content, '\n');
    FlatMapMember(lines, ImportLine, x);
    var i :| 0 <= i < |lines| && x in ImportLine(lines[i]);
    StripWithout(lines[i], '\n');
  }

  // ---------------------------------------------------------------------------
  // _extract_methods: re.finditer(r'(?:public|private|protected)?\s*\w+\s*\([^)]*\)\s*{', content)
  // ---------------------------------------------------------------------------

  /** The end of the access modifier at offset `p`, trying the alternatives in
      their order. */
  function ModifierEnd(s: string, p: nat): (e: Option<nat>)
    requires p <= |s|
    ensures e.Some? ==> p < e.value <= |s|
  {
    if StartsWith(s[p..], "public") then Some(p + 6)
    else if StartsWith(s[p..], "private") then Some(p + 7)
    else if StartsWith(s[p..], "protected") then Some(p + 9)
    else None
  }

  /** `\s*\w+\s*\([^)]*\)\s*{` tried at offset `q`: where the match ends. Every
      quantifier is greedy and backing off any of them cannot help the next
      item, so the match, when there is one, is unique. */
  function MatchRest(s: string, q: nat): (e: Option<nat>)
    requires q <= |s|
    ensures e.Some? ==> q < e.value <= |s| && s[e.value - 1] == '{'
  {
    var a := SkipSpaces(s, q);
    var b := SkipWord(s, a);
    if b == a then None
    else
      var c := SkipSpaces(s, b);
      if c == |s| || s[c] != '(' then None
      else
        var d := FindChar(s, c + 1, ')');
        if d == |s| then None
        else
          var e := SkipSpaces(s, d + 1);
          if e == |s| || s[e] != '{' then None else Some(e + 1)
  }

  /** The whole method pattern tried at offset `p`: first with the access
      modifier when one is there, then, backtracking, without it. */
  function MatchAt(s: string, p: nat): (e: Option<nat>)
    requires p <= |s|
    ensures e.Some? ==> p < e.value <= |s| && s[e.value - 1] == '{'
  {
    var m := ModifierEnd(s, p);
    if m.Some? && MatchRest(s, m.value).Some? then MatchRest(s, m.value) else MatchRest(s, p)
  }

  /** A match of the method pattern: non-empty, ending with the brace. */
  predicate EndsWithBrace(m: string) {
    m != [] && m[|m| - 1] == '{'
  }

  /** `re.finditer` from offset `p`: the texts of the successive matches,
      leftmost first, each search resuming where the previous match ended. */
  function MatchesFrom(s: string, p: nat): (r: seq<string>)
    requires p <= |s|
    ensures forall k | 0 <= k < |r| :: EndsWithBrace(r[k])
    decreases |s| - p
  {
    if p == |s| then []
    else
      var e := MatchAt(s, p);
      if e.Some? then
        var m := s[p..e.value];
        assert m[|m| - 1] == s[e.value - 1];
        var rest := MatchesFrom(s, e.value);
        assert EndsWithBrace(m);
        [m] + rest
      else MatchesFrom(s, p + 1)
  }

  /** `[m.strip() for m in ms]`. */
  function StripAll(ms: seq<string>): (r: seq<string>)
    ensures |r| == |ms| && forall k | 0 <= k < |ms| :: r[k] == Strip(ms[k])
  {
    if ms == [] then [] else [Strip(ms[0])] + StripAll(ms[1..])
  }

  /** The method signatures of a file: the stripped texts of the matches. */
  function MethodSignatures(content: string): seq<string> {
    StripAll(MatchesFrom(content, 0))
  }

  /** `_extract_methods(content)`. */
  method ExtractMethods(content: string) returns (methods: seq<string>)
    ensures methods == MethodSignatures(content)
  {
    methods := [];
    var pos := 0;
    while pos < |content|
      invariant pos <= |content|
      invariant methods + StripAll(MatchesFrom(content, pos)) == MethodSignatures(content)
      decreases |content| - pos
    {
      var e := MatchAt(content, pos);
      if e.Some? {
        methods := methods + [Strip(content[pos..e.value])];
        pos := e.value;
      } else {
        pos := pos + 1;
      }
    }
  }

  /** Every method signature is a non-empty text that ends in '{' and starts
      with no whitespace. */
  lemma MethodSignaturesEndWithBrace(content: string)
    ensures forall k | 0 <= k < |MethodSignatures(content)| ::
      var m := MethodSignatures(content)[k];
      m != [] && m[|m| - 1] == '{' && !IsSpace(m[0])
  {
    var ms := MatchesFrom(content, 0);
    forall k | 0 <= k < |ms|
      ensures Strip(ms[k]) != [] && Strip(ms[k])[|Strip(ms[k])| - 1] == '{' && !IsSpace(Strip(ms[k])[0])
    {
      StripSpec(ms[k]);
      StripKeepsLast(ms[k]);
    }
  }

  // ---------------------------------------------------------------------------
  // _analyze_typescript
  // ---------------------------------------------------------------------------

  /** The line contains at least one signature of the table. */
  predicate Signed(line: string) {
    exists k | 0 <= k < |AngularPatterns| :: Contains(line, AngularPatterns[k].1)
  }

  /** The record for signature `key` found on line `i`. */
  function SignatureRecord(lines: seq<string>, i: nat, key: string, imports: seq<string>, methods: seq<string>): CodeElement
    requires i + 1 < |lines|
  {
    CodeElement(ExtractName(lines[i + 1]), key, [Strip(lines[i])], imports, methods, i + 1, [])
  }

  /** The records for line `i` from the first `j` signatures of the table. */
  function LineRecords(lines: seq<string>, i: nat, j: nat, imports: seq<string>, methods: seq<string>): seq<CodeElement>
    requires i + 1 < |lines| && j <= |AngularPatterns|
  {
    if j == 0 then []
    else
      LineRecords(lines, i, j - 1, imports, methods) +
      if Contains(lines[i], AngularPatterns[j - 1].1) then [SignatureRecord(lines, i, AngularPatterns[j - 1].0, imports, methods)] else []
  }

  /** The records for the first `n` lines, none of them the last line. */
  function LinesRecords(lines: seq<string>, n: nat, imports: seq<string>, methods: seq<string>): seq<CodeElement>
    requires n < |lines|
  {
    if n == 0 then []
    else LinesRecords(lines, n - 1, imports, methods) + LineRecords(lines, n - 1, |AngularPatterns|, imports, methods)
  }

  /** What `_analyze_typescript` returns or raises: a signature on the last line
      makes `lines[i+1]` raise `IndexError`. */
  function TypeScriptRecords(content: string): Result<seq<CodeElement>, Error> {
    var lines := Split(content, '\n');
    if Signed(lines[|lines| - 1]) then Failure(IndexError)
    else Success(LinesRecords(lines, |lines| - 1, ImportLines(content), MethodSignatures(content)))
  }

  lemma LineRecordsStep(lines: seq<string>, i: nat, j: nat, imports: seq<string>, methods: seq<string>)
    requires i + 1 < |lines| && j < |AngularPatterns|
    ensures LineRecords(lines, i, j + 1, imports, methods) == LineRecords(lines, i, j, imports, methods) +
      if Contains(lines[i], AngularPatterns[j].1) then [SignatureRecord(lines, i, AngularPatterns[j].0, imports, methods)] else []
  {
  }

  /** The record `_analyze_typescript` builds for signature `key` on line `i`. */
  method SignatureElement(content: string, lines: seq<string>, i: nat, key: string) returns (element: CodeElement)
    requires i + 1 < |lines|
    ensures element == SignatureRecord(lines, i, key, ImportLines(content), MethodSignatures(content))
  {
    var name := ExtractName(lines[i + 1]);
    var fileImports := ExtractImports(content);
    var fileMethods := ExtractMethods(content);
    element := CodeElement(name, key, [Strip(lines[i])], fileImports, fileMethods, i + 1, []);
  }

  /** One step of the inner loop of `_analyze_typescript`: signature `j` of
      the table, tried on line `i`, which has a next line. */
  method TrySignature(content: string, lines: seq<string>, i: nat, j: nat, found: seq<CodeElement>)
    returns (extended: seq<CodeElement>)
    requires i + 1 < |lines| && j < |AngularPatterns|
    ensures extended == found +
      if Contains(lines[i], AngularPatterns[j].1)
      then [SignatureRecord(lines, i, AngularPatterns[j].0, ImportLines(content), MethodSignatures(content))]
      else []
  {
    extended := found;
    var key, pattern := AngularPatterns[j].0, AngularPatterns[j].1;
    if Contains(lines[i], pattern) {
      var element := SignatureElement(content, lines, i, key);
      extended := extended + [element];
    }
  }

  /** The inner loop of `_analyze_typescript` over the signature table, for a
      line `i` that has a next line: `elements` extended with one record per
      signature the line contains, in table order. */
  method ScanLine(content: string, lines: seq<string>, i: nat, elements: seq<CodeElement>)
    returns (found: seq<CodeElement>)
    requires i + 1 < |lines|
    ensures found == elements + LineRecords(lines, i, |AngularPatterns|, ImportLines(content), MethodSignatures(content))
  {
    ghost var imports, methods := ImportLines(content), MethodSignatures(content);
    found := elements;
    for j := 0 to |AngularPatterns|
      invariant found == elements + LineRecords(lines, i, j, imports, methods)
    {
      LineRecordsStep(lines, i, j, imports, methods);
      found := TrySignature(content, lines, i, j, found);
    }
  }

  /** The same inner loop on the last line: the first signature it contains
      makes `lines[i+1]` raise `IndexError` before any record is built. */
  method LastLineRaises(line: string) returns (raises: bool)
    ensures raises <==> Signed(line)
  {
    for j := 0 to |AngularPatterns|
      invariant forall k | 0 <= k < j :: !Contains(line, AngularPatterns[k].1)
    {
      if Contains(line, AngularPatterns[j].1) {
        return true;
      }
    }
    return false;
  }

  /** `_analyze_typescript(content)`. */
  method AnalyzeTypeScript(content: string) returns (r: Result<seq<CodeElement>, Error>)
    ensures r == TypeScriptRecords(content)
  {
    var elements: seq<CodeElement> := [];
    var lines := Split(content, '\n');
    ghost var imports, methods := ImportLines(content), MethodSignatures(content);
    for i := 0 to |lines|
      invariant i < |lines| ==> elements == LinesRecords(lines, i, imports, methods)
      invariant i == |lines| ==> elements == LinesRecords(lines, i - 1, imports, methods) && !Signed(lines[i - 1])
    {
      if i + 1 < |lines| {
        elements := ScanLine(content, lines, i, elements);
      } else {
        var raises := LastLineRaises(lines[i]);
        if raises {
          r := Failure(IndexError);
          return;
        }
      }
    }
    r := Success(elements);
  }

  /** A record made for a signature on the line before the one its line
      number (1-based) designates: its kind is the key of a signature that line
      contains, its decorator is that line stripped, its name comes from the
      next line, it has no dependencies, and it carries the given import lines
      and method signatures. */
  predicate FromSignature(lines: seq<string>, r: CodeElement, imports: seq<string>, methods: seq<string>)
    requires 1 <= r.lineNumber < |lines|
  {
    var i := r.lineNumber - 1;
    && (exists k | 0 <= k < |AngularPatterns| :: AngularPatterns[k].0 == r.kind && Contains(lines[i], AngularPatterns[k].1))
    && r.decorators == [Strip(lines[i])]
    && r.name == ExtractName(lines[i + 1])
    && r.dependencies == [] && r.imports == imports && r.methods == methods
  }

  /** A successful scan's records are those of every line but the last. */
  lemma TypeScriptRecordsValue(content: string, rs: seq<CodeElement>)
    requires TypeScriptRecords(content) == Success(rs)
    ensures var lines := Split(content, '\n');
      rs == LinesRecords(lines, |lines| - 1, ImportLines(content), MethodSignatures(content))
  {
  }

  /** Every TypeScript record stands for one signature contained in one line
      that is not the last, and carries the file's import lines and method
      signatures. */
  lemma TypeScriptRecordsSound(content: string, rs: seq<CodeElement>, r: CodeElement)
    requires TypeScriptRecords(content) == Success(rs) && r in rs
    ensures 1 <= r.lineNumber < |Split(content, '\n')|
    ensures FromSignature(Split(content, '\n'), r, ImportLines(content), MethodSignatures(content))
  {
    TypeScriptRecordsValue(content, rs);
    ScanRecordSound(Split(content, '\n'), rs, r, ImportLines(content), MethodSignatures(content));
  }

  /** A record of the scan of every line but the last is sound. */
  lemma ScanRecordSound(lines: seq<string>, rs: seq<CodeElement>, r: CodeElement, imports: seq<string>, methods: seq<string>)
    requires |lines| > 0 && rs == LinesRecords(lines, |lines| - 1, imports, methods) && r in rs
    ensures 1 <= r.lineNumber < |lines| && FromSignature(lines, r, imports, methods)
  {
    LinesRecordSound(lines, |lines| - 1, r, imports, methods);
  }

  lemma {:induction false} LinesRecordSound(lines: seq<string>, n: nat, r: CodeElement, imports: seq<string>, methods: seq<string>)
    requires n < |lines| && r in LinesRecords(lines, n, imports, methods)
    ensures 1 <= r.lineNumber <= n && FromSignature(lines, r, imports, methods)
  {
    assert n > 0;
    MemberOfLines(lines, n, r, imports, methods);
    if r in LinesRecords(lines, n - 1, imports, methods) {
      LinesRecordSound(lines, n - 1, r, imports, methods);
    } else {
      LineRecordSound(lines, n - 1, |AngularPatterns|, r, imports, methods);
    }
  }

  lemma {:induction false} LineRecordSound(lines: seq<string>, i: nat, j: nat, r: CodeElement, imports: seq<string>, methods: seq<string>)
    requires i + 1 < |lines| && j <= |AngularPatterns|
    requires r in LineRecords(lines, i, j, imports, methods)
    ensures r.lineNumber == i + 1 && FromSignature(lines, r, imports, methods)
  {
    assert j > 0;
    if r in LineRecords(lines, i, j - 1, imports, methods) {
      LineRecordSound(lines, i, j - 1, r, imports, methods);
    }
  }

  /** Every signature contained in a line that is not the last gives a record
      of that kind on that line. */
  lemma TypeScriptRecordsComplete(content: string, rs: seq<CodeElement>, i: nat, k: nat)
    requires TypeScriptRecords(content) == Success(rs)
    requires i + 1 < |Split(content, '\n')| && k < |AngularPatterns|
    requires Contains(Split(content, '\n')[i], AngularPatterns[k].1)
    ensures exists r | r in rs :: r.lineNumber == i + 1 && r.kind == AngularPatterns[k].0
  {
    var lines := Split(content, '\n');
    TypeScriptRecordsValue(content, rs);
    LinesRecordsHave(lines, |lines| - 1, i, k, ImportLines(content), MethodSignatures(content));
  }

  /** Among the records of the first `n` lines is one of kind `k` on line `i`. */
  lemma LinesRecordsHave(lines: seq<string>, n: nat, i: nat, k: nat, imports: seq<string>, methods: seq<string>)
    requires i < n < |lines| && k < |AngularPatterns|
    requires Contains(lines[i], AngularPatterns[k].1)
    ensures exists r | r in LinesRecords(lines, n, imports, methods) :: r.lineNumber == i + 1 && r.kind == AngularPatterns[k].0
  {
    LinesRecordsComplete(lines, n, i, k, imports, methods);
    var rec := SignatureRecord(lines, i, AngularPatterns[k].0, imports, methods);
    assert rec in LinesRecords(lines, n, imports, methods);
  }

  /** A record of the first `n` lines is a record of the first `n - 1` lines
      or of line `n - 1`. */
  lemma MemberOfLines(lines: seq<string>, n: nat, r: CodeElement, imports: seq<string>, methods: seq<string>)
    requires 0 < n < |lines|
    ensures r in LinesRecords(lines, n, imports, methods) <==>
      r in LinesRecords(lines, n - 1, imports, methods) || r in LineRecords(lines, n - 1, |AngularPatterns|, imports, methods)
  {
    MemberOfAppend(r, LinesRecords(lines, n - 1, imports, methods), LineRecords(lines, n - 1, |AngularPatterns|, imports, methods));
  }

  lemma {:induction false} LinesRecordsComplete(lines: seq<string>, n: nat, i: nat, k: nat, imports: seq<string>, methods: seq<string>)
    requires i < n < |lines| && k < |AngularPatterns|
    requires Contains(lines[i], AngularPatterns[k].1)
    ensures SignatureRecord(lines, i, AngularPatterns[k].0, imports, methods) in LinesRecords(lines, n, imports, methods)
  {
    var rec := SignatureRecord(lines, i, AngularPatterns[k].0, imports, methods);
    if i + 1 == n {
      LineRecordsComplete(lines, i, |AngularPatterns|, k, imports, methods);
    } else {
      LinesRecordsComplete(lines, n - 1, i, k, imports, methods);
    }
    MemberOfLines(lines, n, rec, imports, methods);
  }

  lemma {:induction false} LineRecordsComplete(lines: seq<string>, i: nat, j: nat, k: nat, imports: seq<string>, methods: seq<string>)
    requires i + 1 < |lines| && k < j <= |AngularPatterns|
    requires Contains(lines[i], AngularPatterns[k].1)
    ensures SignatureRecord(lines, i, AngularPatterns[k].0, imports, methods) in LineRecords(lines, i, j, imports, methods)
  {
    if k < j - 1 {
      LineRecordsComplete(lines, i, j - 1, k, imports, methods);
    }
  }

  // ---------------------------------------------------------------------------
  // Scan order
  // ---------------------------------------------------------------------------

  /** The position of the signature keyed `kind` in the table, or the table's
      length when no signature has that key. */
  function KeyIndex(kind: string): (m: nat)
    ensures m <= |AngularPatterns|
    ensures m < |AngularPatterns| ==> AngularPatterns[m].0 == kind
    ensures m == |AngularPatterns| ==> forall j | 0 <= j < |AngularPatterns| :: AngularPatterns[j].0 != kind
  {
    if kind == AngularPatterns[0].0 then 0
    else if kind == AngularPatterns[1].0 then 1
    else if kind == AngularPatterns[2].0 then 2
    else if kind == AngularPatterns[3].0 then 3
    else 4
  }

  /** The keys of the table are distinct: each key sits at its own position. */
  lemma KeyIndexOf(k: nat)
    requires k < |AngularPatterns|
    ensures KeyIndex(AngularPatterns[k].0) == k
  {
  }

  /** `r` comes before `s` in the scan: on an earlier line, or on the same line
      for a signature earlier in the table. */
  predicate Precedes(r: CodeElement, s: CodeElement) {
    r.lineNumber < s.lineNumber || (r.lineNumber == s.lineNumber && KeyIndex(r.kind) < KeyIndex(s.kind))
  }

  /** The records of line `i` carry line number `i + 1`. */
  lemma {:induction false} LineRecordLine(lines: seq<string>, i: nat, j: nat, r: CodeElement, imports: seq<string>, methods: seq<string>)
    requires i + 1 < |lines| && j <= |AngularPatterns|
    requires r in LineRecords(lines, i, j, imports, methods)
    ensures r.lineNumber == i + 1
  {
    assert j > 0;
    if r in LineRecords(lines, i, j - 1, imports, methods) {
      LineRecordLine(lines, i, j - 1, r, imports, methods);
    }
  }

  /** The records of the first `n` lines carry line numbers from 1 to `n`. */
  lemma {:induction false} LinesRecordLine(lines: seq<string>, n: nat, r: CodeElement, imports: seq<string>, methods: seq<string>)
    requires n < |lines| && r in LinesRecords(lines, n, imports, methods)
    ensures 1 <= r.lineNumber <= n
  {
    assert n > 0;
    MemberOfLines(lines, n, r, imports, methods);
    if r in LinesRecords(lines, n - 1, imports, methods) {
      LinesRecordLine(lines, n - 1, r, imports, methods);
    } else {
      LineRecordLine(lines, n - 1, |AngularPatterns|, r, imports, methods);
    }
  }

  /** The records of a line come from the first `j` signatures of the table. */
  lemma {:induction false} LineRecordKind(lines: seq<string>, i: nat, j: nat, r: CodeElement, imports: seq<string>, methods: seq<string>)
    requires i + 1 < |lines| && j <= |AngularPatterns|
    requires r in LineRecords(lines, i, j, imports, methods)
    ensures KeyIndex(r.kind) < j
  {
    assert j > 0;
    if r in LineRecords(lines, i, j - 1, imports, methods) {
      LineRecordKind(lines, i, j - 1, r, imports, methods);
    } else {
      KeyIndexOf(j - 1);
    }
  }

  /** Within one line the records follow the table order, each signature at
      most once. */
  lemma {:induction false} LineRecordsOrdered(lines: seq<string>, i: nat, j: nat, a: nat, b: nat, imports: seq<string>, methods: seq<string>)
    requires i + 1 < |lines| && j <= |AngularPatterns|
    requires a < b < |LineRecords(lines, i, j, imports, methods)|
    ensures var rs := LineRecords(lines, i, j, imports, methods);
      KeyIndex(rs[a].kind) < KeyIndex(rs[b].kind)
  {
    assert j > 0;
    var front := LineRecords(lines, i, j - 1, imports, methods);
    var rs := LineRecords(lines, i, j, imports, methods);
    assert rs[a] == front[a];
    if b < |front| {
      LineRecordsOrdered(lines, i, j - 1, a, b, imports, methods);
      assert rs[b] == front[b];
    } else {
      assert rs[b].kind == AngularPatterns[j - 1].0;
      KeyIndexOf(j - 1);
      LineRecordKind(lines, i, j - 1, front[a], imports, methods);
    }
  }

  /** Two records of one line follow the table order. */
  lemma WithinLinePrecedes(lines: seq<string>, i: nat, x: nat, y: nat, imports: seq<string>, methods: seq<string>)
    requires i + 1 < |lines|
    requires x < y < |LineRecords(lines, i, |AngularPatterns|, imports, methods)|
    ensures var rs := LineRecords(lines, i, |AngularPatterns|, imports, methods);
      Precedes(rs[x], rs[y])
  {
    var rs := LineRecords(lines, i, |AngularPatterns|, imports, methods);
    LineRecordsOrdered(lines, i, |AngularPatterns|, x, y, imports, methods);
    LineRecordLine(lines, i, |AngularPatterns|, rs[x], imports, methods);
    LineRecordLine(lines, i, |AngularPatterns|, rs[y], imports, methods);
  }

  /** A record of an earlier line comes before a record of line `n - 1`. */
  lemma AcrossLinesPrecedes(lines: seq<string>, n: nat, r: CodeElement, s: CodeElement, imports: seq<string>, methods: seq<string>)
    requires 0 < n < |lines|
    requires r in LinesRecords(lines, n - 1, imports, methods)
    requires s in LineRecords(lines, n - 1, |AngularPatterns|, imports, methods)
    ensures Precedes(r, s)
  {
    LinesRecordLine(lines, n - 1, r, imports, methods);
    LineRecordLine(lines, n - 1, |AngularPatterns|, s, imports, methods);
  }

  /** The records of the first `n` lines follow the scan order. */
  lemma {:induction false} LinesRecordsOrdered(lines: seq<string>, n: nat, a: nat, b: nat, imports: seq<string>, methods: seq<string>)
    requires n < |lines|
    requires a < b < |LinesRecords(lines, n, imports, methods)|
    ensures var rs := LinesRecords(lines, n, imports, methods);
      Precedes(rs[a], rs[b])
  {
    assert n > 0;
    var earlier := LinesRecords(lines, n - 1, imports, methods);
    var here := LineRecords(lines, n - 1, |AngularPatterns|, imports, methods);
    var rs := LinesRecords(lines, n, imports, methods);
    if b < |earlier| {
      LinesRecordsOrdered(lines, n - 1, a, b, imports, methods);
      assert rs[a] == earlier[a] && rs[b] == earlier[b];
    } else if a >= |earlier| {
      WithinLinePrecedes(lines, n - 1, a - |earlier|, b - |earlier|, imports, methods);
      assert rs[a] == here[a - |earlier|] && rs[b] == here[b - |earlier|];
    } else {
      AcrossLinesPrecedes(lines, n, earlier[a], here[b - |earlier|], imports, methods);
      assert rs[a] == earlier[a] && rs[b] == here[b - |earlier|];
    }
  }

  /** The records of a TypeScript file come in scan order: by line, and on one
      line by the table order of their signatures. With soundness and
      completeness, each contained signature of a line that is not the last
      gives exactly one record. */
  lemma TypeScriptRecordsOrdered(content: string, rs: seq<CodeElement>, a: nat, b: nat)
    requires TypeScriptRecords(content) == Success(rs)
    requires a < b < |rs|
    ensures Precedes(rs[a], rs[b])
  {
    var lines := Split(content, '\n');
    TypeScriptRecordsValue(content, rs);
    LinesRecordsOrdered(lines, |lines| - 1, a, b, ImportLines(content), MethodSignatures(content));
  }
}
