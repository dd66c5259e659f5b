/**
 * The part of Python's `ast` module that the analyzer and the class splitter
 * rely on: the node kinds they inspect, and `ast.walk`, which visits every node
 * of a tree breadth-first (a node, then the queue of nodes still to visit
 * extended with its children in field order).
 */
module PyAst {
  import opened Seqs

  /** A line number as the parser reports it. */
  type LineNo = n: int | n >= 1 witness 1

  /** A node of a parsed module. `segment` is the text that
      `ast.get_source_segment` gives for the node. The children of a class are its
      bases (and keywords), its body and its decorators, in that order. A
      decorator is a `Name` when it is a plain `@name`; a call or an attribute
      access is an `Other` node. Every node kind the tool does not inspect (the
      module itself, expressions, statements, `async def`) is an `Other` node
      with its children in field order. */
  datatype Node =
    | ClassDef(name: string, bases: seq<Node>, body: seq<Node>, decorators: seq<Node>, lineno: LineNo, segment: string)
    | FunctionDef(name: string, children: seq<Node>)
    | Name(id: string)
    | Import(names: seq<string>, segment: string)
    | ImportFrom(moduleName: ModuleName, names: seq<string>, segment: string)
    | Other(children: seq<Node>)

  /** The `module` field of `from M import …`; a relative import without a module
      (`from . import x`) has none. */
  datatype ModuleName = NoModule | Module(dotted: string)

  /** `ast.iter_child_nodes`. */
  function Children(n: Node): seq<Node> {
    match n
    case ClassDef(_, bases, body, decorators, _, _) => bases + body + decorators
    case FunctionDef(_, children) => children
    case Other(children) => children
    case _ => []
  }

  /** The number of nodes of a tree. */
  function Size(n: Node): (k: nat)
    ensures k >= 1
    decreases n, 1
  {
    match n
    case ClassDef(_, bases, body, decorators, _, _) => 1 + SeqSize(bases) + SeqSize(body) + SeqSize(decorators)
    case FunctionDef(_, children) => 1 + SeqSize(children)
    case Other(children) => 1 + SeqSize(children)
    case _ => 1
  }

  function SeqSize(s: seq<Node>): nat
    decreases s, 0
  {
    if s == [] then 0 else Size(s[0]) + SeqSize(s[1..])
  }

  lemma {:induction false} SeqSizeAppend(a: seq<Node>, b: seq<Node>)
    ensures SeqSize(a + b) == SeqSize(a) + SeqSize(b)
  {
    if a != [] {
      SeqSizeAppend(a[1..], b);
      TailOfAppend(a, b);
    } else {
      assert a + b == b;
    }
  }

  lemma SizeUnfold(n: Node)
    ensures Size(n) == 1 + SeqSize(Children(n))
  {
    if n.ClassDef? {
      SeqSizeAppend(n.bases, n.body);
      SeqSizeAppend(n.bases + n.body, n.decorators);
    }
  }

  /** `ast.walk` continued from a queue of nodes still to visit. */
  function WalkQueue(queue: seq<Node>): seq<Node>
    decreases SeqSize(queue)
  {
    if queue == [] then []
    else
      var node := queue[0];
      SizeUnfold(node);
      SeqSizeAppend(queue[1..], Children(node));
      [node] + WalkQueue(queue[1..] + Children(node))
  }

  /** `ast.walk(root)`: every node of the tree, breadth-first. */
  function Walk(root: Node): seq<Node> {
    WalkQueue([root])
  }

  /** The nodes of a tree as a multiset, by structural recursion: the reference
      for what the walk visits. */
  function Subtree(n: Node): multiset<Node>
    decreases n, 1
  {
    multiset{n} +
      match n
      case ClassDef(_, bases, body, decorators, _, _) => SubtreeSeq(bases) + SubtreeSeq(body) + SubtreeSeq(decorators)
      case FunctionDef(_, children) => SubtreeSeq(children)
      case Other(children) => SubtreeSeq(children)
      case _ => multiset{}
  }

  function SubtreeSeq(s: seq<Node>): multiset<Node>
    decreases s, 0
  {
    if s == [] then multiset{} else Subtree(s[0]) + SubtreeSeq(s[1..])
  }

  lemma {:induction false} SubtreeSeqAppend(a: seq<Node>, b: seq<Node>)
    ensures SubtreeSeq(a + b) == SubtreeSeq(a) + SubtreeSeq(b)
  {
    if a == [] {
      assert a + b == b;
    } else {
      SubtreeSeqAppend(a[1..], b);
      TailOfAppend(a, b);
    }
  }

  lemma SubtreeUnfold(n: Node)
    ensures Subtree(n) == multiset{n} + SubtreeSeq(Children(n))
  {
    if n.ClassDef? {
      SubtreeSeqAppend(n.bases, n.body);
      SubtreeSeqAppend(n.bases + n.body, n.decorators);
    }
  }

  /** The walk visits each node of each queued tree exactly once: as a multiset
      it is the union of their subtrees. */
  lemma {:induction false} WalkQueueVisitsAll(queue: seq<Node>)
    ensures multiset(WalkQueue(queue)) == SubtreeSeq(queue)
    decreases SeqSize(queue)
  {
    if queue != [] {
      var node := queue[0];
      SizeUnfold(node);
      SeqSizeAppend(queue[1..], Children(node));
      WalkQueueVisitsAll(queue[1..] + Children(node));
      SubtreeSeqAppend(queue[1..], Children(node));
      SubtreeUnfold(node);
    }
  }

  /** `ast.walk(root)` visits every node of the tree exactly once, the root
      first. */
  lemma WalkVisitsAll(root: Node)
    ensures multiset(Walk(root)) == Subtree(root)
    ensures |Walk(root)| >= 1 && Walk(root)[0] == root
  {
    WalkQueueVisitsAll([root]);
    assert SubtreeSeq([root]) == Subtree(root) + SubtreeSeq([]);
  }

  /** The class definitions among a sequence of nodes, in order. */
  function ClassDefs(nodes: seq<Node>): (r: seq<Node>)
    ensures forall c | c in r :: c.ClassDef? && c in nodes
  {
    if nodes == [] then []
    else (if nodes[0].ClassDef? then [nodes[0]] else []) + ClassDefs(nodes[1..])
  }

  lemma {:induction false} ClassDefsAppend(a: seq<Node>, b: seq<Node>)
    ensures ClassDefs(a + b) == ClassDefs(a) + ClassDefs(b)
  {
    if a != [] {
      ClassDefsAppend(a[1..], b);
      TailOfAppend(a, b);
    } else {
      assert a + b == b;
    }
  }

  /** The number of class definitions in a tree, nested ones included, by
      structural recursion. */
  function ClassCount(n: Node): nat
    decreases n, 1
  {
    match n
    case ClassDef(_, bases, body, decorators, _, _) => 1 + ClassCountSeq(bases) + ClassCountSeq(body) + ClassCountSeq(decorators)
    case FunctionDef(_, children) => ClassCountSeq(children)
    case Other(children) => ClassCountSeq(children)
    case _ => 0
  }

  function ClassCountSeq(s: seq<Node>): nat
    decreases s, 0
  {
    if s == [] then 0 else ClassCount(s[0]) + ClassCountSeq(s[1..])
  }

  lemma {:induction false} ClassCountSeqAppend(a: seq<Node>, b: seq<Node>)
    ensures ClassCountSeq(a + b) == ClassCountSeq(a) + ClassCountSeq(b)
  {
    if a != [] {
      ClassCountSeqAppend(a[1..], b);
      TailOfAppend(a, b);
    } else {
      assert a + b == b;
    }
  }

  lemma ClassCountUnfold(n: Node)
    ensures ClassCount(n) == (if n.ClassDef? then 1 else 0) + ClassCountSeq(Children(n))
  {
    if n.ClassDef? {
      ClassCountSeqAppend(n.bases, n.body);
      ClassCountSeqAppend(n.bases + n.body, n.decorators);
    }
  }

  /** The walk meets every class definition of the queued trees, nested ones
      included, once. */
  lemma {:induction false} WalkQueueClassDefs(queue: seq<Node>)
    ensures |ClassDefs(WalkQueue(queue))| == ClassCountSeq(queue)
    decreases SeqSize(queue)
  {
    if queue != [] {
      var node := queue[0];
      SizeUnfold(node);
      SeqSizeAppend(queue[1..], Children(node));
      WalkQueueClassDefs(queue[1..] + Children(node));
      ClassCountSeqAppend(queue[1..], Children(node));
      ClassCountUnfold(node);
      ClassDefsAppend([node], WalkQueue(queue[1..] + Children(node)));
    }
  }

  /** `ast.walk(root)` meets exactly as many class definitions as the tree holds. */
  lemma WalkClassDefs(root: Node)
    ensures |ClassDefs(Walk(root))| == ClassCount(root)
  {
    WalkQueueClassDefs([root]);
  }
}
