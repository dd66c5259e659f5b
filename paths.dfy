/**
 * The POSIX `os.path` functions the tool uses: `basename`, `dirname`, `splitext`
 * and `join`, and the name it gives to the file of one split class.
 */
module Paths {
  import opened Strings

  predicate AllSlashes(s: string) {
    forall i | 0 <= i < |s| :: s[i] == '/'
  }

  /** `s.rstrip('/')`. */
  function StripTrailingSlashes(s: string): (r: string)
    ensures r <= s
    ensures r == [] || r[|r| - 1] != '/'
    ensures AllSlashes(s[|r|..])
  {
    if s == [] || s[|s| - 1] != '/' then s
    else StripTrailingSlashes(s[..|s| - 1])
  }

  /** `os.path.basename(p)`: the text after the last '/'. */
  function Basename(p: string): (r: string)
    ensures '/' !in r
    ensures EndsWith(p, r)
    ensures |r| < |p| ==> p[|p| - |r| - 1] == '/'
  {
    var r := p[LastIndexOf(p, '/') + 1..];
    assert forall i | 0 <= i < |r| :: r[i] == p[LastIndexOf(p, '/') + 1 + i];
    r
  }

  /** `os.path.dirname(p)`: the text up to the last '/', without its trailing
      slashes unless it consists of slashes only. */
  function Dirname(p: string): (r: string)
    ensures r <= p
  {
    var head := p[..LastIndexOf(p, '/') + 1];
    if head != [] && !AllSlashes(head) then StripTrailingSlashes(head) else head
  }

  /** `os.path.splitext(p)`: the extension is the text from the last '.' of the
      last path component, unless every character before that '.' in the
      component is a '.' as well (a leading-dot name has no extension). */
  function SplitExt(p: string): (r: (string, string))
    ensures r.0 + r.1 == p
    ensures r.1 == [] || (r.1[0] == '.' && '/' !in r.1 && '.' !in r.1[1..])
  {
    var sepIndex := LastIndexOf(p, '/');
    var dotIndex := LastIndexOf(p, '.');
    if dotIndex > sepIndex && exists k | sepIndex + 1 <= k < dotIndex :: p[k] != '.' then
      var ext := p[dotIndex..];
      assert forall i | 0 <= i < |ext| :: ext[i] == p[dotIndex + i];
      (p[..dotIndex], ext)
    else
      (p, "")
  }

  /** `os.path.join(a, b)`. */
  function PathJoin(a: string, b: string): (r: string)
    ensures !StartsWith(b, "/") ==> EndsWith(r, b)
  {
    if StartsWith(b, "/") then b
    else if a == [] || EndsWith(a, "/") then a + b
    else a + "/" + b
  }

  /** The name `{base}_{lower-case class name}.py` that the class splitter gives
      to the file of one class, `base` being the source file's name without its
      extension. */
  function SplitFileName(path: string, className: string): string {
    SplitExt(Basename(path)).0 + "_" + Lower(className) + ".py"
  }

  /** The path of that file: next to the source file. */
  function SplitFilePath(path: string, className: string): string {
    PathJoin(Dirname(path), SplitFileName(path, className))
  }

  /** A name without '/' that follows a '/' is the last path component. */
  lemma BasenameAfterSlash(d: string, f: string)
    requires '/' !in f
    ensures Basename(d + "/" + f) == f
    ensures Dirname(d + "/" + f) == Dirname(d + "/")
  {
    var p := d + "/" + f;
    var k := LastIndexOf(p, '/');
    assert p[|d|] == '/';
    forall i | |d| < i < |p| ensures p[i] != '/' {
      assert p[i] == f[i - |d| - 1] && f[i - |d| - 1] in f;
    }
    assert k == |d|;
    assert p[k + 1..] == f;
    assert LastIndexOf(d + "/", '/') == |d|;
    assert p[..k + 1] == (d + "/")[..|d| + 1];
  }

  /** A name without '/' has no directory part. */
  lemma BasenameOfName(f: string)
    requires '/' !in f
    ensures Basename(f) == f && Dirname(f) == ""
  {
    forall i | 0 <= i < |f| ensures f[i] != '/' {
      assert f[i] in f;
    }
  }

  /** The split file name is a single path component. */
  lemma SplitFileNameIsComponent(path: string, className: string)
    requires '/' !in className
    ensures '/' !in SplitFileName(path, className)
    ensures !StartsWith(SplitFileName(path, className), "/")
  {
    var b := Basename(path);
    NoSlashInPrefix(SplitExt(b).0, SplitExt(b).1);
    NoSlashInLower(className);
    NoSlashInFileName(SplitExt(b).0, Lower(className));
  }

  lemma NoSlashInFileName(base: string, lower: string)
    requires '/' !in base && '/' !in lower
    ensures '/' !in base + "_" + lower + ".py"
    ensures !StartsWith(base + "_" + lower + ".py", "/")
  {
    assert '/' !in "_";
    assert '/' !in ".py";
    var f := base + "_" + lower + ".py";
    assert f[0] in f;
  }

  lemma NoSlashInPrefix(a: string, b: string)
    requires '/' !in a + b
    ensures '/' !in a
  {
  }

  lemma NoSlashInLower(s: string)
    requires '/' !in s
    ensures '/' !in Lower(s)
  {
    forall i | 0 <= i < |s| ensures Lower(s)[i] != '/' {
      assert s[i] in s;
    }
  }

  /** The split file of a class lies in the source file's directory and is named
      `{base}_{lower-case class name}.py`; it is never the source file itself. */
  lemma {:induction false} SplitFileBesideSource(path: string, className: string)
    requires '/' !in className
    ensures Basename(SplitFilePath(path, className)) == SplitFileName(path, className)
    ensures Dirname(SplitFilePath(path, className)) == Dirname(path)
    ensures EndsWith(path, ".py") ==> SplitFilePath(path, className) != path
  {
    SplitFileNameIsComponent(path, className);
    DirnameShape(path);
    JoinBesideDirectory(Dirname(path), SplitFileName(path, className));
    if EndsWith(path, ".py") {
      SplitFileNameLonger(path, className);
    }
  }

  /** Joining a single component to a directory part: the result's components
      are that directory and that name. */
  lemma JoinBesideDirectory(d: string, f: string)
    requires '/' !in f && !StartsWith(f, "/")
    requires d != [] && d[|d| - 1] == '/' ==> AllSlashes(d)
    ensures Basename(PathJoin(d, f)) == f && Dirname(PathJoin(d, f)) == d
  {
    if d == [] {
      BasenameOfName(f);
    } else if EndsWith(d, "/") {
      DirnameAllSlashes(d, f);
    } else {
      BasenameAfterSlash(d, f);
      DirnameOfSlashed(d);
    }
  }

  /** The split file's name is longer than the name of a ".py" source file. */
  lemma SplitFileNameLonger(path: string, className: string)
    requires EndsWith(path, ".py")
    ensures |SplitFileName(path, className)| > |Basename(path)|
  {
    var b := Basename(path);
    assert EndsWith(b, ".py") by {
      var k := LastIndexOf(path, '/');
      assert path[|path| - 3..] == ".py";
      assert path[|path| - 3] == '.' && path[|path| - 2] == 'p' && path[|path| - 1] == 'y';
      assert k < |path| - 3;
      assert b == path[k + 1..];
      assert b[|b| - 3..] == path[|path| - 3..];
    }
    SplitExtOfPy(b);
  }

  /** A directory part that ends in '/' consists of slashes only. */
  lemma DirnameShape(p: string)
    ensures Dirname(p) != [] && Dirname(p)[|Dirname(p)| - 1] == '/' ==> AllSlashes(Dirname(p))
  {
  }

  /** Joining a name to an all-slashes directory: the directory is kept. */
  lemma DirnameAllSlashes(d: string, f: string)
    requires d != [] && EndsWith(d, "/") && '/' !in f
    requires d[|d| - 1] == '/' ==> AllSlashes(d)
    ensures Basename(d + f) == f && Dirname(d + f) == d
  {
    var p := d + f;
    var k := LastIndexOf(p, '/');
    assert p[|d| - 1] == '/';
    forall i | |d| <= i < |p| ensures p[i] != '/' {
      assert p[i] == f[i - |d|] && f[i - |d|] in f;
    }
    assert k == |d| - 1;
    assert p[k + 1..] == f;
    assert p[..k + 1] == d;
  }

  /** The directory of `d + "/"`, for `d` not ending in '/', is `d`. */
  lemma DirnameOfSlashed(d: string)
    requires d != [] && !EndsWith(d, "/")
    ensures Dirname(d + "/") == d
  {
    var p := d + "/";
    assert LastIndexOf(p, '/') == |d|;
    assert p[..|d| + 1] == p;
    assert p[|d| - 1] == d[|d| - 1];
    assert !AllSlashes(p);
    assert StripTrailingSlashes(p) == StripTrailingSlashes(p[..|p| - 1]);
    assert p[..|p| - 1] == d;
  }

  /** A name ending in ".py" has extension ".py", or none when only dots
      precede it; either way at most three characters are cut off. */
  lemma SplitExtOfPy(b: string)
    requires '/' !in b && EndsWith(b, ".py")
    ensures |SplitExt(b).0| + 3 >= |b|
  {
    var dot := LastIndexOf(b, '.');
    assert b[|b| - 3] == '.';
    assert b[|b| - 2] == 'p' && b[|b| - 1] == 'y';
    assert dot == |b| - 3;
  }

  /** A name made of a stem that is not all dots (`app.component`) and an
      extension (`.ts`), after any directory part: `splitext` cuts exactly that
      extension off. */
  lemma {:induction false} SplitExtOfStem(d: string, stem: string, ext: string)
    requires '/' !in stem && exists k :: 0 <= k < |stem| && stem[k] != '.'
    requires ext != [] && ext[0] == '.' && '/' !in ext && '.' !in ext[1..]
    ensures SplitExt(d + stem + ext) == (d + stem, ext)
  {
    var p := d + stem + ext;
    var dot := |d| + |stem|;
    assert p[dot] == '.';
    forall i | dot < i < |p| ensures p[i] != '.' && p[i] != '/' {
      assert p[i] == ext[i - dot];
      assert ext[i - dot] in ext;
      assert ext[i - dot] == ext[1..][i - dot - 1];
      assert ext[i - dot] in ext[1..];
    }
    forall i | |d| <= i < dot ensures p[i] != '/' {
      assert p[i] == stem[i - |d|];
      assert stem[i - |d|] in stem;
    }
    assert LastIndexOf(p, '.') == dot;
    assert LastIndexOf(p, '/') < |d|;
    var k :| 0 <= k < |stem| && stem[k] != '.';
    assert p[|d| + k] == stem[k];
    assert p[..dot] == d + stem;
    assert p[dot..] == ext;
  }
}
