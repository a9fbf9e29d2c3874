/** The two `os.path` operations of POSIX Python that the pipeline uses:
    `os.path.join(a, b)` and the extension half of `os.path.splitext(p)`. */
module Paths {
  import opened Text

  /** `os.path.join(a, b)`: an absolute `b` replaces `a`; otherwise a `/` is
      inserted unless `a` is empty or already ends with one. */
  function PathJoin(a: string, b: string): string
  {
    if b != [] && b[0] == '/' then b
    else if a == [] || a[|a| - 1] == '/' then a + b
    else a + "/" + b
  }

  /** The last component of a joined path is the name that was joined. */
  lemma BaseNameOfJoin(a: string, b: string)
    requires '/' !in b
    ensures LastComponent(PathJoin(a, b), '/') == b
  {
    if a == [] {
      assert PathJoin(a, b) == b;
      LastComponentOfPlain(b, '/');
    } else if a[|a| - 1] == '/' {
      assert PathJoin(a, b) == a[..|a| - 1] + ['/'] + b;
      LastComponentAfter(a[..|a| - 1], b, '/');
    } else {
      assert PathJoin(a, b) == a + ['/'] + b;
      LastComponentAfter(a, b, '/');
    }
  }

  /** `s.rfind(c)`: the index of the last occurrence of `c`, or -1. */
  function LastIndexOf(s: string, c: char): (i: int)
    ensures -1 <= i < |s|
    ensures i >= 0 ==> s[i] == c
    ensures forall k :: i < k < |s| ==> s[k] != c
  {
    if s == [] then -1
    else if s[|s| - 1] == c then |s| - 1
    else LastIndexOf(s[..|s| - 1], c)
  }

  /** `os.path.splitext(p)[1]`: from the last `.` of the last path component
      to the end, provided that component has a character other than `.`
      before that dot; otherwise the empty string (so `".png"` and `"a."`
      have extensions `""` and `"."`). */
  function SplitExt(p: string): (ext: string)
    ensures ext == [] || (ext[0] == '.' && EndsWith(p, ext) && '.' !in ext[1..] && '/' !in ext)
  {
    var sepIndex := LastIndexOf(p, '/');
    var dotIndex := LastIndexOf(p, '.');
    if dotIndex > sepIndex && exists k | sepIndex + 1 <= k < dotIndex :: p[k] != '.' then
      assert forall k :: dotIndex < k < |p| ==> p[k] != '.' && p[k] != '/';
      assert forall k :: 0 < k < |p[dotIndex..]| ==> p[dotIndex..][k] == p[dotIndex + k];
      p[dotIndex..]
    else []
  }

  /** A file name made of a stem that does not start with `.` and a dotted
      suffix without further dots has that suffix as its extension, inside
      any folder. */
  lemma SplitExtOfSuffix(dir: string, stem: string, ext: string)
    requires dir == [] || dir[|dir| - 1] == '/'
    requires stem != [] && stem[0] != '.' && '/' !in stem
    requires ext != [] && ext[0] == '.' && '.' !in ext[1..] && '/' !in ext
    ensures SplitExt(dir + stem + ext) == ext
  {
    var p := dir + stem + ext;
    var dot := |dir| + |stem|;
    assert forall k :: dot < k < |p| ==> p[k] == ext[1..][k - dot - 1];
    assert p[dot] == '.';
    assert LastIndexOf(p, '.') == dot;
    assert forall k :: |dir| <= k < |p| ==> p[k] != '/' by {
      forall k | |dir| <= k < |p| ensures p[k] != '/' {
        if k < dot { assert p[k] == stem[k - |dir|]; } else { assert p[k] == ext[k - dot]; }
      }
    }
    assert dir != [] ==> p[|dir| - 1] == '/';
    assert LastIndexOf(p, '/') == |dir| - 1;
    assert p[|dir|] == stem[0] != '.';
    assert p[dot..] == ext;
  }
}
