/** The POSIX flavour of Python's `os.path` functions used to locate the
    pocket report: `str.rfind`, `os.path.basename`, `os.path.splitext` and
    `os.path.join`. */
module PyPath {
  import opened PyText

  /** The last index below `n` holding `c`, or -1: the backward scan of
      `str.rfind`. */
  function FindLast(s: string, c: char, n: nat): (r: int)
    requires n <= |s|
    ensures -1 <= r < n
  {
    if n == 0 then -1
    else if s[n - 1] == c then n - 1
    else FindLast(s, c, n - 1)
  }

  /** `s.rfind(c)` for a single character: the last index holding `c`, or -1. */
  function LastIndexOf(s: string, c: char): (r: int)
    ensures -1 <= r < |s|
  {
    FindLast(s, c, |s|)
  }

  /** The index the scan finds holds `c`, and no index after it below `n` does. */
  lemma {:induction false} FindLastShape(s: string, c: char, n: nat)
    requires n <= |s|
    ensures FindLast(s, c, n) >= 0 ==> s[FindLast(s, c, n)] == c
    ensures forall k :: FindLast(s, c, n) < k < n ==> s[k] != c
  {
    if n > 0 && s[n - 1] != c {
      FindLastShape(s, c, n - 1);
    }
  }

  /** The index found holds `c`, and no later index does. */
  lemma LastIndexOfShape(s: string, c: char)
    ensures LastIndexOf(s, c) >= 0 ==> s[LastIndexOf(s, c)] == c
    ensures forall k :: LastIndexOf(s, c) < k < |s| ==> s[k] != c
  {
    FindLastShape(s, c, |s|);
  }

  /** An index holding `c` with no `c` after it, or -1 when there is no `c`
      at all, is the one `rfind` returns. */
  lemma LastIndexOfUnique(s: string, c: char, r: int)
    requires -1 <= r < |s|
    requires r >= 0 ==> s[r] == c
    requires forall k :: r < k < |s| ==> s[k] != c
    ensures LastIndexOf(s, c) == r
  {
    LastIndexOfShape(s, c);
  }

  /** No character of `s` is a slash. */
  predicate NoSlash(s: string) {
    forall k :: 0 <= k < |s| ==> s[k] != '/'
  }

  /** `os.path.basename(p)`: the part of `p` after its last slash. */
  function Basename(p: string): string {
    p[LastIndexOf(p, '/') + 1..]
  }

  /** The base name is the longest suffix of `p` without a slash. */
  lemma BasenameShape(p: string)
    ensures |Basename(p)| <= |p| && Basename(p) == p[|p| - |Basename(p)|..]
    ensures NoSlash(Basename(p))
    ensures |Basename(p)| < |p| ==> p[|p| - |Basename(p)| - 1] == '/'
  {
    BasenameSuffix(p);
    BasenameNoSlash(p);
  }

  /** The base name is a suffix of `p`, just after a slash when shorter. */
  lemma BasenameSuffix(p: string)
    ensures |Basename(p)| <= |p| && Basename(p) == p[|p| - |Basename(p)|..]
    ensures |Basename(p)| < |p| ==> p[|p| - |Basename(p)| - 1] == '/'
  {
    var r := LastIndexOf(p, '/');
    LastIndexOfShape(p, '/');
    assert |p| - |Basename(p)| == r + 1;
  }

  /** The base name holds no slash. */
  lemma BasenameNoSlash(p: string)
    ensures NoSlash(Basename(p))
  {
    var r := LastIndexOf(p, '/');
    var b := Basename(p);
    LastIndexOfShape(p, '/');
    assert b == p[r + 1..];
    forall k | 0 <= k < |b| ensures b[k] != '/' {
      assert b[k] == p[r + 1 + k] && r < r + 1 + k < |p|;
    }
  }

  /** Two slash-free strings make a slash-free string. */
  lemma NoSlashAppend(x: string, y: string)
    requires NoSlash(x) && NoSlash(y)
    ensures NoSlash(x + y)
  {
  }

  /** A path without a slash is its own base name. */
  lemma BasenameWithoutSlash(p: string)
    requires NoSlash(p)
    ensures Basename(p) == p
  {
    LastIndexOfShape(p, '/');
  }

  /** The scan `splitext` makes over the final component: is some character
      in `p[i..hi]` not a dot? */
  function HasNonDot(p: string, i: nat, hi: nat): bool
    requires i <= hi <= |p|
    decreases hi - i
  {
    i < hi && (p[i] != '.' || HasNonDot(p, i + 1, hi))
  }

  /** The scan finds a non-dot exactly when there is one. */
  lemma {:induction false} HasNonDotIsSearch(p: string, i: nat, hi: nat)
    requires i <= hi <= |p|
    ensures HasNonDot(p, i, hi) <==> exists k :: i <= k < hi && p[k] != '.'
    decreases hi - i
  {
    if i < hi {
      HasNonDotIsSearch(p, i + 1, hi);
    }
  }

  /** `os.path.splitext(p)`: splits off the extension, which runs from the last
      dot of the final path component, unless everything before that dot in
      the component is dots (so ".bashrc" and "..x" have no extension). */
  function Splitext(p: string): (string, string) {
    var sepIndex := LastIndexOf(p, '/');
    var dotIndex := LastIndexOf(p, '.');
    if dotIndex > sepIndex && HasNonDot(p, sepIndex + 1, dotIndex) then
      (p[..dotIndex], p[dotIndex..])
    else
      (p, [])
  }

  /** The two parts of `splitext` concatenate back to the path. The extension
      is empty, or a dot followed by neither dots nor slashes; it is not empty
      exactly when the final component has a dot preceded, within the
      component, by a character other than a dot. */
  lemma SplitextShape(p: string)
    ensures Splitext(p).0 + Splitext(p).1 == p
    ensures var ext := Splitext(p).1;
      ext != [] ==> ext[0] == '.' && forall k :: 1 <= k < |ext| ==> ext[k] != '.' && ext[k] != '/'
    ensures Splitext(p).1 != [] <==>
      exists i, j :: LastIndexOf(p, '/') < i < j < |p| && p[i] != '.' && p[j] == '.'
  {
    var sepIndex := LastIndexOf(p, '/');
    var dotIndex := LastIndexOf(p, '.');
    var ext := Splitext(p).1;
    LastIndexOfShape(p, '/');
    LastIndexOfShape(p, '.');
    if dotIndex > sepIndex {
      HasNonDotIsSearch(p, sepIndex + 1, dotIndex);
    }
    if ext != [] {
      assert ext == p[dotIndex..];
      forall k | 1 <= k < |ext| ensures ext[k] != '.' && ext[k] != '/' {
        assert ext[k] == p[dotIndex + k];
      }
    } else if i, j :| sepIndex < i < j < |p| && p[i] != '.' && p[j] == '.' {
      assert false;
    }
  }

  /** `os.path.join(a, b)` on POSIX: an absolute `b` replaces `a`; otherwise
      `b` is appended, with a slash in between unless `a` is empty or already
      ends in one. */
  function Join(a: string, b: string): string {
    if StartsWith(b, "/") then b
    else if a == [] || a[|a| - 1] == '/' then a + b
    else a + "/" + b
  }

  /** Joining keeps `b` at the end and, when `b` is relative, `a` at the
      start. */
  lemma JoinShape(a: string, b: string)
    ensures StartsWith(b, "/") ==> Join(a, b) == b
    ensures !StartsWith(b, "/") ==> StartsWith(Join(a, b), a)
    ensures |b| <= |Join(a, b)| && Join(a, b)[|Join(a, b)| - |b|..] == b
  {
  }

  /** The joined path has `b`'s base name. */
  lemma JoinBasename(a: string, b: string)
    ensures Basename(Join(a, b)) == Basename(b)
  {
    if !StartsWith(b, "/") {
      var d := JoinPrefix(a, b);
      BasenameAfterSlash(d, b);
    }
  }

  /** What `os.path.join` puts before a relative `b`: `a`, with a slash added
      unless `a` is empty or already ends in one. */
  lemma JoinPrefix(a: string, b: string) returns (d: string)
    requires !StartsWith(b, "/")
    ensures Join(a, b) == d + b
    ensures d == [] || d[|d| - 1] == '/'
    ensures |a| <= |d| && d[..|a|] == a
  {
    if a == [] || a[|a| - 1] == '/' {
      d := a;
    } else {
      d := a + "/";
    }
  }

  /** The last occurrence of `c` in `x + y` is in `y` if `y` holds one. */
  lemma LastIndexOfAppend(x: string, y: string, c: char)
    ensures LastIndexOf(x + y, c) ==
      if LastIndexOf(y, c) >= 0 then |x| + LastIndexOf(y, c) else LastIndexOf(x, c)
  {
    var ry := LastIndexOf(y, c);
    var rx := LastIndexOf(x, c);
    LastIndexOfShape(x, c);
    LastIndexOfShape(y, c);
    if ry >= 0 {
      assert (x + y)[|x| + ry] == c;
      assert forall k :: |x| + ry < k < |x + y| ==> (x + y)[k] == y[k - |x|];
      LastIndexOfUnique(x + y, c, |x| + ry);
    } else {
      assert forall k :: |x| <= k < |x + y| ==> (x + y)[k] == y[k - |x|];
      assert rx >= 0 ==> (x + y)[rx] == c;
      assert forall k :: rx < k < |x| ==> (x + y)[k] == x[k];
      LastIndexOfUnique(x + y, c, rx);
    }
  }

  /** Whatever precedes a slash does not affect the base name. */
  lemma BasenameAfterSlash(x: string, y: string)
    requires x == [] || x[|x| - 1] == '/'
    ensures Basename(x + y) == Basename(y)
  {
    LastIndexOfAppend(x, y, '/');
    if LastIndexOf(y, '/') >= 0 {
      BasenameInSuffix(x, y);
    } else {
      assert x != [] ==> LastIndexOf(x, '/') == |x| - 1;
      BasenameIsSuffix(x, y);
    }
  }

  /** When `y` holds a slash, the base name of `x + y` is `y`'s. */
  lemma BasenameInSuffix(x: string, y: string)
    requires LastIndexOf(y, '/') >= 0
    requires LastIndexOf(x + y, '/') == |x| + LastIndexOf(y, '/')
    ensures Basename(x + y) == Basename(y)
  {
  }

  /** When the last slash of `x + y` ends `x`, the base name is `y`. */
  lemma BasenameIsSuffix(x: string, y: string)
    requires LastIndexOf(y, '/') < 0
    requires LastIndexOf(x + y, '/') == |x| - 1
    ensures Basename(x + y) == Basename(y)
  {
  }
}
