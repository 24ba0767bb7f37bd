/** The parts of Python's `posixpath` the catalog builder relies on:
    `basename`, `dirname`, `join` (two arguments) and `splitext`. */
module Paths {

  /** `s.rfind(c)`: the last index of c in s, or -1 */
  function RFind(s: string, c: char): (r: int)
    ensures -1 <= r < |s|
    ensures r >= 0 ==> s[r] == c
    ensures forall j :: r < j < |s| ==> s[j] != c
    decreases |s|
  {
    if |s| == 0 then -1
    else if s[|s| - 1] == c then |s| - 1
    else RFind(s[..|s| - 1], c)
  }

  /** `os.path.basename`: the text after the last '/' */
  function Basename(p: string): (r: string)
    ensures '/' !in r
    ensures |r| <= |p| && r == p[|p| - |r|..]
  {
    p[RFind(p, '/') + 1..]
  }

  /** Drops trailing '/' characters */
  function RStripSlashes(h: string): (r: string)
    ensures |r| <= |h| && r == h[..|r|]
    ensures |r| == 0 || r[|r| - 1] != '/'
    ensures forall j :: |r| <= j < |h| ==> h[j] == '/'
    decreases |h|
  {
    if |h| > 0 && h[|h| - 1] == '/' then RStripSlashes(h[..|h| - 1]) else h
  }

  predicate AllSlashes(h: string) {
    forall j :: 0 <= j < |h| ==> h[j] == '/'
  }

  /** `os.path.dirname`: the text up to the last '/', without its trailing
      slashes unless it consists of slashes only */
  function Dirname(p: string): string {
    var head := p[..RFind(p, '/') + 1];
    if head != "" && !AllSlashes(head) then RStripSlashes(head) else head
  }

  /** `os.path.join(a, b)` */
  function PathJoin(a: string, b: string): string {
    if |b| > 0 && b[0] == '/' then b
    else if a == "" || a[|a| - 1] == '/' then a + b
    else a + "/" + b
  }

  /** A directory that `os.walk` reports below `parent` has `parent` as its
      dirname and the entry's own name as its basename. */
  lemma ChildPath(parent: string, child: string)
    requires parent != "" && parent[|parent| - 1] != '/'
    requires child != "" && '/' !in child
    ensures PathJoin(parent, child) == parent + "/" + child
    ensures Dirname(PathJoin(parent, child)) == parent
    ensures Basename(PathJoin(parent, child)) == child
  {
    var p := parent + "/" + child;
    assert p[|parent|] == '/';
    forall j | |parent| < j < |p|
      ensures p[j] != '/'
    {
      assert p[j] == child[j - |parent| - 1];
    }
    var i := RFind(p, '/');
    assert i == |parent|;
    var head := p[..i + 1];
    assert head == parent + "/";
    assert head[|parent| - 1] != '/';
    var r := RStripSlashes(head);
    assert |r| >= |parent|;
    assert |r| == |parent|;
    assert p[i + 1..] == child;
  }

  /** `os.path.splitext`: the extension starts at the last '.', unless that
      dot is preceded only by dots in the final path component. */
  function SplitExt(p: string): (r: (string, string))
    ensures r.0 + r.1 == p
    ensures r.1 == "" || (r.1[0] == '.' && '.' !in r.1[1..] && '/' !in r.1)
  {
    var sep := RFind(p, '/');
    var dot := RFind(p, '.');
    if dot > sep && exists k :: sep + 1 <= k < dot && p[k] != '.' then (p[..dot], p[dot..])
    else (p, "")
  }

  /** `os.path.splitext(name)[0]` */
  function Stem(name: string): string {
    SplitExt(name).0
  }

  /** `os.path.splitext(name)[-1]`, with its leading dot */
  function Ext(name: string): string {
    SplitExt(name).1
  }

  /** A file name with a non-dot character before its last dot splits there. */
  lemma SplitExtAtLastDot(stem: string, e: string)
    requires '/' !in stem && '/' !in e && '.' !in e
    requires exists k :: 0 <= k < |stem| && stem[k] != '.'
    ensures SplitExt(stem + "." + e) == (stem, "." + e)
  {
    var p := stem + "." + e;
    assert RFind(p, '/') == -1 by {
      forall j | 0 <= j < |p| ensures p[j] != '/' {
        if j < |stem| { assert p[j] == stem[j]; } else if j > |stem| { assert p[j] == e[j - |stem| - 1]; }
      }
    }
    assert p[|stem|] == '.';
    forall j | |stem| < j < |p|
      ensures p[j] != '.'
    {
      assert p[j] == e[j - |stem| - 1];
    }
    assert RFind(p, '.') == |stem|;
    var k :| 0 <= k < |stem| && stem[k] != '.';
    assert p[k] == stem[k];
    assert p[..|stem|] == stem;
    assert p[|stem|..] == "." + e;
  }

  /** A name made of a run of leading dots and then no other dot has no
      extension: `splitext` skips all leading dots. */
  lemma DotFileHasNoExt(dots: string, e: string)
    requires dots != "" && forall i :: 0 <= i < |dots| ==> dots[i] == '.'
    requires '/' !in e && '.' !in e
    ensures SplitExt(dots + e) == (dots + e, "")
  {
    var p := dots + e;
    forall j | 0 <= j < |p|
      ensures p[j] != '/'
      ensures j >= |dots| ==> p[j] != '.'
      ensures j < |dots| ==> p[j] == '.'
    {
      if j < |dots| { assert p[j] == dots[j]; } else { assert p[j] == e[j - |dots|]; }
    }
    assert RFind(p, '/') == -1;
    assert p[|dots| - 1] == '.';
    assert RFind(p, '.') == |dots| - 1;
  }
}
