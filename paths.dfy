/** Path strings as `FileUtility` treats them: the absolute-path test, the
    resolution of a path against the base directory, and the `dirname` and
    `basename` that `write`, `copy`, `move` and `rename` use. */
module Paths {
  import opened Strings

  /** `isAbsolutePath`: a leading '/' (Unix), or a ':' as second character
      (a Windows drive such as "C:"). */
  predicate IsAbsolutePath(p: string) {
    (|p| >= 1 && p[0] == '/') || (|p| >= 2 && p[1] == ':')
  }

  /** `resolvePath`: an absolute path as it is; otherwise the base without its
      trailing separators, one separator, and the path without its leading
      separators. */
  function ResolvePath(base: string, p: string): string {
    if IsAbsolutePath(p) then p else RTrim(base) + [Sep] + LTrim(p)
  }

  /** The test accepts exactly the two forms and nothing else: not the empty
      string, not a bare name, and any character at all before the colon. */
  lemma IsAbsolutePathCases()
    ensures !IsAbsolutePath("")
    ensures IsAbsolutePath("/") && IsAbsolutePath("/tmp/x")
    ensures IsAbsolutePath("C:\\data") && IsAbsolutePath("C:") && IsAbsolutePath("1:x")
    ensures !IsAbsolutePath("C") && !IsAbsolutePath("data/x") && !IsAbsolutePath("./x")
    ensures !IsAbsolutePath("\\\\server\\share")
  {
  }

  /** A path is left unchanged by resolution exactly when it is absolute. */
  lemma {:induction false} ResolveFixesExactlyAbsolute(base: string, p: string)
    ensures ResolvePath(base, p) == p <==> IsAbsolutePath(p)
  {
    if !IsAbsolutePath(p) {
      assert |ResolvePath(base, p)| > |LTrim(p)|;
      ResolveRelativeShape(base, p);
    }
  }

  /** A relative path never starts with a separator, so its `ltrim` is a no-op:
      the result is the trimmed base, exactly one separator, and the path as
      given, whose first character (if any) is not a separator. */
  lemma ResolveRelativeShape(base: string, p: string)
    requires !IsAbsolutePath(p)
    ensures var t := RTrim(base);
      && ResolvePath(base, p) == t + [Sep] + p
      && (t == [] || t[|t| - 1] != Sep)
      && ResolvePath(base, p)[|t|] == Sep
      && (|p| > 0 ==> ResolvePath(base, p)[|t| + 1] != Sep)
  {
    assert p == [] || p[0] != Sep;
    assert LTrim(p) == p;
  }

  /** Trailing separators on the base make no difference. */
  lemma ResolveIgnoresTrailingSeparator(base: string, p: string)
    ensures ResolvePath(base + [Sep], p) == ResolvePath(base, p)
  {
    assert (base + [Sep])[..|base|] == base;
  }

  /** Under an absolute base every path resolves to an absolute path. */
  lemma ResolveUnderAbsoluteBase(base: string, p: string)
    requires IsAbsolutePath(base)
    ensures IsAbsolutePath(ResolvePath(base, p))
  {
    if !IsAbsolutePath(p) {
      var t := RTrim(base);
      if base[0] == '/' {
        assert t == [] || t[0] == '/';
      } else {
        assert |t| >= 2 && t[1] == ':';
      }
    }
  }

  /** Resolving again changes nothing once the result is absolute. */
  lemma ResolveIdempotent(base: string, p: string)
    requires IsAbsolutePath(ResolvePath(base, p))
    ensures ResolvePath(base, ResolvePath(base, p)) == ResolvePath(base, p)
  {
  }

  /** With a relative base (here one without a trailing separator) a
      resolved relative path is relative too, and resolving it a second time
      puts the base in front twice: "data" and "a.txt" give "data/a.txt",
      then "data/data/a.txt". */
  lemma ResolveTwiceUnderRelativeBase(base: string, p: string)
    requires base != [] && !IsAbsolutePath(base) && base[|base| - 1] != Sep
    requires !IsAbsolutePath(p)
    ensures ResolvePath(base, p) == base + [Sep] + p
    ensures !IsAbsolutePath(ResolvePath(base, p))
    ensures ResolvePath(base, ResolvePath(base, p)) == base + [Sep] + base + [Sep] + p
  {
    assert RTrim(base) == base;
    ResolveRelativeShape(base, p);
    RelativeJoinStaysRelative(base, p);
    ResolveRelativeShape(base, base + [Sep] + p);
  }

  /** A relative, non-empty folder joined with anything is relative. */
  lemma RelativeJoinStaysRelative(d: string, p: string)
    requires d != [] && !IsAbsolutePath(d)
    ensures !IsAbsolutePath(d + [Sep] + p)
  {
    var q := d + [Sep] + p;
    assert q[0] == d[0];
    if |d| >= 2 {
      assert q[1] == d[1];
    } else {
      assert q[1] == Sep;
    }
  }

  /** Index of the last separator in `p`, or -1 when there is none. */
  function LastSep(p: string): (k: int)
    ensures -1 <= k < |p|
    ensures k >= 0 ==> p[k] == Sep
    ensures forall j :: k < j < |p| ==> p[j] != Sep
  {
    if |p| == 0 then -1
    else if p[|p| - 1] == Sep then |p| - 1
    else LastSep(p[..|p| - 1])
  }

  /** `dirname`, simplified: everything before the last separator ("" when
      there is none, which also stands for the root of "/name"). */
  function Dirname(p: string): (d: string)
    ensures |d| <= |p| && d == p[..|d|]
    ensures LastSep(p) >= 0 ==> |d| < |p|
  {
    var k := LastSep(p);
    if k < 0 then [] else p[..k]
  }

  /** `basename`, simplified: everything after the last separator. */
  function Basename(p: string): (b: string)
    ensures Sep !in b
    ensures |b| <= |p| && b == p[|p| - |b|..]
  {
    p[LastSep(p) + 1..]
  }

  /** The two pieces split a path at its last separator and put back together
      give the path again; without a separator the whole path is the base name. */
  lemma DirnameBasenameSplit(p: string)
    ensures Sep in p ==> Dirname(p) + [Sep] + Basename(p) == p
    ensures Sep !in p ==> Dirname(p) == [] && Basename(p) == p
  {
    var k := LastSep(p);
    if Sep in p {
      var i :| 0 <= i < |p| && p[i] == Sep;
      assert k >= 0;
      assert p == p[..k] + [Sep] + p[k + 1..];
    } else {
      assert k < 0;
    }
  }

  /** The last separator of `d + "/" + b` is the one put there when `b` has none. */
  lemma {:induction false} LastSepOfJoin(d: string, b: string)
    requires Sep !in b
    ensures LastSep(d + [Sep] + b) == |d|
    decreases |b|
  {
    var p := d + [Sep] + b;
    if b == [] {
      assert p[|p| - 1] == Sep;
    } else {
      var front := b[..|b| - 1];
      assert b == front + [b[|b| - 1]];
      assert p[|p| - 1] == b[|b| - 1];
      assert p[..|p| - 1] == d + [Sep] + front;
      LastSepOfJoin(d, front);
    }
  }

  /** Joining a folder and a name that holds no separator gives a path whose
      `dirname` is that folder and whose `basename` is that name. */
  lemma {:induction false} JoinSplitsBack(d: string, b: string)
    requires Sep !in b
    ensures Dirname(d + [Sep] + b) == d
    ensures Basename(d + [Sep] + b) == b
  {
    LastSepOfJoin(d, b);
    var p := d + [Sep] + b;
    assert p[..|d|] == d;
    assert p[|d| + 1..] == b;
  }

  /** A name without separators under a base without a trailing separator
      resolves to the base, one separator and the name; its folder is the
      base and its last component the name. */
  lemma ResolveUnderFolder(base: string, name: string)
    requires base != [] && base[|base| - 1] != Sep
    requires !IsAbsolutePath(name) && Sep !in name
    ensures ResolvePath(base, name) == base + [Sep] + name
    ensures Dirname(ResolvePath(base, name)) == base
    ensures Basename(ResolvePath(base, name)) == name
  {
    assert RTrim(base) == base;
    ResolveRelativeShape(base, name);
    JoinSplitsBack(base, name);
  }
}
