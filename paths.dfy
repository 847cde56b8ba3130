/**
 POSIX path handling as the two scripts get it from `os.path`, and the file
 selection that `glob.glob(os.path.join(dir, '*' + ext))` performs on a
 directory listing.
 */
module Paths {
  import opened Strings

  /** `os.path.join(a, b)` on POSIX */
  function Join(a: string, b: string): string {
    if StartsWith(b, "/") then b
    else if a == [] || EndsWith(a, "/") then a + b
    else a + "/" + b
  }

  /**
   Joining onto a directory never changes a second part that does not start
   with "/", so a directory joined with two different names gives two
   different paths.
   */
  lemma JoinInjective(dir: string, a: string, b: string)
    requires !StartsWith(a, "/") && !StartsWith(b, "/")
    requires Join(dir, a) == Join(dir, b)
    ensures a == b
  {
    var pre := if dir == [] || EndsWith(dir, "/") then dir else dir + "/";
    assert Join(dir, a) == pre + a && Join(dir, b) == pre + b;
    assert a == (pre + a)[|pre|..];
    assert b == (pre + b)[|pre|..];
  }

  /** Joining a non-empty relative name onto a directory gives a longer path than the directory. */
  lemma JoinExtends(dir: string, name: string)
    requires name != [] && !StartsWith(name, "/")
    ensures |Join(dir, name)| > |dir|
  {
  }

  /**
   `os.path.splitext(p)` on POSIX: the extension runs from the last "." of the
   last path component to the end, unless that component holds nothing but
   dots before it (".bashrc", "..jpg" have no extension).
   */
  function SplitExt(p: string): (string, string) {
    var sep := LastIndex(p, '/');
    var dot := LastIndex(p, '.');
    if sep < dot && NonDotBetween(p, sep, dot) then (p[..dot], p[dot..]) else (p, [])
  }

  /**
   `splitext` only cuts: root and extension put back together give the path,
   and the extension is empty or a "." followed by neither "." nor "/".
   */
  lemma SplitExtParts(p: string)
    ensures SplitExt(p).0 + SplitExt(p).1 == p
    ensures Extension(p) == [] || Extension(p)[0] == '.'
    ensures forall k :: 0 < k < |Extension(p)| ==> Extension(p)[k] != '.' && Extension(p)[k] != '/'
  {
    var dot := LastIndex(p, '.');
    if SplitExt(p).1 != [] {
      assert p[..dot] + p[dot..] == p;
    }
  }

  /** Some character strictly between positions `lo` and `hi` of `p` is not a ".". */
  predicate NonDotBetween(p: string, lo: int, hi: int) {
    exists k :: lo < k < hi && 0 <= k < |p| && p[k] != '.'
  }

  /** `os.path.splitext(p)[1]` */
  function Extension(p: string): string {
    SplitExt(p).1
  }

  /**
   The extension of a path only looks past the last "/": a name without "/"
   keeps its extension when a directory prefix is put in front of it.
   */
  lemma ExtensionAfterDirectory(pre: string, name: string)
    requires pre == [] || pre[|pre| - 1] == '/'
    requires forall k :: 0 <= k < |name| ==> name[k] != '/'
    ensures Extension(pre + name) == Extension(name)
  {
    var p := pre + name;
    assert LastIndex(name, '/') == -1;
    LastIndexIs(p, '/', |pre| - 1);
    if LastIndex(name, '.') >= 0 {
      DottedAfterDirectory(pre, name);
    } else {
      assert LastIndex(p, '.') <= |pre| - 1;
    }
  }

  /** `ExtensionAfterDirectory` when the name holds a ".". */
  lemma DottedAfterDirectory(pre: string, name: string)
    requires pre == [] || pre[|pre| - 1] == '/'
    requires LastIndex(name, '/') == -1 && LastIndex(name, '.') >= 0
    requires LastIndex(pre + name, '/') == |pre| - 1
    ensures Extension(pre + name) == Extension(name)
  {
    var dotN := LastIndex(name, '.');
    LastDotShift(pre, name, dotN);
    ExtensionAt(pre + name, |pre| - 1, |pre| + dotN);
    ExtensionAt(name, -1, dotN);
    NonDotShift(pre, name, dotN);
    SuffixShift(pre, name, dotN);
  }

  lemma {:induction false} LastDotShift(pre: string, name: string, dot: int)
    requires 0 <= dot < |name| && LastIndex(name, '.') == dot
    ensures LastIndex(pre + name, '.') == |pre| + dot
    decreases |name|
  {
    var n := |name| - 1;
    if name[n] != '.' {
      assert (pre + name)[..|pre| + n] == pre + name[..n];
      LastDotShift(pre, name[..n], dot);
    }
  }

  lemma SuffixShift(pre: string, name: string, i: nat)
    requires i <= |name|
    ensures (pre + name)[|pre| + i..] == name[i..]
  {
  }

  /** The extension of `p` from the positions of its last "/" and its last "." */
  lemma ExtensionAt(p: string, sep: int, dot: int)
    requires LastIndex(p, '/') == sep && LastIndex(p, '.') == dot
    ensures Extension(p) == if sep < dot && NonDotBetween(p, sep, dot) then p[dot..] else []
  {
  }

  /** Putting `pre` in front of `name` moves its characters by `|pre|`. */
  lemma NonDotShift(pre: string, name: string, dot: int)
    requires 0 <= dot < |name|
    ensures NonDotBetween(name, -1, dot) == NonDotBetween(pre + name, |pre| - 1, |pre| + dot)
  {
    var p := pre + name;
    if NonDotBetween(name, -1, dot) {
      var k :| -1 < k < dot && 0 <= k < |name| && name[k] != '.';
      assert p[|pre| + k] == name[k];
    }
    if NonDotBetween(p, |pre| - 1, |pre| + dot) {
      var k :| |pre| - 1 < k < |pre| + dot && 0 <= k < |p| && p[k] != '.';
      assert name[k - |pre|] == p[k];
    }
  }

  /** The listed name alone decides the extension of the path `glob` hands back. */
  lemma ExtensionOfJoin(dir: string, name: string)
    requires forall k :: 0 <= k < |name| ==> name[k] != '/'
    ensures Extension(Join(dir, name)) == Extension(name)
  {
    assert !StartsWith(name, "/") by {
      if |name| > 0 {
        assert name[..1][0] == name[0];
      }
    }
    if dir == [] || EndsWith(dir, "/") {
      if dir != [] {
        assert dir[|dir| - 1] == dir[|dir| - 1..][0];
      }
      ExtensionAfterDirectory(dir, name);
    } else {
      assert Join(dir, name) == (dir + "/") + name;
      ExtensionAfterDirectory(dir + "/", name);
    }
  }

  /**
   A name that does not start with "." and ends with a single-dot extension
   such as ".jpg" has exactly that extension.
   */
  lemma ExtensionOfSingleDotName(name: string, ext: string)
    requires forall k :: 0 <= k < |name| ==> name[k] != '/'
    requires name != [] && name[0] != '.'
    requires ext != [] && ext[0] == '.'
    requires forall k :: 0 < k < |ext| ==> ext[k] != '.'
    requires EndsWith(name, ext)
    ensures Extension(name) == ext
  {
    var dot := |name| - |ext|;
    assert name[dot..] == ext;
    assert forall k :: dot < k < |name| ==> name[k] == ext[k - dot];
    LastIndexIs(name, '.', dot);
    assert LastIndex(name, '/') == -1;
    assert dot > 0;
    assert name[0] != '.';
  }

  /**
   The files `glob.glob(os.path.join(dir, '*' + suffix))` returns, as base
   names: the listed names that end with `suffix`, in listing order.
   */
  function SelectBySuffix(listing: seq<string>, suffix: string): (r: seq<string>)
    ensures |r| <= |listing|
    ensures forall name :: name in r <==> name in listing && EndsWith(name, suffix)
    decreases |listing|
  {
    if listing == [] then []
    else
      var rest := SelectBySuffix(listing[1..], suffix);
      assert listing == [listing[0]] + listing[1..];
      if EndsWith(listing[0], suffix) then [listing[0]] + rest else rest
  }

  /**
   Selection keeps order: selecting from two listings one after the other is
   selecting from their concatenation.
   */
  lemma {:induction false} SelectAppend(a: seq<string>, b: seq<string>, suffix: string)
    ensures SelectBySuffix(a + b, suffix) == SelectBySuffix(a, suffix) + SelectBySuffix(b, suffix)
    decreases |a|
  {
    if a != [] {
      assert (a + b)[1..] == a[1..] + b;
      SelectAppend(a[1..], b, suffix);
    } else {
      assert a + b == b;
    }
  }

  /** No element of `s` occurs twice. */
  predicate NoRepeats<T(==)>(s: seq<T>) {
    forall i, j :: 0 <= i < j < |s| ==> s[i] != s[j]
  }

  /** A listing without repeated names selects each name at most once. */
  lemma {:induction false} SelectDistinct(listing: seq<string>, suffix: string)
    requires NoRepeats(listing)
    ensures NoRepeats(SelectBySuffix(listing, suffix))
    decreases |listing|
  {
    if listing != [] {
      var rest := SelectBySuffix(listing[1..], suffix);
      SelectDistinct(listing[1..], suffix);
      assert listing[0] !in listing[1..];
      if EndsWith(listing[0], suffix) {
        var r := [listing[0]] + rest;
        forall i, j | 0 <= i < j < |r| ensures r[i] != r[j] {
          assert r[j] == rest[j - 1] && rest[j - 1] in rest;
          if i > 0 {
            assert r[i] == rest[i - 1];
            assert 0 <= i - 1 < j - 1 < |rest|;
          } else {
            assert rest[j - 1] in listing[1..];
          }
        }
        assert SelectBySuffix(listing, suffix) == r;
      }
    }
  }
}
