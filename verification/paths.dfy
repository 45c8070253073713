/**
 Naming of the output file (gio-gl-converter.py, lines 36-37): the input's
 basename with ".tif" appended, joined onto the output directory. Paths are
 POSIX paths: '/' is the only separator.
 */
module Paths {

  const Separator: char := '/'
  const TifSuffix: string := ".tif"

  /** Index just past the last separator of `p`, or 0 when there is none: where the
      final path component starts. */
  function ComponentStart(p: string): (i: nat)
    ensures i <= |p|
    ensures forall k :: i <= k < |p| ==> p[k] != Separator
    ensures i > 0 ==> p[i - 1] == Separator
  {
    if |p| == 0 then 0
    else if p[|p| - 1] == Separator then |p|
    else ComponentStart(p[..|p| - 1])
  }

  /** `b` is the final component of `p`: a separator-free suffix of `p` that is
      either all of `p` or preceded by a separator. */
  predicate FinalComponent(p: string, b: string) {
    && Separator !in b
    && |b| <= |p| && p[|p| - |b|..] == b
    && (|b| < |p| ==> p[|p| - |b| - 1] == Separator)
  }

  /** `os.path.basename`: the text after the last separator. */
  function Basename(p: string): (b: string)
    ensures FinalComponent(p, b)
  {
    p[ComponentStart(p)..]
  }

  /** A path has only one final component, and `Basename` finds it. */
  lemma FinalComponentUnique(p: string, b: string)
    requires FinalComponent(p, b)
    ensures b == Basename(p)
  {
  }

  /** The part `Basename` drops: everything up to and including the last separator. */
  function Head(p: string): (h: string)
    ensures h == "" || h[|h| - 1] == Separator
  {
    p[..ComponentStart(p)]
  }

  /** Splitting at the last separator loses nothing. */
  lemma HeadBasename(p: string)
    ensures Head(p) + Basename(p) == p
  {
  }

  /** A prefix that is empty or ends in a separator, followed by a separator-free
      name, splits back into exactly that prefix and that name. */
  lemma SplitAfterSeparator(prefix: string, name: string)
    requires prefix == "" || prefix[|prefix| - 1] == Separator
    requires Separator !in name
    ensures Head(prefix + name) == prefix
    ensures Basename(prefix + name) == name
  {
    var p := prefix + name;
    assert ComponentStart(p) == |prefix|;
    assert p[..|prefix|] == prefix;
    assert p[|prefix|..] == name;
  }

  /** `os.path.join(dir, name)` on POSIX: an absolute name replaces the directory;
      otherwise a separator is inserted unless the directory is empty or already
      ends in one. A non-empty separator-free name thus lands directly inside the
      directory: splitting the joined path at its last separator gives back the
      directory's prefix and the name. */
  function Join(dir: string, name: string): (r: string)
    ensures |name| > 0 && name[0] == Separator ==> r == name
    ensures (|name| == 0 || name[0] != Separator) ==> r == DirPrefix(dir) + name
    ensures |name| > 0 && Separator !in name ==> Head(r) == DirPrefix(dir) && Basename(r) == name
  {
    var r := if |name| > 0 && name[0] == Separator then name
             else if dir == "" || dir[|dir| - 1] == Separator then dir + name
             else dir + [Separator] + name;
    assert |name| > 0 && Separator !in name ==> Head(r) == DirPrefix(dir) && Basename(r) == name by {
      if |name| > 0 && Separator !in name {
        SplitAfterSeparator(DirPrefix(dir), name);
      }
    }
    r
  }

  /** The directory as it appears in front of a relative name after a join: the
      directory itself when it is empty or ends in a separator, and otherwise the
      directory with one separator added. */
  function DirPrefix(dir: string): (d: string)
    ensures d == "" || d[|d| - 1] == Separator
    ensures d == dir || d == dir + [Separator]
    ensures d == dir <==> (dir == "" || dir[|dir| - 1] == Separator)
  {
    if dir == "" || dir[|dir| - 1] == Separator then dir else dir + [Separator]
  }

  /** The output file name: the input's basename, original extension kept, with
      ".tif" after it. */
  function OutputName(filePath: string): (n: string)
    ensures Separator !in n
    ensures |n| >= |TifSuffix| && n[|n| - |TifSuffix|..] == TifSuffix
    ensures FinalComponent(filePath, n[..|n| - |TifSuffix|])
  {
    var b := Basename(filePath);
    assert (b + TifSuffix)[..|b|] == b;
    b + TifSuffix
  }

  /** The output path lies directly inside the output directory, and its final
      component is the output name. */
  function OutputPath(outputDir: string, filePath: string): (r: string)
    ensures r == DirPrefix(outputDir) + OutputName(filePath)
    ensures Head(r) == DirPrefix(outputDir)
    ensures Basename(r) == OutputName(filePath)
  {
    Join(outputDir, OutputName(filePath))
  }

  /** An input in a nested directory keeps its extension and moves to the output directory. */
  lemma OutputPathExample()
    ensures OutputPath("out", "/data/in/a.h5") == "out/a.h5.tif"
  {
    var name := OutputName("/data/in/a.h5");
    assert "/data/in/a.h5"[..9] + "a.h5" == "/data/in/a.h5";
    SplitAfterSeparator("/data/in/", "a.h5");
    assert name == "a.h5.tif";
  }
}
