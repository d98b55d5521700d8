/** What `_safePath` (back-filesystem/src/working-util.js:271-279) guarantees
    for a workspace directory that is an absolute path of plain segments, and
    where its string-prefix test is weaker than a directory-boundary test. */
module SafePathProofs {
  import opened Paths
  import opened Gateway

  /** Whatever the name, the result has the workspace directory as a string
      prefix: it is the joined path when that passes the test, and the
      fallback inside the workspace otherwise. */
  lemma SafePathWithinPrefix(cs: seq<string>, filename: string)
    requires AllPlain(cs)
    ensures var r := SafePath(Absolute(cs), filename);
      StartsWith(r, Absolute(cs)) &&
      (StartsWith(Join(Absolute(cs), filename), Absolute(cs)) ==> r == Join(Absolute(cs), filename)) &&
      (!StartsWith(Join(Absolute(cs), filename), Absolute(cs)) ==> r == Absolute(cs + [FallbackName]))
  {
    assert Plain(FallbackName);
    JoinChild(cs, FallbackName);
    AbsoluteBelow(cs, [FallbackName]);
  }

  /** A relative name made of plain segments lands exactly at those segments below the workspace. */
  lemma SafePathPlain(cs: seq<string>, rel: seq<string>)
    requires AllPlain(cs) && AllPlain(rel) && rel != []
    ensures SafePath(Absolute(cs), JoinSegs(rel)) == Absolute(cs + rel)
  {
    JoinBelow(cs, rel);
    AbsoluteBelow(cs, rel);
  }

  /** An absolute name is joined, not resolved: "/a/b" lands at a/b below the workspace. */
  lemma SafePathAbsoluteName(cs: seq<string>, rel: seq<string>)
    requires AllPlain(cs) && AllPlain(rel) && rel != []
    ensures SafePath(Absolute(cs), Absolute(rel)) == Absolute(cs + rel)
  {
    JoinAbsoluteName(cs, rel);
    AbsoluteBelow(cs, rel);
  }

  lemma StartsWithShared(p: string, x: string, d: string)
    ensures StartsWith(p + x, p + d) <==> StartsWith(x, d)
  {
    if StartsWith(x, d) {
      assert (p + x)[..|p + d|] == p + x[..|d|];
    }
    if StartsWith(p + x, p + d) {
      assert x[..|d|] == (p + x)[..|p + d|][|p|..];
    }
  }

  /** Climbing out of the workspace into a sibling whose name does not start
      with the workspace's own name falls back to "octave-workspace". */
  lemma SafePathEscapeFallsBack(parent: seq<string>, dir: string, x: string)
    requires AllPlain(parent) && Plain(dir) && Plain(x) && !StartsWith(x, dir)
    ensures SafePath(Absolute(parent + [dir]), "../" + x) == Absolute(parent + [dir, FallbackName])
  {
    assert JoinSegs([x]) == x;
    JoinUp(parent, dir, [x]);
    AbsoluteSnoc(parent, x);
    AbsoluteSnoc(parent, dir);
    StartsWithShared(if parent == [] then "/" else Absolute(parent) + "/", x, dir);
    assert AllPlain(parent + [dir]);
    JoinChild(parent + [dir], FallbackName);
    assert parent + [dir] + [FallbackName] == parent + [dir, FallbackName];
  }

  /** The test is a string prefix, not a directory boundary: from the
      workspace `dir`, the name "../" + dir + suffix + "/" + name reaches into
      the sibling directory `dir + suffix`, which is neither the workspace nor
      below it, and it is accepted. */
  lemma SafePathSiblingAccepted(parent: seq<string>, dir: string, suffix: string, name: string)
    requires AllPlain(parent) && Plain(dir) && Plain(dir + suffix) && Plain(name) && suffix != ""
    ensures var cwd := Absolute(parent + [dir]);
      var r := SafePath(cwd, "../" + (dir + suffix) + "/" + name);
      r == Absolute(parent + [dir + suffix, name]) &&
      r != cwd && !StartsWith(r, cwd + "/")
  {
    var cwd := Absolute(parent + [dir]);
    SiblingJoin(parent, dir, dir + suffix, name);
    SiblingString(parent, dir, suffix, name);
    assert suffix[0] == (dir + suffix)[|dir|];
    ExtendsPastBoundary(cwd, suffix + "/" + name);
  }

  /** Climbing out of `dir` into its sibling `sib` and down to `name`. */
  lemma SiblingJoin(parent: seq<string>, dir: string, sib: string, name: string)
    requires AllPlain(parent) && Plain(dir) && Plain(sib) && Plain(name)
    ensures Join(Absolute(parent + [dir]), "../" + sib + "/" + name) == Absolute(parent + [sib, name])
  {
    assert JoinSegs([sib, name]) == sib + "/" + name;
    assert "../" + sib + "/" + name == "../" + JoinSegs([sib, name]);
    JoinUp(parent, dir, [sib, name]);
  }

  /** The sibling's path is the workspace's path with more characters after it. */
  lemma SiblingString(parent: seq<string>, dir: string, suffix: string, name: string)
    ensures Absolute(parent + [dir + suffix, name]) == Absolute(parent + [dir]) + (suffix + "/" + name)
  {
    var pre := if parent == [] then "/" else Absolute(parent) + "/";
    assert parent + [dir + suffix, name] == (parent + [dir + suffix]) + [name];
    AbsoluteSnoc(parent + [dir + suffix], name);
    AbsoluteSnoc(parent, dir + suffix);
    AbsoluteSnoc(parent, dir);
    assert pre + (dir + suffix) + "/" + name == (pre + dir) + (suffix + "/" + name);
  }

  /** A string extended by characters that do not start with '/' has it as a
      prefix, but not as a directory. */
  lemma ExtendsPastBoundary(cwd: string, ext: string)
    requires ext != "" && ext[0] != '/'
    ensures StartsWith(cwd + ext, cwd) && cwd + ext != cwd && !StartsWith(cwd + ext, cwd + "/")
  {
    assert (cwd + ext)[..|cwd|] == cwd;
    assert (cwd + ext)[|cwd|] == ext[0];
    assert (cwd + "/")[|cwd|] == '/';
  }
}
