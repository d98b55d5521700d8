/** Node's POSIX path functions as the workspace gateway uses them
    (`path.join`, `path.normalize`, `path.dirname`, `path.basename`,
    `path.resolve`, `path.relative`), modelled as the normalisation of a
    list of '/'-separated segments. The lemmas describe what these functions
    do to paths built from plain segments, which is all the gateway needs. */
module Paths {

  predicate StartsWith(s: string, prefix: string) {
    |prefix| <= |s| && s[..|prefix|] == prefix
  }

  /** Splits at every '/', keeping the empty pieces: "/a//b" gives ["", "a", "", "b"]. */
  function Split(s: string): (r: seq<string>)
    ensures |r| >= 1
    ensures forall i :: 0 <= i < |r| ==> '/' !in r[i]
  {
    if s == [] then [""]
    else if s[0] == '/' then [""] + Split(s[1..])
    else
      var rest := Split(s[1..]);
      [[s[0]] + rest[0]] + rest[1..]
  }

  /** The segments separated by '/'. */
  function JoinSegs(segs: seq<string>): string {
    if segs == [] then ""
    else if |segs| == 1 then segs[0]
    else JoinSegs(segs[..|segs| - 1]) + "/" + segs[|segs| - 1]
  }

  /** A segment that normalisation keeps unchanged. */
  predicate Plain(seg: string) {
    seg != "" && seg != "." && seg != ".." && '/' !in seg
  }

  predicate AllPlain(segs: seq<string>) {
    forall i :: 0 <= i < |segs| ==> Plain(segs[i])
  }

  lemma AllPlainConcat(a: seq<string>, b: seq<string>)
    requires AllPlain(a) && AllPlain(b)
    ensures AllPlain(a + b)
  {
    forall i | 0 <= i < |a + b| ensures Plain((a + b)[i]) {
      if i < |a| {
        assert (a + b)[i] == a[i];
      } else {
        assert (a + b)[i] == b[i - |a|];
      }
    }
  }

  /** One step of Node's normalizeString: empty and "." segments vanish, ".."
      removes the last kept segment (or is kept, above a relative root), and
      every other segment is kept. */
  function Step(stack: seq<string>, seg: string, allowAboveRoot: bool): seq<string> {
    if seg == "" || seg == "." then stack
    else if seg == ".." then
      if |stack| > 0 && stack[|stack| - 1] != ".." then stack[..|stack| - 1]
      else if allowAboveRoot then stack + [".."]
      else stack
    else stack + [seg]
  }

  function Fold(stack: seq<string>, segs: seq<string>, allowAboveRoot: bool): seq<string>
    decreases |segs|
  {
    if segs == [] then stack
    else Fold(Step(stack, segs[0], allowAboveRoot), segs[1..], allowAboveRoot)
  }

  /** `path.normalize`: a leading '/' and a trailing '/' survive, the segments in between are folded. */
  function Normalize(p: string): string {
    if p == "" then "."
    else
      var isAbsolute := p[0] == '/';
      var trailing := p[|p| - 1] == '/';
      var segs := Fold([], Split(p), !isAbsolute);
      if segs == [] then (if isAbsolute then "/" else if trailing then "./" else ".")
      else (if isAbsolute then "/" else "") + JoinSegs(segs) + (if trailing then "/" else "")
  }

  /** `path.join(a, b)`: the non-empty arguments joined by '/', then normalised. */
  function Join(a: string, b: string): string {
    var joined := if a == "" then b else if b == "" then a else a + "/" + b;
    if joined == "" then "." else Normalize(joined)
  }

  /** The absolute path with the given segments, as Normalize prints it. */
  function Absolute(segs: seq<string>): string {
    "/" + JoinSegs(segs)
  }

  /** `path.dirname`. */
  function Dirname(p: string): (r: string)
    ensures p != "" && p[0] == '/' ==> r != "" && r[0] == '/'
  {
    if p == "" then "."
    else
      var end := DirEnd(p, |p| - 1, true);
      if end == -1 then (if p[0] == '/' then "/" else ".")
      else if p[0] == '/' && end == 1 then "//"
      else p[..end]
  }

  /** Scans p[i], p[i-1], ..., p[1] for the first '/' that has a non-'/'
      character somewhere after it; -1 when there is none. */
  function DirEnd(p: string, i: int, matchedSlash: bool): (end: int)
    requires i < |p|
    ensures end == -1 || 1 <= end <= i
    decreases i
  {
    if i < 1 then -1
    else if p[i] == '/' then (if !matchedSlash then i else DirEnd(p, i - 1, true))
    else DirEnd(p, i - 1, false)
  }

  /** `path.basename`: the last non-empty segment. */
  function Basename(p: string): string {
    LastNonEmpty(Split(p))
  }

  function LastNonEmpty(segs: seq<string>): string {
    if segs == [] then ""
    else if segs[|segs| - 1] != "" then segs[|segs| - 1]
    else LastNonEmpty(segs[..|segs| - 1])
  }

  /** The segments of `path.resolve(p)` in a process whose working directory is `processCwd`. */
  function Resolve(processCwd: string, p: string): seq<string> {
    var full := if p != "" && p[0] == '/' then p else if p == "" then processCwd else processCwd + "/" + p;
    Fold([], Split(full), !(full != "" && full[0] == '/'))
  }

  function CommonPrefixLength(a: seq<string>, b: seq<string>): (k: nat)
    ensures k <= |a| && k <= |b| && a[..k] == b[..k]
    ensures k < |a| && k < |b| ==> a[k] != b[k]
  {
    if a == [] || b == [] || a[0] != b[0] then 0
    else
      var k := 1 + CommonPrefixLength(a[1..], b[1..]);
      assert a[..k] == [a[0]] + a[1..][..k - 1];
      assert b[..k] == [b[0]] + b[1..][..k - 1];
      k
  }

  /** `path.relative(from, to)`: climb out of what `from` does not share with `to`, then descend. */
  function Relative(processCwd: string, from: string, to: string): string {
    if from == to then ""
    else
      var f := Resolve(processCwd, from);
      var t := Resolve(processCwd, to);
      var k := CommonPrefixLength(f, t);
      JoinSegs(seq(|f| - k, _ => "..") + t[k..])
  }

  /** `k` is `p` itself or one of the directories Dirname climbs through from `p`. */
  predicate OnChain(k: string, p: string)
    decreases |p|
  {
    k == p || (|Dirname(p)| < |p| && OnChain(k, Dirname(p)))
  }

  // ---------------------------------------------------------------------
  // Lemmas

  lemma {:induction false} SplitAppend(a: string, b: string)
    ensures Split(a + "/" + b) == Split(a) + Split(b)
    decreases |a|, 1
  {
    if a == [] {
      assert a + "/" + b == "/" + b;
      assert ("/" + b)[1..] == b;
    } else {
      SplitAppend(a[1..], b);
      SplitAppendCons(a, b);
    }
  }

  /** The step of SplitAppend: the first character of `a` is split off the same way on both sides. */
  lemma SplitAppendCons(a: string, b: string)
    requires a != []
    requires Split(a[1..] + "/" + b) == Split(a[1..]) + Split(b)
    ensures Split(a + "/" + b) == Split(a) + Split(b)
  {
    var s := a + "/" + b;
    assert s[0] == a[0] && s[1..] == a[1..] + "/" + b;
    if a[0] == '/' {
      SplitAppendSlash(a, s, Split(a[1..]), Split(b));
    } else {
      SplitAppendChar(a, s, Split(a[1..]), Split(b));
    }
  }

  lemma SplitAppendSlash(a: string, s: string, ra: seq<string>, rb: seq<string>)
    requires a != [] && s != [] && a[0] == '/' && s[0] == '/'
    requires Split(a[1..]) == ra && Split(s[1..]) == ra + rb
    ensures Split(s) == Split(a) + rb
  {
    assert [""] + (ra + rb) == ([""] + ra) + rb;
  }

  lemma SplitAppendChar(a: string, s: string, ra: seq<string>, rb: seq<string>)
    requires a != [] && s != [] && a[0] != '/' && s[0] == a[0]
    requires ra != [] && Split(a[1..]) == ra && Split(s[1..]) == ra + rb
    ensures Split(s) == Split(a) + rb
  {
    var head := [a[0]] + ra[0];
    assert Split(s) == [head] + (ra + rb)[1..] by {
      assert (ra + rb)[0] == ra[0];
    }
    assert (ra + rb)[1..] == ra[1..] + rb;
    assert [head] + (ra[1..] + rb) == ([head] + ra[1..]) + rb;
  }

  lemma {:induction false} SplitNoSlash(x: string)
    requires '/' !in x
    ensures Split(x) == [x]
    decreases |x|
  {
    if x != [] {
      assert '/' !in x[1..];
      SplitNoSlash(x[1..]);
      assert [x[0]] + x[1..] == x;
    }
  }

  lemma {:induction false} SplitJoinSegs(segs: seq<string>)
    requires segs != []
    requires forall i :: 0 <= i < |segs| ==> '/' !in segs[i]
    ensures Split(JoinSegs(segs)) == segs
    decreases |segs|
  {
    var n := |segs|;
    if n == 1 {
      SplitNoSlash(segs[0]);
    } else {
      var init := segs[..n - 1];
      SplitJoinSegs(init);
      SplitNoSlash(segs[n - 1]);
      SplitAppend(JoinSegs(init), segs[n - 1]);
      assert init + [segs[n - 1]] == segs;
    }
  }

  lemma {:induction false} FoldAppend(st: seq<string>, a: seq<string>, b: seq<string>, allow: bool)
    ensures Fold(st, a + b, allow) == Fold(Fold(st, a, allow), b, allow)
    decreases |a|
  {
    if a != [] {
      assert (a + b)[1..] == a[1..] + b;
      FoldAppend(Step(st, a[0], allow), a[1..], b, allow);
    } else {
      assert a + b == b;
    }
  }

  lemma {:induction false} FoldPlain(st: seq<string>, segs: seq<string>, allow: bool)
    requires AllPlain(segs)
    ensures Fold(st, segs, allow) == st + segs
    decreases |segs|
  {
    if segs != [] {
      FoldPlain(st + [segs[0]], segs[1..], allow);
      assert st + [segs[0]] + segs[1..] == st + segs;
    }
  }

  lemma JoinSegsNonEmpty(segs: seq<string>)
    requires segs != [] && AllPlain(segs)
    ensures JoinSegs(segs) != "" && JoinSegs(segs)[|JoinSegs(segs)| - 1] != '/'
  {
    var last := segs[|segs| - 1];
    assert Plain(last);
    assert last[|last| - 1] in last;
    if |segs| > 1 {
      var init := JoinSegs(segs[..|segs| - 1]);
      assert JoinSegs(segs) == init + "/" + last;
    }
  }

  /** The split of an absolute path built from segments: a leading "" and then the segments. */
  lemma SplitAbsolute(cs: seq<string>)
    requires AllPlain(cs)
    ensures Split(Absolute(cs)) == (if cs == [] then ["", ""] else [""] + cs)
  {
    assert Absolute(cs)[1..] == JoinSegs(cs);
    if cs != [] {
      SplitJoinSegs(cs);
    }
  }

  /** Normalisation of a split absolute path built from plain segments gives the segments back. */
  lemma FoldAbsolute(cs: seq<string>, rest: seq<string>)
    requires AllPlain(cs) && AllPlain(rest)
    ensures Fold([], Split(Absolute(cs)) + rest, false) == cs + rest
  {
    SplitAbsolute(cs);
    if cs == [] {
      assert ["", ""] + rest == [""] + ([""] + rest);
      assert ([""] + ([""] + rest))[1..] == [""] + rest;
      assert ([""] + rest)[1..] == rest;
      FoldPlain([], rest, false);
    } else {
      assert [""] + cs + rest == [""] + (cs + rest);
      assert ([""] + (cs + rest))[1..] == cs + rest;
      FoldPlain([], cs + rest, false);
    }
  }

  /** Joining plain relative segments onto an absolute path built from plain
      segments appends them: nothing is normalised away. */
  lemma JoinBelow(cs: seq<string>, rel: seq<string>)
    requires AllPlain(cs) && AllPlain(rel) && rel != []
    ensures Join(Absolute(cs), JoinSegs(rel)) == Absolute(cs + rel)
  {
    var a := Absolute(cs);
    var b := JoinSegs(rel);
    JoinSegsNonEmpty(rel);
    var joined := a + "/" + b;
    SplitAppend(a, b);
    SplitJoinSegs(rel);
    FoldAbsolute(cs, rel);
    assert joined[0] == '/';
    assert joined[|joined| - 1] == b[|b| - 1];
    assert Fold([], Split(joined), false) == cs + rel;
  }

  /** A single plain name joined onto an absolute path. */
  lemma JoinChild(cs: seq<string>, name: string)
    requires AllPlain(cs) && Plain(name)
    ensures Join(Absolute(cs), name) == Absolute(cs + [name])
  {
    assert JoinSegs([name]) == name;
    JoinBelow(cs, [name]);
  }

  /** Folding an absolute path built from plain segments, then more segments. */
  lemma FoldAbsoluteThen(cs: seq<string>, rest: seq<string>)
    requires AllPlain(cs)
    ensures Fold([], Split(Absolute(cs)) + rest, false) == Fold(cs, rest, false)
  {
    FoldAbsolute(cs, []);
    assert Split(Absolute(cs)) + [] == Split(Absolute(cs));
    assert cs + [] == cs;
    FoldAppend([], Split(Absolute(cs)), rest, false);
  }

  lemma SplitUp(rel: seq<string>)
    requires AllPlain(rel) && rel != []
    ensures Split("../" + JoinSegs(rel)) == [".."] + rel
  {
    assert "../" + JoinSegs(rel) == ".." + "/" + JoinSegs(rel);
    SplitAppend("..", JoinSegs(rel));
    SplitNoSlash("..");
    SplitJoinSegs(rel);
  }

  lemma FoldUp(cs: seq<string>, dir: string, rel: seq<string>)
    requires AllPlain(cs) && Plain(dir) && AllPlain(rel)
    ensures Fold([], Split(Absolute(cs + [dir])) + ([".."] + rel), false) == cs + rel
  {
    assert AllPlain(cs + [dir]);
    FoldAbsoluteThen(cs + [dir], [".."] + rel);
    assert Step(cs + [dir], "..", false) == cs;
    assert ([".."] + rel)[1..] == rel;
    FoldPlain(cs, rel, false);
  }

  /** `path.join(dir, "../" + rel)` climbs out of the last segment of `dir` and descends into `rel`. */
  lemma JoinUp(cs: seq<string>, dir: string, rel: seq<string>)
    requires AllPlain(cs) && Plain(dir) && AllPlain(rel) && rel != []
    ensures Join(Absolute(cs + [dir]), "../" + JoinSegs(rel)) == Absolute(cs + rel)
  {
    var a := Absolute(cs + [dir]);
    var b := "../" + JoinSegs(rel);
    JoinSegsNonEmpty(rel);
    SplitAppend(a, b);
    SplitUp(rel);
    FoldUp(cs, dir, rel);
    NormalizeAbsolute(a + "/" + b, cs + rel);
  }

  /** Normalising an absolute path without a trailing '/' whose segments fold to `segs`. */
  lemma NormalizeAbsolute(p: string, segs: seq<string>)
    requires p != "" && p[0] == '/' && p[|p| - 1] != '/'
    requires Fold([], Split(p), false) == segs && segs != []
    ensures Normalize(p) == Absolute(segs)
  {
  }

  /** `path.join(dir, "/" + rel)` does not restart at the root: the absolute name lands below `dir`. */
  lemma JoinAbsoluteName(cs: seq<string>, rel: seq<string>)
    requires AllPlain(cs) && AllPlain(rel) && rel != []
    ensures Join(Absolute(cs), Absolute(rel)) == Absolute(cs + rel)
  {
    var a := Absolute(cs);
    var b := Absolute(rel);
    JoinSegsNonEmpty(rel);
    SplitAppend(a, b);
    SplitAbsolute(rel);
    FoldAbsoluteThen(cs, [""] + rel);
    FoldPlain(cs, rel, false);
    var joined := a + "/" + b;
    assert joined[0] == '/';
    assert joined[|joined| - 1] == JoinSegs(rel)[|JoinSegs(rel)| - 1];
    assert Fold([], Split(joined), false) == cs + rel;
  }

  /** An absolute path with one more segment: the parent, a '/' unless the parent is the root, and the name. */
  lemma AbsoluteSnoc(cs: seq<string>, name: string)
    ensures Absolute(cs + [name]) == (if cs == [] then "/" else Absolute(cs) + "/") + name
  {
    assert (cs + [name])[..|cs + [name]| - 1] == cs;
    if cs == [] {
      assert cs + [name] == [name];
    }
  }

  /** An absolute path is a string prefix of every path below it. */
  lemma AbsoluteBelow(cs: seq<string>, rel: seq<string>)
    requires rel != []
    ensures StartsWith(Absolute(cs + rel), Absolute(cs))
    ensures cs != [] ==> StartsWith(Absolute(cs + rel), Absolute(cs) + "/")
    decreases |rel|
  {
    if |rel| == 1 {
      if cs != [] {
        assert Absolute(cs + rel) == Absolute(cs) + "/" + rel[0];
      }
    } else {
      var init := rel[..|rel| - 1];
      AbsoluteBelow(cs, init);
      assert cs + rel == (cs + init) + [rel[|rel| - 1]];
      assert (cs + rel)[..|cs + rel| - 1] == cs + init;
      assert Absolute(cs + rel) == Absolute(cs + init) + "/" + rel[|rel| - 1];
    }
  }

  /** Resolving an absolute path built from plain segments gives those segments, whatever the process directory. */
  lemma ResolveAbsolute(processCwd: string, cs: seq<string>)
    requires AllPlain(cs)
    ensures Resolve(processCwd, Absolute(cs)) == cs
  {
    FoldAbsolute(cs, []);
    assert Split(Absolute(cs)) + [] == Split(Absolute(cs));
    assert cs + [] == cs;
    assert cs + [] == cs;
  }

  /** The path of a descendant relative to an ancestor is the list of extra segments. */
  lemma RelativeBelow(processCwd: string, cs: seq<string>, rel: seq<string>)
    requires AllPlain(cs) && AllPlain(rel)
    ensures Relative(processCwd, Absolute(cs), Absolute(cs + rel)) == JoinSegs(rel)
  {
    if rel != [] {
      ResolveAbsolute(processCwd, cs);
      ResolveAbsolute(processCwd, cs + rel);
      assert AllPlain(cs + rel);
      var k := CommonPrefixLength(cs, cs + rel);
      assert k == |cs|;
      assert seq(0, _ => "..") + (cs + rel)[|cs|..] == rel;
    } else {
      assert cs + rel == cs;
    }
  }

  lemma {:induction false} DirEndTail(p: string, m: nat, i: int, matched: bool)
    requires 1 <= m < i < |p| && p[m] == '/'
    requires forall j :: m < j <= i ==> p[j] != '/'
    ensures DirEnd(p, i, matched) == m
    decreases i
  {
    if i - 1 > m {
      DirEndTail(p, m, i - 1, false);
    }
  }

  /** The directory of a path built from plain segments drops the last one. */
  lemma DirnameChild(cs: seq<string>, name: string)
    requires AllPlain(cs) && Plain(name)
    ensures Dirname(Absolute(cs + [name])) == Absolute(cs)
  {
    var p := Absolute(cs + [name]);
    var m := |Absolute(cs)|;
    if cs == [] {
      assert p == "/" + name;
      DirEndNoSlash(p, |p| - 1);
    } else {
      JoinSegsNonEmpty(cs);
      assert p == Absolute(cs) + "/" + name;
      assert p[m] == '/';
      assert forall j :: m < j < |p| ==> p[j] == name[j - m - 1];
      assert |name| >= 1;
      DirEndTail(p, m, |p| - 1, true);
      assert p[..m] == Absolute(cs);
    }
  }

  lemma {:induction false} DirEndNoSlash(p: string, i: int)
    requires i < |p|
    requires forall j :: 1 <= j <= i ==> p[j] != '/'
    ensures DirEnd(p, i, true) == -1 && DirEnd(p, i, false) == -1
    decreases i
  {
    if i >= 1 {
      DirEndNoSlash(p, i - 1);
    }
  }

  /** The base name of a path built from plain segments is its last segment. */
  lemma BasenameChild(cs: seq<string>, name: string)
    requires AllPlain(cs) && Plain(name)
    ensures Basename(Absolute(cs + [name])) == name
  {
    assert AllPlain(cs + [name]);
    SplitAbsolute(cs + [name]);
  }
}
