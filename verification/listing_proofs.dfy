/** What `listAll` and `_recursiveReaddir` (back-filesystem/src/working-util.js:46-62, 76-119)
    promise about a workspace whose directory is an absolute path of plain
    segments: every listed name is a regular file at most four levels down,
    classified from its own name and content, no name is listed twice, and
    every such file that is reachable and not left out is listed. */
module ListingProofs {
  import opened Common
  import opened Paths
  import opened FileSystem
  import opened Classifier
  import opened Gateway

  /** The workspace is the absolute path of the plain segments `cs`, and every directory lists plain names. */
  ghost predicate Workspace(cfg: Config, fs: Fs, cs: seq<string>) {
    cfg.cwd == Absolute(cs) && AllPlain(cs) && NamesPlain(fs)
  }

  /** The listed name is 1 to 4 plain segments naming a regular file below
      the workspace, and the entry is what that file's name and content give. */
  ghost predicate Listed(cfg: Config, fs: Fs, cs: seq<string>, info: FileInfo) {
    var segs := Split(info.filename);
    AllPlain(segs) && 1 <= |segs| <= 4 &&
    Absolute(cs + segs) in fs && fs[Absolute(cs + segs)].File? &&
    Expected(cfg, segs[|segs| - 1], fs[Absolute(cs + segs)].data) == Some(info.entry)
  }

  /** Every element is listed and lies below the directory `prefix`, strictly when `strict`. */
  ghost predicate ListedBelow(cfg: Config, fs: Fs, cs: seq<string>, prefix: seq<string>, strict: bool, infos: seq<FileInfo>) {
    forall i :: 0 <= i < |infos| ==>
      Listed(cfg, fs, cs, infos[i]) &&
      |prefix| + (if strict then 1 else 0) <= |Split(infos[i].filename)| &&
      Split(infos[i].filename)[..|prefix|] == prefix
  }

  predicate DistinctNames(infos: seq<FileInfo>) {
    forall i, j :: 0 <= i < j < |infos| ==> infos[i].filename != infos[j].filename
  }

  /** The walk of the directory `rel` below the workspace lists only files below `rel`, each once. */
  lemma {:induction false} WalkSound(cfg: Config, fs: Fs, cs: seq<string>, rel: seq<string>, depth: nat)
    requires Workspace(cfg, fs, cs) && AllPlain(rel) && |rel| == depth
    ensures var r := Walk(cfg, fs, Absolute(cs + rel), depth);
      r.Ok? ==> ListedBelow(cfg, fs, cs, rel, true, r.value) && DistinctNames(r.value)
    decreases Measure(depth), 1
  {
    if depth <= 3 {
      var listing := Readdir(fs, Absolute(cs + rel));
      if listing.Ok? {
        WalkEntriesSound(cfg, fs, cs, rel, listing.value, depth);
      }
    }
  }

  lemma {:induction false} WalkEntriesSound(cfg: Config, fs: Fs, cs: seq<string>, rel: seq<string>, files: seq<string>, depth: nat)
    requires Workspace(cfg, fs, cs) && AllPlain(rel) && |rel| == depth <= 3
    requires AllPlain(files) && Distinct(files)
    ensures var r := WalkEntries(cfg, fs, Absolute(cs + rel), files, depth);
      r.Ok? ==>
        ListedBelow(cfg, fs, cs, rel, true, r.value) && DistinctNames(r.value) &&
        forall i :: 0 <= i < |r.value| ==> Split(r.value[i].filename)[|rel|] in files
    decreases Measure(depth), 0, |files|
  {
    var r := WalkEntries(cfg, fs, Absolute(cs + rel), files, depth);
    if files != [] && r.Ok? {
      var init := files[..|files| - 1];
      var last := files[|files| - 1];
      assert files == init + [last];
      WalkEntriesSound(cfg, fs, cs, rel, init, depth);
      WalkEntrySound(cfg, fs, cs, rel, last, depth);
      var acc := WalkEntries(cfg, fs, Absolute(cs + rel), init, depth).value;
      var more := WalkEntry(cfg, fs, Absolute(cs + rel), last, depth).value;
      assert r.value == acc + more;
      ListedBelowConcat(cfg, fs, cs, rel, init, last, acc, more);
    }
  }

  /** The results for the earlier entries and for the last one together lie
      below the directory, and no name repeats because the entry names do not. */
  lemma ListedBelowConcat(cfg: Config, fs: Fs, cs: seq<string>, rel: seq<string>, init: seq<string>, last: string,
                          acc: seq<FileInfo>, more: seq<FileInfo>)
    requires last !in init
    requires ListedBelow(cfg, fs, cs, rel, true, acc) && DistinctNames(acc)
    requires forall i :: 0 <= i < |acc| ==> Split(acc[i].filename)[|rel|] in init
    requires ListedBelow(cfg, fs, cs, rel + [last], false, more) && DistinctNames(more)
    ensures ListedBelow(cfg, fs, cs, rel, true, acc + more) && DistinctNames(acc + more)
    ensures forall i :: 0 <= i < |acc + more| ==> Split((acc + more)[i].filename)[|rel|] in init + [last]
  {
    var all := acc + more;
    forall i | 0 <= i < |more|
      ensures |rel| + 1 <= |Split(more[i].filename)|
      ensures Split(more[i].filename)[..|rel|] == rel
      ensures Split(more[i].filename)[|rel|] == last
    {
      var sp := Split(more[i].filename);
      assert sp[..|rel| + 1] == rel + [last];
      assert sp[..|rel|] == sp[..|rel| + 1][..|rel|];
      assert sp[|rel|] == sp[..|rel| + 1][|rel|];
    }
    forall i | 0 <= i < |all|
      ensures Listed(cfg, fs, cs, all[i]) && |rel| + 1 <= |Split(all[i].filename)|
      ensures Split(all[i].filename)[..|rel|] == rel
      ensures Split(all[i].filename)[|rel|] in init + [last]
    {
      if i < |acc| {
        assert all[i] == acc[i];
      } else {
        assert all[i] == more[i - |acc|];
      }
    }
    forall i, j | 0 <= i < j < |all|
      ensures all[i].filename != all[j].filename
    {
      if j < |acc| {
        assert all[i] == acc[i] && all[j] == acc[j];
      } else if i >= |acc| {
        assert all[i] == more[i - |acc|] && all[j] == more[j - |acc|];
      } else {
        assert all[i] == acc[i] && all[j] == more[j - |acc|];
        assert Split(acc[i].filename)[|rel|] in init;
      }
    }
  }

  /** Where the walk of directory `rel` finds its entry `name`, and the relative name it gives it. */
  lemma ChildPaths(processCwd: string, cs: seq<string>, rel: seq<string>, name: string)
    requires AllPlain(cs) && AllPlain(rel) && Plain(name)
    ensures Join(Absolute(cs + rel), name) == Absolute(cs + (rel + [name]))
    ensures Relative(processCwd, Absolute(cs), Absolute(cs + (rel + [name]))) == JoinSegs(rel + [name])
    ensures Split(JoinSegs(rel + [name])) == rel + [name]
  {
    AllPlainConcat(rel, [name]);
    ChildJoin(cs, rel, name);
    RelativeBelow(processCwd, cs, rel + [name]);
    SplitJoinSegs(rel + [name]);
  }

  lemma ChildJoin(cs: seq<string>, rel: seq<string>, name: string)
    requires AllPlain(cs) && AllPlain(rel) && Plain(name)
    ensures Join(Absolute(cs + rel), name) == Absolute(cs + (rel + [name]))
  {
    AllPlainConcat(cs, rel);
    assert cs + rel + [name] == cs + (rel + [name]);
    JoinChild(cs + rel, name);
  }

  /** One entry of the walk of directory `rel`, with the paths worked out. */
  lemma WalkEntryUnfold(cfg: Config, fs: Fs, cs: seq<string>, rel: seq<string>, name: string, depth: nat)
    requires Workspace(cfg, fs, cs) && AllPlain(rel) && depth <= 3 && Plain(name)
    ensures var pathname := Absolute(cs + (rel + [name]));
      WalkEntry(cfg, fs, Absolute(cs + rel), name, depth) ==
        if pathname == Join(cfg.cwd, GitName) then Ok([])
        else if pathname !in fs then Err(ENOENT)
        else match fs[pathname]
          case File(data) => FileInfoOf(cfg, fs, name, pathname, JoinSegs(rel + [name]), |data|)
          case Dir(_, _) => Walk(cfg, fs, pathname, depth + 1)
          case Special(_) => Ok([])
  {
    ChildPaths(cfg.processCwd, cs, rel, name);
  }

  /** A regular file the walk reaches is listed under its relative name. */
  lemma ListedFile(cfg: Config, fs: Fs, cs: seq<string>, rel: seq<string>, name: string, e: Entry)
    requires Workspace(cfg, fs, cs) && AllPlain(rel) && |rel| <= 3 && Plain(name)
    requires var pathname := Absolute(cs + (rel + [name]));
      pathname in fs && fs[pathname].File? && Expected(cfg, name, fs[pathname].data) == Some(e)
    ensures Listed(cfg, fs, cs, FileInfo(JoinSegs(rel + [name]), e))
  {
    var child := rel + [name];
    ChildPaths(cfg.processCwd, cs, rel, name);
    AllPlainConcat(rel, [name]);
    assert Split(JoinSegs(child)) == child && child[|child| - 1] == name;
  }

  lemma {:induction false} WalkEntrySound(cfg: Config, fs: Fs, cs: seq<string>, rel: seq<string>, name: string, depth: nat)
    requires Workspace(cfg, fs, cs) && AllPlain(rel) && |rel| == depth <= 3 && Plain(name)
    ensures var r := WalkEntry(cfg, fs, Absolute(cs + rel), name, depth);
      r.Ok? ==> ListedBelow(cfg, fs, cs, rel + [name], false, r.value) && DistinctNames(r.value)
    decreases Measure(depth), 0, 0
  {
    var child := rel + [name];
    var pathname := Absolute(cs + child);
    WalkEntryUnfold(cfg, fs, cs, rel, name, depth);
    if pathname != Join(cfg.cwd, GitName) && pathname in fs {
      if fs[pathname].Dir? {
        AllPlainConcat(rel, [name]);
        WalkSound(cfg, fs, cs, child, depth + 1);
      } else if fs[pathname].File? {
        FileEntrySound(cfg, fs, cs, rel, name);
      }
    }
  }

  /** A regular-file entry yields at most one element, listed under the file's own relative name. */
  lemma FileEntrySound(cfg: Config, fs: Fs, cs: seq<string>, rel: seq<string>, name: string)
    requires Workspace(cfg, fs, cs) && AllPlain(rel) && |rel| <= 3 && Plain(name)
    requires Absolute(cs + (rel + [name])) in fs && fs[Absolute(cs + (rel + [name]))].File?
    ensures var pathname := Absolute(cs + (rel + [name]));
      var r := FileInfoOf(cfg, fs, name, pathname, JoinSegs(rel + [name]), |fs[pathname].data|);
      r.Ok? && ListedBelow(cfg, fs, cs, rel + [name], false, r.value) && DistinctNames(r.value)
  {
    var child := rel + [name];
    var pathname := Absolute(cs + child);
    var data := fs[pathname].data;
    FileInfoOfFile(cfg, fs, name, pathname, JoinSegs(child), data);
    if Expected(cfg, name, data).Some? {
      var info := FileInfo(JoinSegs(child), Expected(cfg, name, data).value);
      ListedFile(cfg, fs, cs, rel, name, info.entry);
      ChildPaths(cfg.processCwd, cs, rel, name);
      SingleListedBelow(cfg, fs, cs, child, info);
    }
  }

  lemma SingleListedBelow(cfg: Config, fs: Fs, cs: seq<string>, prefix: seq<string>, info: FileInfo)
    requires Listed(cfg, fs, cs, info) && Split(info.filename) == prefix
    ensures ListedBelow(cfg, fs, cs, prefix, false, [info]) && DistinctNames([info])
  {
    assert Split(info.filename)[..|prefix|] == prefix;
  }

  // ---------------------------------------------------------------------
  // The dictionary

  /** `listAll`'s dictionary holds exactly the listed names, except `__proto__`. */
  lemma {:induction false} ToDictKeys(infos: seq<FileInfo>)
    ensures forall k :: k in ToDict(infos) <==> k != ProtoKey && exists i :: 0 <= i < |infos| && infos[i].filename == k
  {
    if infos != [] {
      var init := infos[..|infos| - 1];
      ToDictKeys(init);
      forall k | k in ToDict(infos)
        ensures k != ProtoKey && exists i :: 0 <= i < |infos| && infos[i].filename == k
      {
        if k != infos[|infos| - 1].filename || k == ProtoKey {
          assert k in ToDict(init);
          var i :| 0 <= i < |init| && init[i].filename == k;
          assert infos[i] == init[i];
        }
      }
      forall k | k != ProtoKey && exists i :: 0 <= i < |infos| && infos[i].filename == k
        ensures k in ToDict(infos)
      {
        var i :| 0 <= i < |infos| && infos[i].filename == k;
        if i < |init| {
          assert init[i] == infos[i];
        }
      }
    }
  }

  /** Each name other than `__proto__` maps to the entry of its last
      occurrence, and so to its only entry when no name repeats. */
  lemma {:induction false} ToDictLastWins(infos: seq<FileInfo>, i: nat)
    requires i < |infos|
    requires forall j :: i < j < |infos| ==> infos[j].filename != infos[i].filename
    ensures infos[i].filename != ProtoKey ==>
      infos[i].filename in ToDict(infos) && ToDict(infos)[infos[i].filename] == infos[i].entry
  {
    var init := infos[..|infos| - 1];
    if i < |init| {
      assert infos[i] == init[i];
      forall j | i < j < |init| ensures init[j].filename != init[i].filename {
        assert init[j] == infos[j];
      }
      ToDictLastWins(init, i);
    }
  }

  /** Each key of the dictionary is the name of some element, with that element's entry. */
  lemma ToDictFrom(infos: seq<FileInfo>, k: string)
    requires k in ToDict(infos)
    ensures exists i :: 0 <= i < |infos| && infos[i] == FileInfo(k, ToDict(infos)[k])
    decreases |infos|
  {
    var init := infos[..|infos| - 1];
    if k != infos[|infos| - 1].filename || k == ProtoKey {
      ToDictFrom(init, k);
      var i :| 0 <= i < |init| && init[i] == FileInfo(k, ToDict(init)[k]);
      assert infos[i] == init[i];
    }
  }

  /** Every name in `listAll`'s dictionary is a listed file with the entry its classification gives. */
  lemma ListAllSound(cfg: Config, fs: Fs, cs: seq<string>)
    requires Workspace(cfg, fs, cs)
    ensures var r := ListAllOf(cfg, fs);
      r.Ok? ==> forall k :: k in r.value ==> Listed(cfg, fs, cs, FileInfo(k, r.value[k]))
  {
    assert cs + [] == cs;
    WalkSound(cfg, fs, cs, [], 0);
    var w := Walk(cfg, fs, cfg.cwd, 0);
    if w.Ok? {
      var infos := w.value;
      forall k | k in ToDict(infos)
        ensures Listed(cfg, fs, cs, FileInfo(k, ToDict(infos)[k]))
      {
        ToDictFrom(infos, k);
        var i :| 0 <= i < |infos| && infos[i] == FileInfo(k, ToDict(infos)[k]);
      }
    }
  }

  // ---------------------------------------------------------------------
  // Completeness

  /** Starting at the directory `rel` below the workspace, each directory on
      the way down lists the next segment of `tail`, and each but the last
      segment names a directory. */
  ghost predicate Reachable(fs: Fs, cs: seq<string>, rel: seq<string>, tail: seq<string>)
    decreases |tail|
  {
    tail == [] ||
    (Absolute(cs + rel) in fs && fs[Absolute(cs + rel)].Dir? && tail[0] in fs[Absolute(cs + rel)].names &&
     Reachable(fs, cs, rel + [tail[0]], tail[1..]))
  }

  /** An entry the walk of `files` produces for one of them is among the results for all of them. */
  lemma {:induction false} WalkEntriesContains(cfg: Config, fs: Fs, directory: string, files: seq<string>, j: nat, depth: nat)
    requires depth <= 3 && j < |files|
    requires WalkEntries(cfg, fs, directory, files, depth).Ok?
    ensures WalkEntry(cfg, fs, directory, files[j], depth).Ok?
    ensures forall x :: x in WalkEntry(cfg, fs, directory, files[j], depth).value ==>
      x in WalkEntries(cfg, fs, directory, files, depth).value
    decreases |files|
  {
    if j < |files| - 1 {
      var init := files[..|files| - 1];
      assert init[j] == files[j];
      WalkEntriesContains(cfg, fs, directory, init, j, depth);
    }
  }

  lemma AbsoluteInjective(a: seq<string>, b: seq<string>)
    requires AllPlain(a) && AllPlain(b) && a != [] && b != []
    ensures Absolute(a) == Absolute(b) ==> a == b
  {
    SplitAbsolute(a);
    SplitAbsolute(b);
    assert a == ([""] + a)[1..];
    assert b == ([""] + b)[1..];
  }

  /** What the walk finds at an entry its directory lists is part of the walk of that directory. */
  lemma WalkReachesEntry(cfg: Config, fs: Fs, dir: string, name: string, depth: nat)
    requires depth <= 3
    requires dir in fs && fs[dir].Dir? && name in fs[dir].names
    requires Walk(cfg, fs, dir, depth).Ok?
    ensures WalkEntry(cfg, fs, dir, name, depth).Ok?
    ensures forall x :: x in WalkEntry(cfg, fs, dir, name, depth).value ==> x in Walk(cfg, fs, dir, depth).value
  {
    var files := fs[dir].names;
    var j :| 0 <= j < |files| && files[j] == name;
    WalkEntriesContains(cfg, fs, dir, files, j, depth);
  }

  /** The walk of the root never enters `.git` on the way to a file whose first segment is not `.git`. */
  lemma NotGit(cfg: Config, cs: seq<string>, rel: seq<string>, name: string)
    requires cfg.cwd == Absolute(cs) && AllPlain(cs) && AllPlain(rel) && Plain(name)
    requires rel == [] ==> name != GitName
    ensures Absolute(cs + (rel + [name])) != Join(cfg.cwd, GitName)
  {
    JoinChild(cs, GitName);
    AbsoluteInjective(cs + (rel + [name]), cs + [GitName]);
    if rel == [] {
      assert (cs + (rel + [name]))[|cs|] == name;
    } else {
      assert |cs + (rel + [name])| != |cs + [GitName]|;
    }
  }

  /** A directory entry of a directory below the workspace is walked one level deeper. */
  lemma WalkEntryDir(cfg: Config, fs: Fs, cs: seq<string>, rel: seq<string>, name: string, depth: nat)
    requires Workspace(cfg, fs, cs) && AllPlain(rel) && depth <= 3 && Plain(name)
    requires rel == [] ==> name != GitName
    requires Absolute(cs + (rel + [name])) in fs && fs[Absolute(cs + (rel + [name]))].Dir?
    ensures WalkEntry(cfg, fs, Absolute(cs + rel), name, depth) == Walk(cfg, fs, Absolute(cs + (rel + [name])), depth + 1)
  {
    WalkEntryUnfold(cfg, fs, cs, rel, name, depth);
    NotGit(cfg, cs, rel, name);
  }

  /** A regular-file entry of a directory below the workspace is classified under its relative name. */
  lemma WalkEntryFile(cfg: Config, fs: Fs, cs: seq<string>, rel: seq<string>, name: string, depth: nat)
    requires Workspace(cfg, fs, cs) && AllPlain(rel) && depth <= 3 && Plain(name)
    requires rel == [] ==> name != GitName
    requires Absolute(cs + (rel + [name])) in fs && fs[Absolute(cs + (rel + [name]))].File?
    ensures WalkEntry(cfg, fs, Absolute(cs + rel), name, depth) ==
      Ok(match Expected(cfg, name, fs[Absolute(cs + (rel + [name]))].data)
         case None => []
         case Some(e) => [FileInfo(JoinSegs(rel + [name]), e)])
  {
    var pathname := Absolute(cs + (rel + [name]));
    WalkEntryUnfold(cfg, fs, cs, rel, name, depth);
    NotGit(cfg, cs, rel, name);
    FileInfoOfFile(cfg, fs, name, pathname, JoinSegs(rel + [name]), fs[pathname].data);
  }

  /** A regular file that the directory `rel` lists is in the walk of `rel`, unless left out. */
  lemma WalkFindsFile(cfg: Config, fs: Fs, cs: seq<string>, rel: seq<string>, name: string, e: Entry)
    requires Workspace(cfg, fs, cs) && AllPlain(rel) && |rel| <= 3 && Plain(name)
    requires rel == [] ==> name != GitName
    requires Absolute(cs + rel) in fs && fs[Absolute(cs + rel)].Dir? && name in fs[Absolute(cs + rel)].names
    requires Absolute(cs + (rel + [name])) in fs && fs[Absolute(cs + (rel + [name]))].File?
    requires Expected(cfg, name, fs[Absolute(cs + (rel + [name]))].data) == Some(e)
    requires Walk(cfg, fs, Absolute(cs + rel), |rel|).Ok?
    ensures FileInfo(JoinSegs(rel + [name]), e) in Walk(cfg, fs, Absolute(cs + rel), |rel|).value
  {
    WalkReachesEntry(cfg, fs, Absolute(cs + rel), name, |rel|);
    WalkEntryFile(cfg, fs, cs, rel, name, |rel|);
  }

  /** What the walk of a subdirectory that `rel` lists finds is in the walk of `rel`. */
  lemma WalkEntersDir(cfg: Config, fs: Fs, cs: seq<string>, rel: seq<string>, name: string)
    requires Workspace(cfg, fs, cs) && AllPlain(rel) && |rel| <= 3 && Plain(name)
    requires rel == [] ==> name != GitName
    requires Absolute(cs + rel) in fs && fs[Absolute(cs + rel)].Dir? && name in fs[Absolute(cs + rel)].names
    requires Absolute(cs + (rel + [name])) in fs && fs[Absolute(cs + (rel + [name]))].Dir?
    requires Walk(cfg, fs, Absolute(cs + rel), |rel|).Ok?
    ensures Walk(cfg, fs, Absolute(cs + (rel + [name])), |rel| + 1).Ok?
    ensures forall x :: x in Walk(cfg, fs, Absolute(cs + (rel + [name])), |rel| + 1).value ==>
      x in Walk(cfg, fs, Absolute(cs + rel), |rel|).value
  {
    WalkReachesEntry(cfg, fs, Absolute(cs + rel), name, |rel|);
    WalkEntryDir(cfg, fs, cs, rel, name, |rel|);
  }

  /** The walk of the directory made of the first `k` segments of `segs`
      finds the regular file `segs` when each directory on the way lists the
      next segment. */
  lemma {:induction false} WalkComplete(cfg: Config, fs: Fs, cs: seq<string>, segs: seq<string>, k: nat, e: Entry)
    requires Workspace(cfg, fs, cs) && AllPlain(segs) && k < |segs| <= 4 && segs[0] != GitName
    requires Reachable(fs, cs, segs[..k], segs[k..])
    requires Absolute(cs + segs) in fs && fs[Absolute(cs + segs)].File?
    requires Expected(cfg, segs[|segs| - 1], fs[Absolute(cs + segs)].data) == Some(e)
    requires Walk(cfg, fs, Absolute(cs + segs[..k]), k).Ok?
    ensures FileInfo(JoinSegs(segs), e) in Walk(cfg, fs, Absolute(cs + segs[..k]), k).value
    decreases |segs| - k
  {
    if k == |segs| - 1 {
      WalkCompleteLast(cfg, fs, cs, segs, e);
    } else {
      WalkCompleteDescend(cfg, fs, cs, segs, k);
      WalkComplete(cfg, fs, cs, segs, k + 1, e);
    }
  }

  /** The last directory on the way lists the file itself. */
  lemma WalkCompleteLast(cfg: Config, fs: Fs, cs: seq<string>, segs: seq<string>, e: Entry)
    requires Workspace(cfg, fs, cs) && AllPlain(segs) && 1 <= |segs| <= 4 && segs[0] != GitName
    requires Reachable(fs, cs, segs[..|segs| - 1], segs[|segs| - 1..])
    requires Absolute(cs + segs) in fs && fs[Absolute(cs + segs)].File?
    requires Expected(cfg, segs[|segs| - 1], fs[Absolute(cs + segs)].data) == Some(e)
    requires Walk(cfg, fs, Absolute(cs + segs[..|segs| - 1]), |segs| - 1).Ok?
    ensures FileInfo(JoinSegs(segs), e) in Walk(cfg, fs, Absolute(cs + segs[..|segs| - 1]), |segs| - 1).value
  {
    var rel := segs[..|segs| - 1];
    var name := segs[|segs| - 1];
    assert rel + [name] == segs;
    WalkFindsFile(cfg, fs, cs, rel, name, e);
  }

  /** A directory on the way is entered, and what its walk finds is found one level up. */
  lemma WalkCompleteDescend(cfg: Config, fs: Fs, cs: seq<string>, segs: seq<string>, k: nat)
    requires Workspace(cfg, fs, cs) && AllPlain(segs) && k + 1 < |segs| <= 4 && segs[0] != GitName
    requires Reachable(fs, cs, segs[..k], segs[k..])
    requires Walk(cfg, fs, Absolute(cs + segs[..k]), k).Ok?
    ensures Reachable(fs, cs, segs[..k + 1], segs[k + 1..])
    ensures Walk(cfg, fs, Absolute(cs + segs[..k + 1]), k + 1).Ok?
    ensures forall x :: x in Walk(cfg, fs, Absolute(cs + segs[..k + 1]), k + 1).value ==>
      x in Walk(cfg, fs, Absolute(cs + segs[..k]), k).value
  {
    var rel := segs[..k];
    var name := segs[k];
    assert rel + [name] == segs[..k + 1];
    assert segs[k..][1..] == segs[k + 1..];
    WalkEntersDir(cfg, fs, cs, rel, name);
  }

  /** Every regular file at most four levels down that the walk can reach
      through directories, that is not under the root's `.git`, and that its
      classification does not leave out, is in `listAll`'s dictionary with its
      entry; the one exception is a file named `__proto__` at the root, which
      the assignment into the dictionary object drops. */
  lemma ListAllComplete(cfg: Config, fs: Fs, cs: seq<string>, segs: seq<string>, e: Entry)
    requires Workspace(cfg, fs, cs) && AllPlain(segs) && 1 <= |segs| <= 4 && segs[0] != GitName
    requires Reachable(fs, cs, [], segs)
    requires Absolute(cs + segs) in fs && fs[Absolute(cs + segs)].File?
    requires Expected(cfg, segs[|segs| - 1], fs[Absolute(cs + segs)].data) == Some(e)
    requires ListAllOf(cfg, fs).Ok?
    ensures JoinSegs(segs) != ProtoKey ==>
      JoinSegs(segs) in ListAllOf(cfg, fs).value && ListAllOf(cfg, fs).value[JoinSegs(segs)] == e
    ensures JoinSegs(segs) == ProtoKey ==> ProtoKey !in ListAllOf(cfg, fs).value
  {
    assert cs + [] == cs;
    assert segs[..0] == [] && segs[0..] == segs;
    WalkComplete(cfg, fs, cs, segs, 0, e);
    WalkSound(cfg, fs, cs, [], 0);
    var infos := Walk(cfg, fs, cfg.cwd, 0).value;
    var i :| 0 <= i < |infos| && infos[i] == FileInfo(JoinSegs(segs), e);
    ToDictLastWins(infos, i);
    ToDictKeys(infos);
  }
}
