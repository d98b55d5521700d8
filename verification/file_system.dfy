/** The part of the operating system the gateway talks to, as a value: a map
    from path strings to entries, and the calls `lstat`, `readdir`,
    `readFile`, `writeFile`, `mkdir(…, {recursive: true})`, `unlink` and
    `rename` as functions on that map. Each call looks its path up as the
    string it is given. */
module FileSystem {
  import opened Common
  import opened Paths

  /** An entry as `lstat` sees it. A directory keeps the names `readdir`
      lists and the size `lstat` reports for it. */
  datatype Inode =
    | File(data: Bytes)
    | Dir(names: seq<string>, dirSize: nat)
    | Special(specialSize: nat)   // a symbolic link, fifo, socket or device

  type Fs = map<string, Inode>

  /** The size `lstat` reports for a directory that `mkdir` has just made. */
  const NewDirSize: nat := 4096

  datatype Kind = RegularFile | Directory | Other

  datatype Stat = Stat(kind: Kind, size: nat)

  /** Every name a directory lists is a plain, non-empty name without '/',
      and no name is listed twice: what `readdir` guarantees. */
  ghost predicate NamesPlain(fs: Fs) {
    forall d :: d in fs && fs[d].Dir? ==> AllPlain(fs[d].names) && Distinct(fs[d].names)
  }

  predicate Distinct<T(==)>(s: seq<T>) {
    forall i, j :: 0 <= i < j < |s| ==> s[i] != s[j]
  }

  /** `fs.lstat`: does not follow a symbolic link. */
  function Lstat(fs: Fs, p: string): Result<Stat> {
    if p !in fs then Err(ENOENT)
    else match fs[p]
      case File(data) => Ok(Stat(RegularFile, |data|))
      case Dir(_, size) => Ok(Stat(Directory, size))
      case Special(size) => Ok(Stat(Other, size))
  }

  /** `fs.readdir`. */
  function Readdir(fs: Fs, p: string): Result<seq<string>> {
    if p !in fs then Err(ENOENT)
    else if fs[p].Dir? then Ok(fs[p].names)
    else Err(ENOTDIR)
  }

  /** `fs.readFile`. */
  function ReadFile(fs: Fs, p: string): Result<Bytes> {
    if p !in fs then Err(ENOENT)
    else match fs[p]
      case File(data) => Ok(data)
      case Dir(_, _) => Err(EISDIR)
      case Special(_) => Err(EINVAL)
  }

  function AddName(names: seq<string>, n: string): seq<string> {
    if n in names then names else names + [n]
  }

  function RemoveName(names: seq<string>, n: string): (r: seq<string>)
    ensures n !in r
    ensures forall x :: x in r ==> x in names
  {
    if names == [] then []
    else (if names[0] == n then [] else [names[0]]) + RemoveName(names[1..], n)
  }

  /** Makes a new entry at `p` and lists its name in the parent directory. */
  function Create(fs: Fs, p: string, node: Inode): Result<Fs> {
    var parent := Dirname(p);
    if p in fs then Err(EEXIST)
    else if p != "" && p[|p| - 1] == '/' then Err(EISDIR)
    else if parent !in fs then Err(ENOENT)
    else if !fs[parent].Dir? then Err(ENOTDIR)
    else Ok(fs[parent := Dir(AddName(fs[parent].names, Basename(p)), fs[parent].dirSize)][p := node])
  }

  /** Drops the name of `p` from its parent's listing, if the parent is a directory. */
  function Detach(fs: Fs, p: string): Fs {
    var parent := Dirname(p);
    if parent in fs && fs[parent].Dir? then
      fs[parent := Dir(RemoveName(fs[parent].names, Basename(p)), fs[parent].dirSize)]
    else fs
  }

  /** Lists the name of `p` in its parent, if the parent is a directory. */
  function Attach(fs: Fs, p: string): Fs {
    var parent := Dirname(p);
    if parent in fs && fs[parent].Dir? then
      fs[parent := Dir(AddName(fs[parent].names, Basename(p)), fs[parent].dirSize)]
    else fs
  }

  /** `fs.writeFile`: replaces a regular file's content or creates the file. */
  function WriteFile(fs: Fs, p: string, data: Bytes): Result<Fs> {
    if p in fs then
      match fs[p]
      case File(_) => Ok(fs[p := File(data)])
      case Dir(_, _) => Err(EISDIR)
      case Special(_) => Err(EINVAL)
    else Create(fs, p, File(data))
  }

  /** `fs.mkdir(d, {recursive: true})`: makes `d` and every missing directory
      above it. A non-directory at `d` itself fails with EEXIST; one at a
      directory above it fails with ENOTDIR. */
  function MkdirP(fs: Fs, d: string): (r: Result<Fs>)
    ensures r.Ok? ==> d in r.value && r.value[d].Dir?
    ensures d in fs && !fs[d].Dir? ==> r == Err(EEXIST)
    ensures d !in fs && |Dirname(d)| < |d| && Dirname(d) in fs && !fs[Dirname(d)].Dir? ==> r == Err(ENOTDIR)
    decreases |d|
  {
    if d in fs then (if fs[d].Dir? then Ok(fs) else Err(EEXIST))
    else if |Dirname(d)| >= |d| then Err(ENOENT)
    else match MkdirP(fs, Dirname(d))
      case Err(e) => Err(if e == EEXIST then ENOTDIR else e)
      case Ok(fs1) => Create(fs1, d, Dir([], NewDirSize))
  }

  /** `fs.unlink`. */
  function Unlink(fs: Fs, p: string): Result<Fs> {
    if p !in fs then Err(ENOENT)
    else if fs[p].Dir? then Err(EISDIR)
    else Ok(Detach(fs - {p}, p))
  }

  /** `k` is `a` or lies inside the directory `a`. */
  predicate Under(k: string, a: string) {
    k == a || StartsWith(k, a + "/")
  }

  /** `fs.rename`: moves `a`, and for a directory everything inside it, to `b`. */
  function Rename(fs: Fs, a: string, b: string): Result<Fs> {
    if a !in fs then Err(ENOENT)
    else if a == b then Ok(fs)
    else if Dirname(b) !in fs then Err(ENOENT)
    else if !fs[Dirname(b)].Dir? then Err(ENOTDIR)
    else if StartsWith(b, a + "/") then Err(EINVAL)
    else if b in fs && fs[a].Dir? && !fs[b].Dir? then Err(ENOTDIR)
    else if b in fs && fs[a].Dir? && fs[b].names != [] then Err(ENOTEMPTY)
    else if b in fs && !fs[a].Dir? && fs[b].Dir? then Err(EISDIR)
    else Ok(Attach(Detach(Move(fs, a, b), a), b))
  }

  /** Rekeys `a` and everything inside it to `b`; a previous entry at `b` is replaced. */
  function Move(fs: Fs, a: string, b: string): Fs {
    Kept(fs, a, b) + Moved(fs, a, b)
  }

  /** What a rename of `a` to `b` leaves in place. */
  function Kept(fs: Fs, a: string, b: string): Fs {
    map k | k in fs && !Under(k, a) && k != b :: fs[k]
  }

  /** What a rename of `a` to `b` carries over, under its new names. */
  function Moved(fs: Fs, a: string, b: string): Fs {
    RebaseInjective(a, b);
    map k | k in fs && Under(k, a) :: Rebase(k, a, b) := fs[k]
  }

  /** The path that `k`, inside `a`, gets when `a` is renamed to `b`. */
  function Rebase(k: string, a: string, b: string): string
    requires |a| <= |k|
  {
    b + k[|a|..]
  }

  lemma RebaseInjective(a: string, b: string)
    ensures forall k1, k2 {:trigger Rebase(k1, a, b), Rebase(k2, a, b)} ::
      Under(k1, a) && Under(k2, a) && Rebase(k1, a, b) == Rebase(k2, a, b) ==> k1 == k2
  {
    forall k1, k2 | Under(k1, a) && Under(k2, a) && Rebase(k1, a, b) == Rebase(k2, a, b)
      ensures k1 == k2
    {
      assert k1[|a|..] == Rebase(k1, a, b)[|b|..];
      assert k2[|a|..] == Rebase(k2, a, b)[|b|..];
      assert k1 == k1[..|a|] + k1[|a|..];
      assert k2 == k2[..|a|] + k2[|a|..];
    }
  }

  /** The entry at `k` is the same in both maps (possibly absent from both). */
  predicate SameAt(fs: Fs, fs': Fs, k: string) {
    (k in fs <==> k in fs') && (k in fs ==> fs[k] == fs'[k])
  }

  // ---------------------------------------------------------------------
  // What each call can change

  lemma CreateFrame(fs: Fs, p: string, node: Inode)
    requires Create(fs, p, node).Ok?
    ensures var fs' := Create(fs, p, node).value;
      fs'[p] == node && Dirname(p) in fs' && fs'[Dirname(p)].Dir? &&
      forall k :: k != p && k != Dirname(p) ==> SameAt(fs, fs', k)
  {
  }

  /** A successful write stores the data at `p`; only `p` and the listing of its parent change. */
  lemma WriteFileFrame(fs: Fs, p: string, data: Bytes)
    requires WriteFile(fs, p, data).Ok?
    ensures var fs' := WriteFile(fs, p, data).value;
      p in fs' && fs'[p] == File(data) &&
      (forall k :: k != p && k != Dirname(p) ==> SameAt(fs, fs', k)) &&
      (Dirname(p) in fs && fs[Dirname(p)].Dir? ==> Dirname(p) in fs' && fs'[Dirname(p)].Dir?)
  {
    if p !in fs {
      CreateFrame(fs, p, File(data));
    }
  }

  /** `mkdir -p d` changes only `d` and directories on the way up from `d`,
      and leaves every directory a directory. */
  lemma {:induction false} MkdirPFrame(fs: Fs, d: string)
    requires MkdirP(fs, d).Ok?
    ensures var fs' := MkdirP(fs, d).value;
      (forall k :: !OnChain(k, d) ==> SameAt(fs, fs', k)) &&
      (forall k :: k in fs && fs[k].Dir? ==> k in fs' && fs'[k].Dir?)
    decreases |d|
  {
    if d !in fs {
      var up := Dirname(d);
      MkdirPFrame(fs, up);
      var fs1 := MkdirP(fs, up).value;
      CreateFrame(fs1, d, Dir([], NewDirSize));
      forall k | !OnChain(k, d) ensures SameAt(fs, MkdirP(fs, d).value, k) {
        assert k != d && !OnChain(k, up);
      }
    }
  }

  /** A successful unlink removes `p`; only `p` and its parent's listing change. */
  lemma UnlinkFrame(fs: Fs, p: string)
    requires Unlink(fs, p).Ok?
    ensures var fs' := Unlink(fs, p).value;
      p !in fs' || p == Dirname(p)
    ensures forall k :: k != p && k != Dirname(p) ==> SameAt(fs, Unlink(fs, p).value, k)
  {
  }

  lemma RebaseUnder(k: string, a: string, b: string)
    requires Under(k, a)
    ensures Under(Rebase(k, a, b), b)
  {
    if k != a {
      assert k[|a|] == (a + "/")[|a|];
      assert Rebase(k, a, b)[..|b| + 1] == b + "/";
    }
  }

  /** Keys that `Move` produces outside `b` were there before, outside `a`, with the same entry. */
  lemma MoveKeys(fs: Fs, a: string, b: string)
    ensures var fs' := Move(fs, a, b);
      forall k :: k in fs' && !Under(k, b) ==> k in fs && !Under(k, a) && fs'[k] == fs[k]
  {
    var moved := Moved(fs, a, b);
    forall k | k in moved
      ensures Under(k, b)
    {
      var k0 :| k0 in fs && Under(k0, a) && k == Rebase(k0, a, b);
      RebaseUnder(k0, a, b);
    }
  }

  lemma MoveFrame(fs: Fs, a: string, b: string)
    ensures forall k :: !Under(k, a) && !Under(k, b) ==> SameAt(fs, Move(fs, a, b), k)
  {
    MoveKeys(fs, a, b);
    forall k | !Under(k, a) && !Under(k, b)
      ensures SameAt(fs, Move(fs, a, b), k)
    {
      if k in fs {
        assert k in Kept(fs, a, b);
      }
    }
  }

  lemma ListingFrame(fs: Fs, p: string)
    ensures forall k :: k != Dirname(p) ==> SameAt(fs, Detach(fs, p), k) && SameAt(fs, Attach(fs, p), k)
  {
  }

  lemma RenameEffect(fs: Fs, a: string, b: string)
    requires Rename(fs, a, b).Ok? && a != b
    ensures Rename(fs, a, b).value == Attach(Detach(Move(fs, a, b), a), b)
  {
  }

  /** A successful rename changes only what lies under the two paths and the listings of their parents. */
  lemma RenameFrame(fs: Fs, a: string, b: string)
    requires Rename(fs, a, b).Ok?
    ensures var fs' := Rename(fs, a, b).value;
      forall k :: !Under(k, a) && !Under(k, b) && k != Dirname(a) && k != Dirname(b) ==> SameAt(fs, fs', k)
  {
    if a != b {
      RenameEffect(fs, a, b);
      var m := Move(fs, a, b);
      MoveFrame(fs, a, b);
      ListingFrame(m, a);
      ListingFrame(Detach(m, a), b);
    }
  }

  /** Renaming a regular file: the content is found under the new name and the old name is gone. */
  lemma RenameFileMoves(fs: Fs, a: string, b: string)
    requires Rename(fs, a, b).Ok? && a != b
    requires a in fs && fs[a].File?
    requires !Under(a, b) && Dirname(b) != b && Dirname(a) != b && Dirname(b) != a
    ensures var fs' := Rename(fs, a, b).value;
      b in fs' && fs'[b] == fs[a] && a !in fs'
  {
    RenameEffect(fs, a, b);
    var m := Move(fs, a, b);
    MoveRekeys(fs, a, b);
    var d := Detach(m, a);
    ListingFrame(m, a);
    ListingFrame(d, b);
    assert SameAt(m, d, b) && SameAt(d, Attach(d, b), b);
    if Dirname(a) == a {
      assert d == m;
    }
    assert SameAt(m, d, a) && SameAt(d, Attach(d, b), a);
  }

  /** `Move` puts the entry of `a` at `b`, and nothing stays at `a` unless it lies inside `b`. */
  lemma MoveRekeys(fs: Fs, a: string, b: string)
    requires a in fs && !Under(a, b)
    ensures var m := Move(fs, a, b); b in m && m[b] == fs[a] && a !in m
  {
    var m := Move(fs, a, b);
    assert Under(a, a) && b == Rebase(a, a, b);
    assert b in Moved(fs, a, b);
    MoveKeys(fs, a, b);
  }
}
