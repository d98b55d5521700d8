/** The workspace file gateway `WorkingUtil` (back-filesystem/src/working-util.js):
    list, read, save, rename, delete and download files under one working
    directory `cwd`. The operating system is the map of FileSystem; the
    foreign libraries (mime lookup, charset detection and conversion, md5)
    are function values in the configuration. */
module Gateway {
  import opened Common
  import opened Paths
  import opened FileSystem
  import opened LineEndings
  import opened Classifier

  /** What a gateway instance is given. */
  datatype Config = Config(
    cwd: string,                  // the workspace directory
    processCwd: string,           // `process.cwd()`, against which `path.relative` resolves
    textFileSizeLimit: nat,       // `config.session.textFileSizeLimit`
    mimeLookup: string -> string, // `mime.lookup`
    toUtf8: Bytes -> Bytes,       // charset detection, `Iconv` (or its failure) and the UTF-8 decode and encode
    md5Hex: Bytes -> string)      // the hex md5 digest

  /** The name `_safePath` falls back to. */
  const FallbackName: string := "octave-workspace"

  /** The root entry the walk skips. */
  const GitName: string := ".git"

  /** `_safePath`: the name joined onto `cwd` when the result still has `cwd`
      as a string prefix, and the fallback inside `cwd` otherwise. */
  function SafePath(cwd: string, filename: string): string {
    var candidate := Join(cwd, filename);
    if StartsWith(candidate, cwd) then candidate else Join(cwd, FallbackName)
  }

  /** `_convertCharset`: charset conversion for a non-empty buffer, then CR LF to LF. */
  function ConvertCharset(cfg: Config, buf: Bytes): Bytes {
    CrlfToLf(if |buf| > 0 then cfg.toUtf8(buf) else buf)
  }

  /** The entry a regular file with the given name and content gets, or None when it is left out. */
  function Expected(cfg: Config, name: string, data: Bytes): Option<Entry> {
    match Classify(cfg.mimeLookup(name), name, |data|, cfg.textFileSizeLimit)
    case ReadText => Some(Text(ConvertCharset(cfg, data)))
    case ListNameOnly => Some(NameOnly)
    case Exclude => None
  }

  /** `_getFileInfo(filename, pathname, relname, stats)`: the list it passes on. */
  function FileInfoOf(cfg: Config, fs: Fs, filename: string, pathname: string, relname: string, size: nat)
    : Result<seq<FileInfo>>
  {
    match Classify(cfg.mimeLookup(filename), filename, size, cfg.textFileSizeLimit)
    case ReadText =>
      (match ReadFile(fs, pathname)
       case Err(e) => Err(e)
       case Ok(buf) => Ok([FileInfo(relname, Text(ConvertCharset(cfg, buf)))]))
    case ListNameOnly => Ok([FileInfo(relname, NameOnly)])
    case Exclude => Ok([])
  }

  /** `_getFileInfo` on a regular file: its entry, or nothing when its classification leaves it out. */
  lemma FileInfoOfFile(cfg: Config, fs: Fs, name: string, pathname: string, relname: string, data: Bytes)
    requires pathname in fs && fs[pathname] == File(data)
    ensures FileInfoOf(cfg, fs, name, pathname, relname, |data|) ==
      Ok(match Expected(cfg, name, data) case None => [] case Some(e) => [FileInfo(relname, e)])
  {
  }

  function Measure(depth: nat): nat {
    if depth > 3 then 0 else 4 - depth
  }

  /** `_recursiveReaddir(directory, depth)`: nothing below depth 3; otherwise
      the results of the directory's entries, in listing order. */
  function Walk(cfg: Config, fs: Fs, directory: string, depth: nat): Result<seq<FileInfo>>
    decreases Measure(depth), 1
  {
    if depth > 3 then Ok([])
    else match Readdir(fs, directory)
      case Err(e) => Err(e)
      case Ok(files) => WalkEntries(cfg, fs, directory, files, depth)
  }

  /** The concatenated results for `files`; the first failing entry fails them all. */
  function WalkEntries(cfg: Config, fs: Fs, directory: string, files: seq<string>, depth: nat)
    : Result<seq<FileInfo>>
    requires depth <= 3
    decreases Measure(depth), 0, |files|
  {
    if files == [] then Ok([])
    else match WalkEntries(cfg, fs, directory, files[..|files| - 1], depth)
      case Err(e) => Err(e)
      case Ok(acc) =>
        match WalkEntry(cfg, fs, directory, files[|files| - 1], depth)
        case Err(e) => Err(e)
        case Ok(more) => Ok(acc + more)
  }

  /** One entry of a directory: `.git` at the root contributes nothing, a
      directory is walked one level deeper, a regular file is classified,
      anything else (a symbolic link included, since lstat does not follow
      it) contributes nothing. */
  function WalkEntry(cfg: Config, fs: Fs, directory: string, filename: string, depth: nat)
    : Result<seq<FileInfo>>
    requires depth <= 3
    decreases Measure(depth), 0, 0
  {
    var pathname := Join(directory, filename);
    var relname := Relative(cfg.processCwd, cfg.cwd, pathname);
    if pathname == Join(cfg.cwd, GitName) then Ok([])
    else match Lstat(fs, pathname)
      case Err(e) => Err(e)
      case Ok(stats) =>
        if stats.kind == Directory then Walk(cfg, fs, pathname, depth + 1)
        else if stats.kind == RegularFile then FileInfoOf(cfg, fs, filename, pathname, relname, stats.size)
        else Ok([])
  }

  /** The one name that assigning into a plain JavaScript object does not
      add as a key: `obj["__proto__"] = v` sets the object's prototype. */
  const ProtoKey: string := "__proto__"

  /** `dict[filename] = fileInfo` on the plain object `{}`. */
  function Assign(dict: map<string, Entry>, filename: string, entry: Entry): map<string, Entry> {
    if filename == ProtoKey then dict else dict[filename := entry]
  }

  /** The dictionary `listAll` fills: each relative name other than
      `__proto__` maps to its entry, and a later element wins. */
  function ToDict(infos: seq<FileInfo>): map<string, Entry> {
    if infos == [] then map[]
    else Assign(ToDict(infos[..|infos| - 1]), infos[|infos| - 1].filename, infos[|infos| - 1].entry)
  }

  /** `listAll` */
  function ListAllOf(cfg: Config, fs: Fs): Result<map<string, Entry>> {
    match Walk(cfg, fs, cfg.cwd, 0)
    case Err(e) => Err(e)
    case Ok(infos) => Ok(ToDict(infos))
  }

  /** What `getFileInfo` reports for a regular file with this content under
      the caller's name: classified by that name, listed under its path
      relative to the workspace. */
  function InfoFor(cfg: Config, filename: string, data: Bytes): Option<FileInfo> {
    match Expected(cfg, filename, data)
    case None => None
    case Some(e) => Some(FileInfo(Relative(cfg.processCwd, cfg.cwd, SafePath(cfg.cwd, filename)), e))
  }

  /** `getFileInfo`: the first element of `_getFileInfo`'s list, None when it is empty. */
  function GetFileInfoOf(cfg: Config, fs: Fs, filename: string): Result<Option<FileInfo>> {
    var pathname := SafePath(cfg.cwd, filename);
    var relname := Relative(cfg.processCwd, cfg.cwd, pathname);
    match Lstat(fs, pathname)
    case Err(e) => Err(e)
    case Ok(stats) =>
      match FileInfoOf(cfg, fs, filename, pathname, relname, stats.size)
      case Err(e) => Err(e)
      case Ok(arr) => Ok(if arr == [] then None else Some(arr[0]))
  }

  /** `readBinary`: the whole file (its base64 text in the source) and the MIME type of the name. */
  function ReadBinaryOf(cfg: Config, fs: Fs, filename: string): Result<(Bytes, string)> {
    match ReadFile(fs, SafePath(cfg.cwd, filename))
    case Err(e) => Err(e)
    case Ok(buf) => Ok((buf, cfg.mimeLookup(filename)))
  }

  /** `renameFile` */
  function RenameOf(cfg: Config, fs: Fs, oldname: string, newname: string): Result<Fs> {
    Rename(fs, SafePath(cfg.cwd, oldname), SafePath(cfg.cwd, newname))
  }

  /** `deleteFile` */
  function DeleteOf(cfg: Config, fs: Fs, filename: string): Result<Fs> {
    Unlink(fs, SafePath(cfg.cwd, filename))
  }

  // ---------------------------------------------------------------------
  // saveFile, with the I/O failures it can meet made explicit

  /** An injected failure of one `fs.writeFile` call. It may leave `residue`
      at the path, as a truncated or partial write does. */
  datatype WriteFault = WriteFault(code: Errno, residue: Option<Bytes>)

  /** The failures injected into the four I/O steps of one save; None means
      the step meets only what the file system itself reports. */
  datatype Faults = Faults(
    mkdir: Option<Errno>,
    backupRead: Option<Errno>,
    write: Option<WriteFault>,
    restore: Option<WriteFault>)

  const NoFaults: Faults := Faults(None, None, None, None)

  function AttemptMkdir(fs: Fs, d: string, fault: Option<Errno>): Result<Fs> {
    if fault.Some? then Err(fault.value) else MkdirP(fs, d)
  }

  function AttemptRead(fs: Fs, p: string, fault: Option<Errno>): Result<Bytes> {
    if fault.Some? then Err(fault.value) else ReadFile(fs, p)
  }

  /** The error of one write, if any, and the state after it. */
  function AttemptWrite(fs: Fs, p: string, data: Bytes, fault: Option<WriteFault>): (Option<Errno>, Fs) {
    match fault
    case None =>
      (match WriteFile(fs, p, data)
       case Ok(fs') => (None, fs')
       case Err(e) => (Some(e), fs))
    case Some(WriteFault(code, residue)) =>
      if residue.Some? && WriteFile(fs, p, residue.value).Ok? then (Some(code), WriteFile(fs, p, residue.value).value)
      else (Some(code), fs)
  }

  datatype SaveOutcome = SaveOutcome(result: Result<string>, fs: Fs)

  /** The write of `value` and, when it fails, the write of `backup` back:
      the write's error, if any, and the state after both. */
  function WriteOrRestore(fs: Fs, p: string, value: Bytes, backup: Bytes, faults: Faults): (Option<Errno>, Fs) {
    var (writeErr, fs2) := AttemptWrite(fs, p, value, faults.write);
    if writeErr.Some? then (writeErr, AttemptWrite(fs2, p, backup, faults.restore).1)
    else (None, fs2)
  }

  /** What the save does once the parent directory exists: read the backup
      (a missing file backs up as empty, any other failure aborts), then write. */
  function SaveInto(cfg: Config, fs: Fs, p: string, value: Bytes, faults: Faults): SaveOutcome {
    var read := AttemptRead(fs, p, faults.backupRead);
    if read.Err? && read.error != ENOENT then SaveOutcome(Err(read.error), fs)
    else
      var backup := if read.Ok? then read.value else [];
      var (writeErr, fs') := WriteOrRestore(fs, p, value, backup, faults);
      if writeErr.Some? then SaveOutcome(Err(writeErr.value), fs')
      else SaveOutcome(Ok(cfg.md5Hex(value)), fs')
  }

  /** `saveFile`: mkdir -p of the parent, read the backup, write, and on a
      failed write put the backup back and report the write's error; on
      success report the md5 of the value. */
  function SaveOf(cfg: Config, fs: Fs, filename: string, value: Bytes, faults: Faults): SaveOutcome {
    var p := SafePath(cfg.cwd, filename);
    match AttemptMkdir(fs, Dirname(p), faults.mkdir)
    case Err(e) => SaveOutcome(Err(e), fs)
    case Ok(fs1) => SaveInto(cfg, fs1, p, value, faults)
  }

  // ---------------------------------------------------------------------
  // The gateway object

  class WorkingUtil {
    const cfg: Config
    var fs: Fs

    constructor (cfg: Config, fs: Fs)
      ensures this.cfg == cfg && this.fs == fs
    {
      this.cfg := cfg;
      this.fs := fs;
    }

    /** `listAll`: walks from `cwd` and fills the dictionary in a forEach loop. */
    method ListAll() returns (r: Result<map<string, Entry>>)
      ensures r == ListAllOf(cfg, fs)
    {
      var walked := RecursiveReaddir(cfg.cwd, 0);
      if walked.Err? {
        return Err(walked.error);
      }
      var fileInfos := walked.value;
      var dict: map<string, Entry> := map[];
      var i := 0;
      while i < |fileInfos|
        invariant 0 <= i <= |fileInfos|
        invariant dict == ToDict(fileInfos[..i])
      {
        var fileInfo := fileInfos[i];
        ToDictStep(fileInfos, i);
        dict := Assign(dict, fileInfo.filename, fileInfo.entry);
        i := i + 1;
      }
      assert fileInfos[..|fileInfos|] == fileInfos;
      return Ok(dict);
    }

    /** `_recursiveReaddir`: the entries of `directory`, each visited in turn. */
    method RecursiveReaddir(directory: string, depth: nat) returns (r: Result<seq<FileInfo>>)
      ensures r == Walk(cfg, fs, directory, depth)
      decreases Measure(depth), 1
    {
      if depth > 3 {
        return Ok([]);
      }
      var listing := Readdir(fs, directory);
      if listing.Err? {
        return Err(listing.error);
      }
      var files := listing.value;
      var results: seq<FileInfo> := [];
      var i := 0;
      while i < |files|
        invariant 0 <= i <= |files|
        invariant WalkEntries(cfg, fs, directory, files[..i], depth) == Ok(results)
      {
        var one := VisitEntry(directory, files[i], depth);
        WalkEntriesStep(cfg, fs, directory, files, i, depth, results);
        if one.Err? {
          WalkEntriesFirstError(cfg, fs, directory, files, i + 1, depth);
          return Err(one.error);
        }
        results := results + one.value;
        i := i + 1;
      }
      assert files[..|files|] == files;
      return Ok(results);
    }

    /** The per-entry callback of `_recursiveReaddir`: lstat, then recurse, classify or skip. */
    method VisitEntry(directory: string, filename: string, depth: nat) returns (r: Result<seq<FileInfo>>)
      requires depth <= 3
      ensures r == WalkEntry(cfg, fs, directory, filename, depth)
      decreases Measure(depth), 0
    {
      var pathname := Join(directory, filename);
      var relname := Relative(cfg.processCwd, cfg.cwd, pathname);
      if pathname == Join(cfg.cwd, GitName) {
        return Ok([]);
      }
      var stats := Lstat(fs, pathname);
      if stats.Err? {
        return Err(stats.error);
      }
      if stats.value.kind == Directory {
        r := RecursiveReaddir(pathname, depth + 1);
      } else if stats.value.kind == RegularFile {
        r := FileInfoOf(cfg, fs, filename, pathname, relname, stats.value.size);
      } else {
        r := Ok([]);
      }
    }

    /** `getFileInfo`: lstat the safe path, run `_getFileInfo` on it and
      take the first element of the list. A regular file is reported with
      its classification, a missing path fails with ENOENT, and anything
      else (a directory included, which is not refused) is never reported
      with text content. */
    method GetFileInfo(filename: string) returns (r: Result<Option<FileInfo>>)
      ensures r == GetFileInfoOf(cfg, fs, filename)
      ensures var p := SafePath(cfg.cwd, filename);
        (p in fs && fs[p].File? ==> r == Ok(InfoFor(cfg, filename, fs[p].data))) &&
        (p !in fs ==> r == Err(ENOENT)) &&
        (p in fs && !fs[p].File? && r.Ok? && r.value.Some? ==> r.value.value.entry == NameOnly)
    {
      var pathname := SafePath(cfg.cwd, filename);
      var relname := Relative(cfg.processCwd, cfg.cwd, pathname);
      var stats := Lstat(fs, pathname);
      if stats.Err? {
        return Err(stats.error);
      }
      if pathname in fs && fs[pathname].File? {
        FileInfoOfFile(cfg, fs, filename, pathname, relname, fs[pathname].data);
      }
      var arr := FileInfoOf(cfg, fs, filename, pathname, relname, stats.value.size);
      if arr.Err? {
        return Err(arr.error);
      }
      r := Ok(if arr.value == [] then None else Some(arr.value[0]));
    }

    /** `readBinary`: a regular file at the safe path gives its bytes (its
      base64 text in the source) and the MIME type of the name; anything
      else gives the read's error. */
    method ReadBinary(filename: string) returns (r: Result<(Bytes, string)>)
      ensures r == ReadBinaryOf(cfg, fs, filename)
      ensures var p := SafePath(cfg.cwd, filename);
        (p in fs && fs[p].File? ==> r == Ok((fs[p].data, cfg.mimeLookup(filename)))) &&
        (!(p in fs && fs[p].File?) ==> r.Err? && r.error == (if p !in fs then ENOENT else if fs[p].Dir? then EISDIR else EINVAL))
    {
      var buf := ReadFile(fs, SafePath(cfg.cwd, filename));
      if buf.Err? {
        return Err(buf.error);
      }
      var mimeType := cfg.mimeLookup(filename);
      return Ok((buf.value, mimeType));
    }

    /** `saveFile`, step by step. */
    method SaveFile(filename: string, value: Bytes, faults: Faults) returns (r: Result<string>)
      modifies this
      ensures SaveOutcome(r, fs) == SaveOf(cfg, old(fs), filename, value, faults)
    {
      var made := AttemptMkdir(fs, Dirname(SafePath(cfg.cwd, filename)), faults.mkdir);
      if made.Err? {
        return Err(made.error);
      }
      fs := made.value;
      var read := AttemptRead(fs, SafePath(cfg.cwd, filename), faults.backupRead);
      var backup: Bytes;
      if read.Ok? {
        backup := read.value;
      } else if read.error == ENOENT {
        backup := [];
      } else {
        return Err(read.error);
      }
      var (writeErr, written) := AttemptWrite(fs, SafePath(cfg.cwd, filename), value, faults.write);
      fs := written;
      if writeErr.Some? {
        var (_, restored) := AttemptWrite(fs, SafePath(cfg.cwd, filename), backup, faults.restore);
        fs := restored;
        return Err(writeErr.value);
      }
      return Ok(cfg.md5Hex(value));
    }

    /** `renameFile` */
    method RenameFile(oldname: string, newname: string) returns (r: Result<()>)
      modifies this
      ensures var res := RenameOf(cfg, old(fs), oldname, newname);
        if res.Ok? then r == Ok(()) && fs == res.value else r == Err(res.error) && fs == old(fs)
      ensures forall k ::
        (!Under(k, SafePath(cfg.cwd, oldname)) && !Under(k, SafePath(cfg.cwd, newname))
         && k != Dirname(SafePath(cfg.cwd, oldname)) && k != Dirname(SafePath(cfg.cwd, newname)))
        ==> SameAt(old(fs), fs, k)
    {
      var res := Rename(fs, SafePath(cfg.cwd, oldname), SafePath(cfg.cwd, newname));
      if res.Err? {
        return Err(res.error);
      }
      RenameFrame(fs, SafePath(cfg.cwd, oldname), SafePath(cfg.cwd, newname));
      fs := res.value;
      return Ok(());
    }

    /** `deleteFile` */
    method DeleteFile(filename: string) returns (r: Result<()>)
      modifies this
      ensures var res := DeleteOf(cfg, old(fs), filename);
        if res.Ok? then r == Ok(()) && fs == res.value else r == Err(res.error) && fs == old(fs)
      ensures forall k ::
        (k != SafePath(cfg.cwd, filename) && k != Dirname(SafePath(cfg.cwd, filename)))
        ==> SameAt(old(fs), fs, k)
    {
      var res := Unlink(fs, SafePath(cfg.cwd, filename));
      if res.Err? {
        return Err(res.error);
      }
      UnlinkFrame(fs, SafePath(cfg.cwd, filename));
      fs := res.value;
      return Ok(());
    }
  }

  // ---------------------------------------------------------------------
  // Properties of saveFile used by the class

  lemma AttemptWriteFrame(fs: Fs, p: string, data: Bytes, fault: Option<WriteFault>)
    ensures forall k :: k != p && k != Dirname(p) ==> SameAt(fs, AttemptWrite(fs, p, data, fault).1, k)
  {
    if fault.None? && WriteFile(fs, p, data).Ok? {
      WriteFileFrame(fs, p, data);
    } else if fault.Some? && fault.value.residue.Some? && WriteFile(fs, p, fault.value.residue.value).Ok? {
      WriteFileFrame(fs, p, fault.value.residue.value);
    }
  }

  lemma SaveIntoFrame(cfg: Config, fs: Fs, p: string, value: Bytes, faults: Faults)
    ensures forall k :: k != p && k != Dirname(p) ==> SameAt(fs, SaveInto(cfg, fs, p, value, faults).fs, k)
  {
    var read := AttemptRead(fs, p, faults.backupRead);
    var backup := if read.Ok? then read.value else [];
    AttemptWriteFrame(fs, p, value, faults.write);
    AttemptWriteFrame(AttemptWrite(fs, p, value, faults.write).1, p, backup, faults.restore);
  }

  /** Whatever happens, a save changes only the saved path and the directories
      on the way up from its parent. */
  lemma SaveFrame(cfg: Config, fs: Fs, filename: string, value: Bytes, faults: Faults)
    ensures var p := SafePath(cfg.cwd, filename);
      forall k :: k != p && !OnChain(k, Dirname(p)) ==> SameAt(fs, SaveOf(cfg, fs, filename, value, faults).fs, k)
  {
    var p := SafePath(cfg.cwd, filename);
    var d := Dirname(p);
    var made := AttemptMkdir(fs, d, faults.mkdir);
    if made.Ok? {
      var out := SaveInto(cfg, made.value, p, value, faults);
      assert SaveOf(cfg, fs, filename, value, faults) == out;
      MkdirPFrame(fs, d);
      SaveIntoFrame(cfg, made.value, p, value, faults);
      forall k | k != p && !OnChain(k, d)
        ensures SameAt(fs, out.fs, k)
      {
        assert SameAt(fs, made.value, k);
        assert k != d;
        assert SameAt(made.value, out.fs, k);
      }
    }
  }

  /** A successful save stores the value at the safe path, leaves its parent a directory, and returns its md5. */
  lemma SaveSuccess(cfg: Config, fs: Fs, filename: string, value: Bytes, faults: Faults)
    ensures var out := SaveOf(cfg, fs, filename, value, faults);
      var p := SafePath(cfg.cwd, filename);
      out.result.Ok? ==>
        out.result.value == cfg.md5Hex(value) &&
        p in out.fs && out.fs[p] == File(value) &&
        Dirname(p) in out.fs && out.fs[Dirname(p)].Dir?
  {
    var p := SafePath(cfg.cwd, filename);
    var made := AttemptMkdir(fs, Dirname(p), faults.mkdir);
    if made.Ok? && faults.write.None? && WriteFile(made.value, p, value).Ok? {
      WriteFileFrame(made.value, p, value);
    }
  }

  /** One more element of the list: it is entered into the dictionary over what came before. */
  lemma ToDictStep(infos: seq<FileInfo>, i: nat)
    requires i < |infos|
    ensures ToDict(infos[..i + 1]) == Assign(ToDict(infos[..i]), infos[i].filename, infos[i].entry)
  {
    assert infos[..i + 1][..i] == infos[..i];
  }

  /** One more entry of a listing: its results are appended, or its error ends the walk. */
  lemma WalkEntriesStep(cfg: Config, fs: Fs, directory: string, files: seq<string>, i: nat, depth: nat, acc: seq<FileInfo>)
    requires depth <= 3 && i < |files|
    requires WalkEntries(cfg, fs, directory, files[..i], depth) == Ok(acc)
    ensures var one := WalkEntry(cfg, fs, directory, files[i], depth);
      WalkEntries(cfg, fs, directory, files[..i + 1], depth) == (if one.Ok? then Ok(acc + one.value) else Err(one.error))
  {
    assert files[..i + 1][..i] == files[..i];
  }

  /** The walk reports the first failing entry in listing order: once a
      prefix of the listing fails, the whole listing fails the same way. */
  lemma {:induction false} WalkEntriesFirstError(cfg: Config, fs: Fs, directory: string, files: seq<string>, j: nat, depth: nat)
    requires depth <= 3 && j <= |files|
    requires WalkEntries(cfg, fs, directory, files[..j], depth).Err?
    ensures WalkEntries(cfg, fs, directory, files, depth) == WalkEntries(cfg, fs, directory, files[..j], depth)
    decreases |files| - j
  {
    if j == |files| {
      assert files[..j] == files;
    } else {
      assert files[..j + 1][..j] == files[..j];
      WalkEntriesFirstError(cfg, fs, directory, files, j + 1, depth);
    }
  }
}
