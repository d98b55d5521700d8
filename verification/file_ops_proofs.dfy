/** Round trips and failure behaviour of the gateway's single-file
    operations (back-filesystem/src/working-util.js:122-136, 196-269): `getFileInfo`,
    `saveFile`, `renameFile`, `deleteFile` and `readBinary`. */
module FileOpsProofs {
  import opened Common
  import opened Paths
  import opened FileSystem
  import opened Classifier
  import opened Gateway

  // ---------------------------------------------------------------------
  // Reading

  /** `getFileInfo` of a regular file reports its classification; of a missing path, ENOENT. */
  lemma GetFileInfoReports(cfg: Config, fs: Fs, filename: string)
    ensures var p := SafePath(cfg.cwd, filename);
      (p in fs && fs[p].File? ==> GetFileInfoOf(cfg, fs, filename) == Ok(InfoFor(cfg, filename, fs[p].data))) &&
      (p !in fs ==> GetFileInfoOf(cfg, fs, filename) == Err(ENOENT))
  {
    var p := SafePath(cfg.cwd, filename);
    if p in fs && fs[p].File? {
      FileInfoOfFile(cfg, fs, filename, p, Relative(cfg.processCwd, cfg.cwd, p), fs[p].data);
    }
  }

  /** `getFileInfo` and `readBinary` look at nothing but the safe path of the name. */
  lemma ReadsOnlySafePath(cfg: Config, fs1: Fs, fs2: Fs, filename: string)
    requires SameAt(fs1, fs2, SafePath(cfg.cwd, filename))
    ensures GetFileInfoOf(cfg, fs1, filename) == GetFileInfoOf(cfg, fs2, filename)
    ensures ReadBinaryOf(cfg, fs1, filename) == ReadBinaryOf(cfg, fs2, filename)
  {
  }

  // ---------------------------------------------------------------------
  // Saving

  /** The two early exits: a failed mkdir of the parent is reported and
      changes nothing; a failed backup read other than ENOENT is reported
      and nothing is written. */
  lemma SaveAborts(cfg: Config, fs: Fs, filename: string, value: Bytes, faults: Faults)
    ensures var p := SafePath(cfg.cwd, filename);
      var made := AttemptMkdir(fs, Dirname(p), faults.mkdir);
      (made.Err? ==> SaveOf(cfg, fs, filename, value, faults) == SaveOutcome(Err(made.error), fs)) &&
      (made.Ok? && AttemptRead(made.value, p, faults.backupRead).Err? &&
       AttemptRead(made.value, p, faults.backupRead).error != ENOENT ==>
         SaveOf(cfg, fs, filename, value, faults) ==
         SaveOutcome(Err(AttemptRead(made.value, p, faults.backupRead).error), made.value))
  {
  }

  /** After a successful save, `getFileInfo` reports the saved value, `readBinary`
      returns it, and the reported hash is its md5. */
  lemma SaveThenRead(cfg: Config, fs: Fs, filename: string, value: Bytes, faults: Faults)
    requires SaveOf(cfg, fs, filename, value, faults).result.Ok?
    ensures var out := SaveOf(cfg, fs, filename, value, faults);
      out.result == Ok(cfg.md5Hex(value)) &&
      GetFileInfoOf(cfg, out.fs, filename) == Ok(InfoFor(cfg, filename, value)) &&
      ReadBinaryOf(cfg, out.fs, filename) == Ok((value, cfg.mimeLookup(filename)))
  {
    SaveSuccess(cfg, fs, filename, value, faults);
    GetFileInfoReports(cfg, SaveOf(cfg, fs, filename, value, faults).fs, filename);
  }

  /** Saving over an existing regular file in an existing directory, with no
      I/O failure, replaces that one entry and nothing else. */
  lemma SaveOverExisting(cfg: Config, fs: Fs, filename: string, value: Bytes)
    requires var p := SafePath(cfg.cwd, filename);
      p in fs && fs[p].File? && Dirname(p) in fs && fs[Dirname(p)].Dir?
    ensures var p := SafePath(cfg.cwd, filename);
      SaveOf(cfg, fs, filename, value, NoFaults) == SaveOutcome(Ok(cfg.md5Hex(value)), fs[p := File(value)])
  {
  }

  /** A failed write is reported with the write's own error, whether or not
      putting the backup back fails too. */
  lemma SaveReportsWriteError(cfg: Config, fs: Fs, filename: string, value: Bytes, faults: Faults)
    requires faults.mkdir.None? && faults.backupRead.None? && faults.write.Some?
    requires var p := SafePath(cfg.cwd, filename);
      MkdirP(fs, Dirname(p)).Ok? && (ReadFile(MkdirP(fs, Dirname(p)).value, p).Ok? ||
                                     ReadFile(MkdirP(fs, Dirname(p)).value, p) == Err(ENOENT))
    ensures SaveOf(cfg, fs, filename, value, faults).result == Err(faults.write.value.code)
  {
  }

  /** Crash safety: when the write fails, whatever it left behind, and the
      backup is put back without failure, the file system is exactly as it
      was before the write (after the parent directories were made). */
  lemma SaveRollsBack(cfg: Config, fs: Fs, filename: string, value: Bytes, fault: WriteFault)
    requires var p := SafePath(cfg.cwd, filename);
      MkdirP(fs, Dirname(p)).Ok? && p in MkdirP(fs, Dirname(p)).value && MkdirP(fs, Dirname(p)).value[p].File?
    ensures SaveOf(cfg, fs, filename, value, Faults(None, None, Some(fault), None)) ==
      SaveOutcome(Err(fault.code), MkdirP(fs, Dirname(SafePath(cfg.cwd, filename))).value)
  {
    var p := SafePath(cfg.cwd, filename);
    var fs1 := MkdirP(fs, Dirname(p)).value;
    var before := fs1[p].data;
    var fs2 := AttemptWrite(fs1, p, value, Some(fault)).1;
    assert fs2 == fs1 || (fault.residue.Some? && fs2 == fs1[p := File(fault.residue.value)]);
    assert fs2[p := File(before)] == fs1;
  }

  /** The round trip of a save that fails after one that succeeded: the file
      system is left exactly as the successful save left it, so the earlier
      content is still what `getFileInfo` and `readBinary` see. */
  lemma FailedSaveKeepsPrevious(cfg: Config, fs: Fs, filename: string, c1: Bytes, faults1: Faults, c2: Bytes, fault: WriteFault)
    requires SaveOf(cfg, fs, filename, c1, faults1).result.Ok?
    ensures var fs1 := SaveOf(cfg, fs, filename, c1, faults1).fs;
      var out := SaveOf(cfg, fs1, filename, c2, Faults(None, None, Some(fault), None));
      out == SaveOutcome(Err(fault.code), fs1) &&
      GetFileInfoOf(cfg, out.fs, filename) == Ok(InfoFor(cfg, filename, c1)) &&
      ReadBinaryOf(cfg, out.fs, filename) == Ok((c1, cfg.mimeLookup(filename)))
  {
    var fs1 := SaveOf(cfg, fs, filename, c1, faults1).fs;
    SaveSuccess(cfg, fs, filename, c1, faults1);
    SaveThenRead(cfg, fs, filename, c1, faults1);
    SaveRollsBack(cfg, fs1, filename, c2, fault);
  }

  /** A failed save of a file that did not exist leaves an empty file behind:
      the missing file's backup is the empty content, and it is written back. */
  lemma FailedSaveOfNewFileLeavesEmptyFile(cfg: Config, fs: Fs, filename: string, value: Bytes, code: Errno)
    requires var p := SafePath(cfg.cwd, filename);
      MkdirP(fs, Dirname(p)).Ok? && p !in MkdirP(fs, Dirname(p)).value && WriteFile(MkdirP(fs, Dirname(p)).value, p, []).Ok?
    ensures var out := SaveOf(cfg, fs, filename, value, Faults(None, None, Some(WriteFault(code, None)), None));
      out.result == Err(code) && SafePath(cfg.cwd, filename) in out.fs &&
      out.fs[SafePath(cfg.cwd, filename)] == File([])
  {
    var p := SafePath(cfg.cwd, filename);
    WriteFileFrame(MkdirP(fs, Dirname(p)).value, p, []);
  }

  // ---------------------------------------------------------------------
  // Deleting and renaming

  /** After a successful delete the name is gone for `getFileInfo` and `readBinary`. */
  lemma DeleteThenRead(cfg: Config, fs: Fs, filename: string)
    requires DeleteOf(cfg, fs, filename).Ok?
    requires Dirname(SafePath(cfg.cwd, filename)) != SafePath(cfg.cwd, filename)
    ensures GetFileInfoOf(cfg, DeleteOf(cfg, fs, filename).value, filename) == Err(ENOENT)
    ensures ReadBinaryOf(cfg, DeleteOf(cfg, fs, filename).value, filename) == Err(ENOENT)
  {
    UnlinkFrame(fs, SafePath(cfg.cwd, filename));
  }

  /** After renaming a regular file, the new name shows its content and the old name is gone. */
  lemma RenameThenRead(cfg: Config, fs: Fs, oldname: string, newname: string)
    requires RenameOf(cfg, fs, oldname, newname).Ok?
    requires var a := SafePath(cfg.cwd, oldname); var b := SafePath(cfg.cwd, newname);
      a != b && a in fs && fs[a].File? &&
      !Under(a, b) && Dirname(b) != b && Dirname(a) != b && Dirname(b) != a
    ensures var fs' := RenameOf(cfg, fs, oldname, newname).value;
      var data := fs[SafePath(cfg.cwd, oldname)].data;
      GetFileInfoOf(cfg, fs', newname) == Ok(InfoFor(cfg, newname, data)) &&
      ReadBinaryOf(cfg, fs', newname) == Ok((data, cfg.mimeLookup(newname))) &&
      GetFileInfoOf(cfg, fs', oldname) == Err(ENOENT)
  {
    var a := SafePath(cfg.cwd, oldname);
    var b := SafePath(cfg.cwd, newname);
    RenameFileMoves(fs, a, b);
    var fs' := Rename(fs, a, b).value;
    GetFileInfoReports(cfg, fs', newname);
    GetFileInfoReports(cfg, fs', oldname);
  }
}
