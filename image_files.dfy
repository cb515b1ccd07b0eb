/** The image files the member and client handlers keep beside their rows: how an uploaded image is
    named, how a new record's image is saved, and the backup / write / restore sequence an update runs
    so that a failed update leaves the old image in place. */
module ImageFiles {
  import opened Wrappers
  import Text
  import opened Numbers
  import opened Paths
  import opened FileSystem

  /** The extension of the uploaded file's name, ".jpg" when it has none. */
  function UploadExt(uploadName: string): (e: string)
    ensures e != [] && e[0] == '.'
    ensures forall i :: 1 <= i < |e| ==> e[i] != '.' && e[i] != '/'
    ensures Ext(uploadName) != [] ==> e == Ext(uploadName)
  {
    var ext := Ext(uploadName);
    if ext == [] then ".jpg" else ext
  }

  /** `f` opens with the id's digits and an underscore, and `rest` characters follow them. */
  predicate NamedFor(f: string, id: int, rest: nat) {
    |f| == |FormatInt(id)| + 1 + rest && FormatInt(id) + "_" <= f
  }

  /** `<id>_<name with each space replaced by '_'><extension>`. */
  function ImageFileName(id: int, name: string, uploadName: string): (f: string)
    ensures NamedFor(f, id, |name| + |UploadExt(uploadName)|)
  {
    FormatInt(id) + "_" + Text.Replace(name, ' ', '_') + UploadExt(uploadName)
  }

  /** An image name ends in the upload's extension, and no space survives in it before that. */
  lemma ImageFileNameShape(id: int, name: string, uploadName: string)
    ensures Ext(ImageFileName(id, name, uploadName)) == UploadExt(uploadName)
    ensures var f := ImageFileName(id, name, uploadName);
      forall i :: 0 <= i < |f| - |UploadExt(uploadName)| ==> f[i] != ' '
  {
    var prefix := FormatInt(id) + "_";
    var stem := prefix + Text.Replace(name, ' ', '_');
    var e := UploadExt(uploadName);
    ImageNameParts(id, name, uploadName);
    ExtOfSuffix(stem, e);
    StemHasNoSpace(id, name);
    var f := stem + e;
    assert forall i :: 0 <= i < |stem| ==> f[i] == stem[i];
  }

  /** Neither the id nor the name with its spaces replaced holds a space. */
  lemma StemHasNoSpace(id: int, name: string)
    ensures var stem := FormatInt(id) + "_" + Text.Replace(name, ' ', '_');
      forall i :: 0 <= i < |stem| ==> stem[i] != ' '
  {
    var digits := FormatInt(id);
    var r := Text.Replace(name, ' ', '_');
    var stem := digits + "_" + r;
    forall i | 0 <= i < |stem|
      ensures stem[i] != ' '
    {
      if i < |digits| {
        assert stem[i] == digits[i];
      } else if i > |digits| {
        assert stem[i] == r[i - |digits| - 1];
      }
    }
  }

  /** Two records with different ids never get the same image name, whatever their names and uploads. */
  lemma ImageFileNameSeparatesIds(a: int, nameA: string, uploadA: string, b: int, nameB: string, uploadB: string)
    requires ImageFileName(a, nameA, uploadA) == ImageFileName(b, nameB, uploadB)
    ensures a == b
  {
    var fa, fb := FormatInt(a), FormatInt(b);
    var s := ImageFileName(a, nameA, uploadA);
    assert s[|fa|] == '_' && s[..|fa|] == fa;
    assert s[|fb|] == '_' && s[..|fb|] == fb;
    FormatInjective(a, b);
  }

  /** `<base>_backup<ext>`, where `<ext>` is the old name's extension and `<base>` what precedes it. */
  function BackupName(link: string): (b: string)
    ensures |b| == |link| + 7
    ensures var stem := |link| - |Ext(link)|;
      b[..stem] == link[..stem] && b[stem..] == "_backup" + Ext(link)
  {
    var ext := Ext(link);
    var base := TrimSuffix(link, ext);
    assert base == link[..|link| - |ext|] by {
      assert base + ext == link;
      assert link[..|link| - |ext|] + ext == link;
    }
    var b := base + "_backup" + ext;
    assert b[..|base|] == base && b[|base|..] == "_backup" + ext;
    b
  }

  /** A backup keeps the old image's extension, and distinct images get distinct backups. */
  lemma BackupNameKeepsExt(link: string)
    ensures Ext(BackupName(link)) == Ext(link)
  {
    var ext := Ext(link);
    var base := TrimSuffix(link, ext);
    if ext == [] {
      assert BackupName(link) == link + "_backup";
      ExtAppend(link, "_backup");
    } else {
      assert BackupName(link) == (base + "_backup") + ext;
      ExtOfSuffix(base + "_backup", ext);
    }
  }

  lemma BackupNameInjective(a: string, b: string)
    requires BackupName(a) == BackupName(b)
    ensures a == b
  {
    BackupNameKeepsExt(a);
    BackupNameKeepsExt(b);
    var ext := Ext(a);
    var baseA, baseB := TrimSuffix(a, ext), TrimSuffix(b, ext);
    assert BackupName(a)[..|baseA|] == baseA;
    assert BackupName(b)[..|baseB|] == baseB;
  }

  /** Renaming a record from N to "N backup" while uploading an image with the same extension gives the
      new image exactly the backup name of the old one. */
  lemma RenameToBackupName(id: int, name: string, uploadName: string)
    ensures ImageFileName(id, name + " backup", uploadName) == BackupName(ImageFileName(id, name, uploadName))
  {
    var prefix := FormatInt(id) + "_";
    var r := Text.Replace(name, ' ', '_');
    var ext := UploadExt(uploadName);
    ImageNameParts(id, name + " backup", uploadName);
    ImageNameParts(id, name, uploadName);
    ReplaceBackupSuffix(name);
    Regroup(prefix, r, "_backup", ext);
    BackupOfSuffixed(prefix + r, ext);
  }

  // Used by RenameToBackupName to regroup the parts of an image name; a sequence-algebra step stated
  // apart so that the proofs that use it stay small for the solver.
  lemma Regroup(a: string, b: string, c: string, d: string)
    ensures a + (b + c) + d == (a + b) + c + d
  {
  }

  // Used by ImageFileNameShape and RenameToBackupName: an image name is its four parts in order.
  lemma ImageNameParts(id: int, name: string, uploadName: string)
    ensures ImageFileName(id, name, uploadName) == FormatInt(id) + "_" + Text.Replace(name, ' ', '_') + UploadExt(uploadName)
  {
  }

  // Used by RenameToBackupName: the spaces of "N backup" become '_' part by part.
  lemma ReplaceBackupSuffix(name: string)
    ensures Text.Replace(name + " backup", ' ', '_') == Text.Replace(name, ' ', '_') + "_backup"
  {
    ReplaceConcat(name, " backup");
    ReplaceBackupWord();
  }

  // Used by ReplaceBackupSuffix: " backup" becomes "_backup".
  lemma ReplaceBackupWord()
    ensures Text.Replace(" backup", ' ', '_') == "_backup"
  {
    var b := Text.Replace(" backup", ' ', '_');
    forall i | 0 <= i < |b|
      ensures b[i] == "_backup"[i]
    {
    }
  }

  /** Replacing a character is done piece by piece. */
  lemma {:induction false} ReplaceConcat(a: string, b: string)
    ensures Text.Replace(a + b, ' ', '_') == Text.Replace(a, ' ', '_') + Text.Replace(b, ' ', '_')
  {
    if a == [] {
      assert a + b == b;
    } else {
      var head := [if a[0] == ' ' then '_' else a[0]];
      ReplaceConcat(a[1..], b);
      TailOfConcat(a, b);
      assert Text.Replace(a + b, ' ', '_') == head + Text.Replace(a[1..] + b, ' ', '_');
      assert Text.Replace(a, ' ', '_') == head + Text.Replace(a[1..], ' ', '_');
      Assoc(head, Text.Replace(a[1..], ' ', '_'), Text.Replace(b, ' ', '_'));
    }
  }

  // Used by ReplaceConcat (TailOfConcat, Assoc) and by the gallery names (Assoc); sequence-algebra
  // steps stated apart so that the proofs that use them stay small for the solver.
  lemma TailOfConcat(a: string, b: string)
    requires a != []
    ensures (a + b)[0] == a[0] && (a + b)[1..] == a[1..] + b
  {
  }

  lemma Assoc(a: string, b: string, c: string)
    ensures a + (b + c) == (a + b) + c
  {
  }

  /** The backup of a name that ends in an extension puts "_backup" just before that extension. */
  lemma BackupOfSuffixed(stem: string, ext: string)
    requires ext != [] && ext[0] == '.'
    requires forall i :: 1 <= i < |ext| ==> ext[i] != '.' && ext[i] != '/'
    ensures BackupName(stem + ext) == stem + "_backup" + ext
  {
    ExtOfSuffix(stem, ext);
    assert (stem + ext)[|stem + ext| - |ext|..] == ext;
    assert TrimSuffix(stem + ext, ext) == stem;
  }

  // ----- Saving the image of a new record -----

  /** The operating-system failures saving a new image can meet. */
  datatype SaveFaults = SaveFaults(mkdir: bool, create: bool, copy: CopyResult)

  /** Make the directory, create the file, copy the upload in: the disk afterwards and the failure's
      message, if any. */
  function Save(files: Files, dir: string, name: string, data: Bytes, f: SaveFaults): (r: (Files, Option<string>))
    requires name != []
    ensures r.1.None? <==> !f.mkdir && !f.create && f.copy.Copied?
    ensures r.1.None? ==> Join(dir, name) in r.0 && r.0[Join(dir, name)] == data
    ensures f.mkdir || f.create ==> r.0 == files
    ensures !f.mkdir && !f.create ==> Join(dir, name) in r.0 && r.0[Join(dir, name)] == Written(data, f.copy)
    ensures forall p :: p != Join(dir, name) ==> (p in r.0 <==> p in files) && (p in files ==> r.0[p] == files[p])
  {
    if f.mkdir then (files, Some("server storage error"))
    else if f.create then (files, Some("failed to create image file"))
    else
      var written := files[Join(dir, name) := Written(data, f.copy)];
      (written, if f.copy.Copied? then None else Some("failed to save image content"))
  }

  method SaveUpload(disk: Disk, dir: string, name: string, data: Bytes, f: SaveFaults) returns (failure: Option<string>)
    requires name != []
    modifies disk
    ensures (disk.files, failure) == Save(old(disk.files), dir, name, data, f)
  {
    if f.mkdir {
      return Some("server storage error");
    }
    var path := Join(dir, name);
    var created := disk.Create(path, f.create);
    if !created {
      return Some("failed to create image file");
    }
    var copied := disk.Copy(path, data, f.copy);
    assert disk.files == old(disk.files)[path := Written(data, f.copy)];
    if !copied {
      return Some("failed to save image content");
    }
    failure := None;
  }

  // ----- Replacing the image of an existing record -----

  /** The operating-system and database failures an update with a new image can meet. */
  datatype UpdateFaults = UpdateFaults(
    backup: bool,       // renaming the old image to its backup name is refused
    mkdir: bool,        // creating the storage directory fails
    create: bool,       // creating the new image file fails
    copy: CopyResult,   // how copying the upload into it ends
    dbUpdate: bool,     // the row update fails
    removeNew: bool,    // removing the new image during clean-up is refused
    restore: bool,      // renaming the backup back to the old name is refused
    removeBackup: bool) // removing the backup after a successful update is refused

  const NoFaults := UpdateFaults(false, false, false, Copied, false, false, false, false)

  /** Step 1: move an existing old image aside. The backup path is "" when no backup was made. */
  function BackupOld(files: Files, dir: string, oldLink: string, refused: bool): (r: (Files, Path))
    ensures r.1 != "" <==> oldLink != "" && Join(dir, oldLink) in files && !refused
    ensures r.1 != "" ==> r.1 == Join(dir, BackupName(oldLink))
    ensures r.1 == "" ==> r.0 == files
  {
    if oldLink == "" then (files, "")
    else
      var backupPath := Join(dir, BackupName(oldLink));
      var (moved, ok) := AfterRename(files, Join(dir, oldLink), backupPath, refused);
      (moved, if ok then backupPath else "")
  }

  /** Moves the backup, when there is one, back to the old image's name. */
  function RestoreBackup(files: Files, dir: string, oldLink: string, backupPath: Path, refused: bool): (r: Files)
    ensures backupPath == "" ==> r == files
  {
    if backupPath == "" then files else AfterRename(files, backupPath, Join(dir, oldLink), refused).0
  }

  /** The disk once the new image has been written (or its writing failed), with the backup path and the
      failure's message. */
  datatype Staged = Staged(files: Files, backupPath: Path, failure: Option<string>)

  /** Back up the old image, then write the new one. */
  function Stage(files: Files, dir: string, oldLink: string, newName: string, data: Bytes, f: UpdateFaults): (s: Staged)
    ensures s.failure.None? <==> !f.mkdir && !f.create && f.copy.Copied?
    ensures s.backupPath != "" <==> oldLink != "" && Join(dir, oldLink) in files && !f.backup
    ensures s.backupPath != "" ==> s.backupPath == Join(dir, BackupName(oldLink))
  {
    var (afterBackup, backupPath) := BackupOld(files, dir, oldLink, f.backup);
    WriteNew(afterBackup, dir, oldLink, newName, backupPath, data, f)
  }

  /** Step 2: write the new image. Each failure restores the backup, and a failed copy first removes
      the partial file, but only when there is a backup. */
  function WriteNew(files: Files, dir: string, oldLink: string, newName: string, backupPath: Path, data: Bytes, f: UpdateFaults): (s: Staged)
    ensures s.backupPath == backupPath
    ensures s.failure.None? <==> !f.mkdir && !f.create && f.copy.Copied?
  {
    var newPath := Join(dir, newName);
    if f.mkdir then
      Staged(RestoreBackup(files, dir, oldLink, backupPath, f.restore), backupPath, Some("storage error"))
    else if f.create then
      Staged(RestoreBackup(files, dir, oldLink, backupPath, f.restore), backupPath, Some("failed to save new image"))
    else
      var written := files[newPath := Written(data, f.copy)];
      if f.copy.Copied? then Staged(written, backupPath, None)
      else
        var cleaned := if backupPath == "" then written else AfterRemove(written, newPath, f.removeNew).0;
        Staged(RestoreBackup(cleaned, dir, oldLink, backupPath, f.restore), backupPath, Some("failed to write new image"))
  }

  /** After the row update: on failure remove the new image and restore the backup; on success remove
      the backup. Nothing happens when no backup was made. */
  function Settle(files: Files, dir: string, oldLink: string, newName: string, backupPath: Path, dbOk: bool, f: UpdateFaults): (r: Files)
    ensures backupPath == "" ==> r == files
  {
    if backupPath == "" then files
    else if !dbOk then
      RestoreBackup(AfterRemove(files, Join(dir, newName), f.removeNew).0, dir, oldLink, backupPath, f.restore)
    else AfterRemove(files, backupPath, f.removeBackup).0
  }

  /** How an update that carries a new image ends. */
  datatype Outcome = StageFailed(message: string) | DbFailed | Committed

  /** The whole update of a record that carries a new image: stage, update the row, settle. */
  function Flow(files: Files, dir: string, oldLink: string, newName: string, data: Bytes, f: UpdateFaults): (r: (Files, Outcome))
    ensures r.1.Committed? <==> !f.mkdir && !f.create && f.copy.Copied? && !f.dbUpdate
    ensures r.1.DbFailed? <==> !f.mkdir && !f.create && f.copy.Copied? && f.dbUpdate
  {
    var s := Stage(files, dir, oldLink, newName, data, f);
    if s.failure.Some? then (s.files, StageFailed(s.failure.value))
    else if f.dbUpdate then (Settle(s.files, dir, oldLink, newName, s.backupPath, false, f), DbFailed)
    else (Settle(s.files, dir, oldLink, newName, s.backupPath, true, f), Committed)
  }

  method StageUpload(disk: Disk, dir: string, oldLink: string, newName: string, data: Bytes, f: UpdateFaults)
    returns (backupPath: Path, failure: Option<string>)
    modifies disk
    ensures Staged(disk.files, backupPath, failure) == Stage(old(disk.files), dir, oldLink, newName, data, f)
  {
    backupPath := BackUpOldImage(disk, dir, oldLink, f.backup);
    failure := WriteNewImage(disk, dir, oldLink, newName, backupPath, data, f);
  }

  method BackUpOldImage(disk: Disk, dir: string, oldLink: string, refused: bool) returns (backupPath: Path)
    modifies disk
    ensures (disk.files, backupPath) == BackupOld(old(disk.files), dir, oldLink, refused)
  {
    backupPath := "";
    if oldLink != "" {
      backupPath := Join(dir, BackupName(oldLink));
      var moved := disk.Rename(Join(dir, oldLink), backupPath, refused);
      if !moved {
        backupPath := "";
      }
    }
  }

  method WriteNewImage(disk: Disk, dir: string, oldLink: string, newName: string, backupPath: Path, data: Bytes, f: UpdateFaults)
    returns (failure: Option<string>)
    modifies disk
    ensures Staged(disk.files, backupPath, failure) == WriteNew(old(disk.files), dir, oldLink, newName, backupPath, data, f)
  {
    if f.mkdir {
      RestoreIfBackedUp(disk, dir, oldLink, backupPath, f.restore);
      return Some("storage error");
    }
    var newPath := Join(dir, newName);
    var created := disk.Create(newPath, f.create);
    if !created {
      RestoreIfBackedUp(disk, dir, oldLink, backupPath, f.restore);
      return Some("failed to save new image");
    }
    var copied := disk.Copy(newPath, data, f.copy);
    assert disk.files == old(disk.files)[newPath := Written(data, f.copy)];
    if !copied {
      if backupPath != "" {
        var _ := disk.Remove(newPath, f.removeNew);
        RestoreIfBackedUp(disk, dir, oldLink, backupPath, f.restore);
      }
      return Some("failed to write new image");
    }
    failure := None;
  }

  method RestoreIfBackedUp(disk: Disk, dir: string, oldLink: string, backupPath: Path, refused: bool)
    modifies disk
    ensures disk.files == RestoreBackup(old(disk.files), dir, oldLink, backupPath, refused)
  {
    if backupPath != "" {
      var _ := disk.Rename(backupPath, Join(dir, oldLink), refused);
    }
  }

  method SettleUpload(disk: Disk, dir: string, oldLink: string, newName: string, backupPath: Path, dbOk: bool, f: UpdateFaults)
    modifies disk
    ensures disk.files == Settle(old(disk.files), dir, oldLink, newName, backupPath, dbOk, f)
  {
    if backupPath != "" {
      if !dbOk {
        var _ := disk.Remove(Join(dir, newName), f.removeNew);
        RestoreIfBackedUp(disk, dir, oldLink, backupPath, f.restore);
      } else {
        var _ := disk.Remove(backupPath, f.removeBackup);
      }
    }
  }

  // ----- What the update sequence guarantees, and where it falls short -----

  /** The backup's path differs from the old image's own. */
  lemma BackupPathDiffers(dir: string, oldLink: string)
    requires oldLink != ""
    ensures Join(dir, BackupName(oldLink)) != Join(dir, oldLink)
  {
    if Join(dir, BackupName(oldLink)) == Join(dir, oldLink) {
      JoinInjective(dir, BackupName(oldLink), oldLink);
    }
  }

  /** Any failed update whose backup and restore renames succeed leaves the old image under its own name
      with its old contents, and no backup behind, provided the new image's name is not the backup's.
      When the failure came after the new file was created (its copy or the row update failed) and its
      removal is not refused, the new file is gone too, unless it took the old image's very name. */
  lemma FailureRestoresOldImage(files: Files, dir: string, oldLink: string, newName: string, data: Bytes, f: UpdateFaults)
    requires oldLink != "" && Join(dir, oldLink) in files
    requires !f.backup && !f.restore
    requires Join(dir, newName) != Join(dir, BackupName(oldLink))
    requires !Flow(files, dir, oldLink, newName, data, f).1.Committed?
    ensures var r := Flow(files, dir, oldLink, newName, data, f).0;
      Join(dir, oldLink) in r && r[Join(dir, oldLink)] == files[Join(dir, oldLink)]
    ensures Join(dir, BackupName(oldLink)) !in Flow(files, dir, oldLink, newName, data, f).0
    ensures !f.mkdir && !f.create && !f.removeNew && Join(dir, newName) != Join(dir, oldLink) ==>
      Join(dir, newName) !in Flow(files, dir, oldLink, newName, data, f).0
  {
    BackupPathDiffers(dir, oldLink);
    var oldPath, backupPath, newPath := Join(dir, oldLink), Join(dir, BackupName(oldLink)), Join(dir, newName);
    var moved := BackupOld(files, dir, oldLink, f.backup).0;
    assert backupPath in moved && moved[backupPath] == files[oldPath];
    if !f.mkdir && !f.create {
      var written := moved[newPath := Written(data, f.copy)];
      assert backupPath in written && written[backupPath] == files[oldPath];
      var cleaned := AfterRemove(written, newPath, f.removeNew).0;
      assert backupPath in cleaned && cleaned[backupPath] == files[oldPath];
      if !f.removeNew {
        assert newPath !in cleaned;
      }
    }
  }

  /** A committed update leaves the new image, complete, under its new name. When a backup was made and
      its removal is not refused, the backup is gone; and the old name no longer holds an image unless the
      new image took that very name. */
  lemma SuccessInstallsNewImage(files: Files, dir: string, oldLink: string, newName: string, data: Bytes, f: UpdateFaults)
    requires Flow(files, dir, oldLink, newName, data, f).1.Committed?
    requires oldLink == "" || Join(dir, newName) != Join(dir, BackupName(oldLink))
    ensures var r := Flow(files, dir, oldLink, newName, data, f).0;
      Join(dir, newName) in r && r[Join(dir, newName)] == data
    ensures oldLink != "" && Join(dir, oldLink) in files && !f.backup && !f.removeBackup ==>
      Join(dir, BackupName(oldLink)) !in Flow(files, dir, oldLink, newName, data, f).0
    ensures oldLink != "" && Join(dir, oldLink) in files && !f.backup && Join(dir, newName) != Join(dir, oldLink) ==>
      Join(dir, oldLink) !in Flow(files, dir, oldLink, newName, data, f).0
  {
    if oldLink != "" {
      BackupPathDiffers(dir, oldLink);
    }
  }

  /** An update touches at most three paths: the old image's, its backup's and the new image's. */
  lemma OnlyImagePathsChange(files: Files, dir: string, oldLink: string, newName: string, data: Bytes, f: UpdateFaults, p: Path)
    requires p != Join(dir, oldLink) && p != Join(dir, BackupName(oldLink)) && p != Join(dir, newName)
    ensures var r := Flow(files, dir, oldLink, newName, data, f).0;
      (p in r <==> p in files) && (p in files ==> r[p] == files[p])
  {
    var b := BackupOld(files, dir, oldLink, f.backup);
    BackupOldKeeps(files, dir, oldLink, f.backup, p);
    var s := WriteNew(b.0, dir, oldLink, newName, b.1, data, f);
    WriteNewKeeps(b.0, dir, oldLink, newName, b.1, data, f, p);
    var r := FlowFiles(files, dir, oldLink, newName, data, f, s);
    if s.failure.None? {
      SettleKeeps(s.files, dir, oldLink, newName, s.backupPath, !f.dbUpdate, f, p);
    }
    SameAtTransitive(r, s.files, files, p);
  }

  /** The disk after Flow, in terms of the staged disk. */
  lemma FlowFiles(files: Files, dir: string, oldLink: string, newName: string, data: Bytes, f: UpdateFaults, s: Staged)
    returns (r: Files)
    requires s == WriteNew(BackupOld(files, dir, oldLink, f.backup).0, dir, oldLink, newName, BackupOld(files, dir, oldLink, f.backup).1, data, f)
    ensures r == Flow(files, dir, oldLink, newName, data, f).0
    ensures r == if s.failure.Some? then s.files else Settle(s.files, dir, oldLink, newName, s.backupPath, !f.dbUpdate, f)
  {
    assert s == Stage(files, dir, oldLink, newName, data, f);
    r := Flow(files, dir, oldLink, newName, data, f).0;
  }

  // Used by OnlyImagePathsChange to chain the three stages of an update at one path.
  lemma SameAtTransitive(a: Files, b: Files, c: Files, p: Path)
    requires SameAt(a, b, p) && SameAt(b, c, p)
    ensures SameAt(a, c, p)
  {
  }

  /** `a` and `b` agree on the path `p`. */
  predicate SameAt(a: Files, b: Files, p: Path) {
    (p in a <==> p in b) && (p in b ==> a[p] == b[p])
  }

  // BackupOldKeeps, WriteNewKeeps and SettleKeeps are the stages of OnlyImagePathsChange: each stage
  // leaves every path but the old image's, its backup's and the new image's as it was.
  lemma BackupOldKeeps(files: Files, dir: string, oldLink: string, refused: bool, p: Path)
    requires p != Join(dir, oldLink) && p != Join(dir, BackupName(oldLink))
    ensures SameAt(BackupOld(files, dir, oldLink, refused).0, files, p)
  {
  }

  lemma SettleKeeps(files: Files, dir: string, oldLink: string, newName: string, backupPath: Path, dbOk: bool, f: UpdateFaults, p: Path)
    requires p != Join(dir, oldLink) && (backupPath == "" || p != backupPath) && p != Join(dir, newName)
    ensures SameAt(Settle(files, dir, oldLink, newName, backupPath, dbOk, f), files, p)
  {
  }

  lemma WriteNewKeeps(files: Files, dir: string, oldLink: string, newName: string, backupPath: Path, data: Bytes, f: UpdateFaults, p: Path)
    requires p != Join(dir, oldLink) && (backupPath == "" || p != backupPath) && p != Join(dir, newName)
    ensures SameAt(WriteNew(files, dir, oldLink, newName, backupPath, data, f).files, files, p)
  {
  }

  /** Without a backup a failed copy leaves the partial file on disk. */
  lemma PartialFileKeptWithoutBackup(files: Files, dir: string, oldLink: string, newName: string, data: Bytes, f: UpdateFaults)
    requires oldLink == "" || Join(dir, oldLink) !in files || f.backup
    requires !f.mkdir && !f.create && f.copy.CopyFailsAfter?
    ensures Flow(files, dir, oldLink, newName, data, f).1 == StageFailed("failed to write new image")
    ensures var r := Flow(files, dir, oldLink, newName, data, f).0;
      Join(dir, newName) in r && r[Join(dir, newName)] == Written(data, f.copy)
  {
  }

  /** Without a backup a failed row update leaves the new image on disk although the row still names
      the old one. */
  lemma NewImageKeptOnDbFailureWithoutBackup(files: Files, dir: string, oldLink: string, newName: string, data: Bytes, f: UpdateFaults)
    requires oldLink == "" || Join(dir, oldLink) !in files || f.backup
    requires !f.mkdir && !f.create && f.copy.Copied? && f.dbUpdate
    ensures Flow(files, dir, oldLink, newName, data, f).1 == DbFailed
    ensures var r := Flow(files, dir, oldLink, newName, data, f).0;
      Join(dir, newName) in r && r[Join(dir, newName)] == data
  {
  }

  /** When the new image's name equals the old image's backup name, a fault-free update commits but
      deletes the image it has just written: the row then names a file that does not exist. */
  lemma BackupNameClashLosesNewImage(files: Files, dir: string, oldLink: string, data: Bytes)
    requires oldLink != "" && Join(dir, oldLink) in files
    ensures var r := Flow(files, dir, oldLink, BackupName(oldLink), data, NoFaults);
      r.1 == Committed && Join(dir, BackupName(oldLink)) !in r.0
  {
  }
}
