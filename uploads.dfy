/** The image steps the member and client handlers share: attaching an image to a freshly inserted row,
    and updating a row together with its image. */
module Uploads {
  import opened Wrappers
  import opened FileSystem
  import opened Repository
  import opened ServerResponse
  import opened Requests
  import opened ImageFiles
  import Paths

  /** After the row has been inserted under `id`: with no file the reply is 201 at once; an unreadable
      file is a 400 although the row stays; otherwise the image is saved as ImageFileName(id, name, ...)
      under `dir` and its name recorded in the row, where a failed link update is ignored. `noun` names
      the entity in the messages ("Member", "Client"); `withLink` gives the row carrying a link. The
      result is the table's rows, the disk and the reply. */
  function Attached<T>(rows: map<int, T>, files: Files, dir: string, noun: string, id: int, name: string,
                       withLink: string -> T, upload: Upload, save: SaveFaults, linkFails: bool): (r: (map<int, T>, Files, Reply))
    ensures r.0.Keys == rows.Keys
    ensures forall k :: k in rows && k != id ==> r.0[k] == rows[k]
    ensures r.2.code == StatusCreated ==> r.2.body.CreatedBody? && r.2.body.id == id
    ensures !upload.File? ==> r.0 == rows && r.1 == files
  {
    match upload
    case NoFile => (rows, files, Reply(StatusCreated, CreatedBody(noun + " created (no image uploaded)", id)))
    case BadFile => (rows, files, BadRequest("invalid image file"))
    case File(uploadName, data) =>
      var filename := ImageFileName(id, name, uploadName);
      var (saved, failure) := Save(files, dir, filename, data, save);
      if failure.Some? then (rows, saved, ServerError(failure))
      else
        (if !linkFails && id in rows then rows[id := withLink(filename)] else rows,
         saved,
         Reply(StatusCreated, CreatedBody(noun + " created and image saved successfully", id)))
  }

  /** The reply is 201 exactly when no file was sent or the file was saved; a saved file lands at
      ImageFileName under `dir` with the upload's bytes, and nothing else on the disk changes. */
  lemma AttachedOutcome<T>(rows: map<int, T>, files: Files, dir: string, noun: string, id: int, name: string,
                           withLink: string -> T, upload: Upload, save: SaveFaults, linkFails: bool)
    ensures var (_, after, reply) := Attached(rows, files, dir, noun, id, name, withLink, upload, save, linkFails);
      reply.code == StatusCreated <==> upload.NoFile? || (upload.File? && !save.mkdir && !save.create && save.copy.Copied?)
    ensures var (_, after, reply) := Attached(rows, files, dir, noun, id, name, withLink, upload, save, linkFails);
      upload.File? && reply.code == StatusCreated ==>
        var path := Paths.Join(dir, ImageFileName(id, name, upload.filename));
        path in after && after[path] == upload.data
        && forall p :: p != path ==> (p in after <==> p in files) && (p in files ==> after[p] == files[p])
    ensures var (after, _, reply) := Attached(rows, files, dir, noun, id, name, withLink, upload, save, linkFails);
      upload.File? && reply.code == StatusCreated && !linkFails && id in rows ==>
        after[id] == withLink(ImageFileName(id, name, upload.filename))
  {
  }

  method AttachNewImage<T>(table: Table<T>, disk: Disk, dir: string, noun: string, id: int, name: string,
                           withLink: string -> T, upload: Upload, save: SaveFaults, linkFails: bool)
    returns (reply: Reply)
    requires table.Valid()
    modifies table, disk
    ensures table.Valid() && table.nextId == old(table.nextId)
    ensures (table.rows, disk.files, reply)
         == Attached(old(table.rows), old(disk.files), dir, noun, id, name, withLink, upload, save, linkFails)
  {
    match upload {
      case NoFile =>
        return Reply(StatusCreated, CreatedBody(noun + " created (no image uploaded)", id));
      case BadFile =>
        return BadRequest("invalid image file");
      case File(uploadName, data) =>
        var filename := ImageFileName(id, name, uploadName);
        var failure := SaveAndLink(table, disk, dir, id, filename, withLink(filename), data, save, linkFails);
        reply := if failure.Some? then ServerError(failure)
                 else Reply(StatusCreated, CreatedBody(noun + " created and image saved successfully", id));
    }
  }

  /** Saves the image as `filename` under `dir`; once it is saved, records `linked` as the row. */
  method SaveAndLink<T>(table: Table<T>, disk: Disk, dir: string, id: int, filename: string, linked: T, data: Bytes,
                        save: SaveFaults, linkFails: bool)
    returns (failure: Option<string>)
    requires table.Valid() && filename != []
    modifies table, disk
    ensures table.Valid() && table.nextId == old(table.nextId)
    ensures (disk.files, failure) == Save(old(disk.files), dir, filename, data, save)
    ensures table.rows == if failure.None? && !linkFails && id in old(table.rows) then old(table.rows)[id := linked] else old(table.rows)
  {
    failure := SaveUpload(disk, dir, filename, data, save);
    if failure.None? {
      var _ := table.Update(id, linked, linkFails);
    }
  }

  /** The end of an update once the form is merged into `row`. With a new image (its file name and
      bytes) the old image `oldLink` is backed up, the new one written, the row updated with the new
      link and the backup settled, as Flow describes; without one only the row is updated. */
  method UpdateWithImage<T>(table: Table<T>, disk: Disk, dir: string, id: int, row: T, withLink: string -> T,
                            oldLink: string, newImage: Option<(string, Bytes)>, f: UpdateFaults)
    returns (outcome: Outcome)
    requires table.Valid()
    modifies table, disk
    ensures table.Valid() && table.nextId == old(table.nextId)
    ensures newImage.None? ==>
      && disk.files == old(disk.files)
      && outcome == (if f.dbUpdate then DbFailed else Committed)
      && table.rows == (if !f.dbUpdate && id in old(table.rows) then old(table.rows)[id := row] else old(table.rows))
    ensures newImage.Some? ==>
      var (files, o) := Flow(old(disk.files), dir, oldLink, newImage.value.0, newImage.value.1, f);
      && disk.files == files
      && outcome == o
      && table.rows == (if o.Committed? && id in old(table.rows) then old(table.rows)[id := withLink(newImage.value.0)] else old(table.rows))
  {
    var stored := row;
    var backupPath: Path := "";
    var newName := "";
    if newImage.Some? {
      newName := newImage.value.0;
      var failure;
      backupPath, failure := StageUpload(disk, dir, oldLink, newName, newImage.value.1, f);
      if failure.Some? {
        return StageFailed(failure.value);
      }
      stored := withLink(newName);
    }
    var updated := table.Update(id, stored, f.dbUpdate);
    SettleUpload(disk, dir, oldLink, newName, backupPath, updated, f);
    outcome := if updated then Committed else DbFailed;
  }
}
