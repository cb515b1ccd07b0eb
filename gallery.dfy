/** The gallery handlers: a batch upload that inserts one row and writes one file per image, an update
    that may retitle an item and replace its image, a delete, and a listing. Gallery images are named
    after a sanitised title rather than after a person's name. */
module Gallery {
  import opened Wrappers
  import Text
  import opened Numbers
  import opened Paths
  import opened FileSystem
  import opened Repository
  import opened ServerResponse
  import opened Requests
  import opened ImageFiles

  /** models.GalleryItem without its id, which is the row's key, and without the time stamps the
      database keeps. */
  datatype GalleryItem = GalleryItem(title: string, imageLink: string)

  /** filepath.Join("data", "images"): where UpdateGallery and DeleteGallery look for images. */
  const ImagesDir: string := Join("data", "images")
  /** filepath.Join("data", "images", "gallery"): where CreateGallery writes them. */
  const GalleryDir: string := Join(ImagesDir, "gallery")

  // ----- Names -----

  predicate IsAsciiAlnum(c: char) {
    'a' <= c <= 'z' || 'A' <= c <= 'Z' || '0' <= c <= '9'
  }

  /** The mapping function handed to strings.Map: ASCII letters and digits stay, every other
      character becomes '_'. */
  function SafeChar(c: char): (d: char)
    ensures IsAsciiAlnum(c) ==> d == c
    ensures !IsAsciiAlnum(c) ==> d == '_'
  {
    if IsAsciiAlnum(c) then c else '_'
  }

  /** strings.Map(SafeChar, s), one character (rune) at a time. */
  function MapSafe(s: string): (r: string)
    ensures |r| == |s|
    ensures forall i :: 0 <= i < |s| ==> r[i] == SafeChar(s[i])
  {
    if s == [] then [] else [SafeChar(s[0])] + MapSafe(s[1..])
  }

  /** The title part of a gallery image name: "gallery" for an empty title, otherwise the title with
      every character that is not an ASCII letter or digit replaced by '_', rune for rune. */
  function SafeTitle(title: string): (r: string)
    ensures title == "" ==> r == "gallery"
    ensures title != "" ==> |r| == |title|
    ensures title != "" ==>
      forall i :: 0 <= i < |title| ==> (IsAsciiAlnum(title[i]) ==> r[i] == title[i]) && (!IsAsciiAlnum(title[i]) ==> r[i] == '_')
  {
    if title == "" then "gallery" else MapSafe(title)
  }

  predicate SafeText(s: string) {
    forall i :: 0 <= i < |s| ==> IsAsciiAlnum(s[i]) || s[i] == '_'
  }

  /** The sanitised title is made of letters, digits and '_' only, a title already made of them comes
      back unchanged, and so sanitising twice changes nothing more. */
  lemma SafeTitleIsSafe(title: string)
    ensures SafeText(SafeTitle(title))
    ensures title != "" && SafeText(title) ==> SafeTitle(title) == title
    ensures SafeTitle(SafeTitle(title)) == SafeTitle(title)
  {
    var r := SafeTitle(title);
    assert SafeText("gallery");
    assert SafeText(r);
    assert r != "" by {
      if title != "" {
        assert |r| == |title|;
      }
    }
  }

  /** `<id>_<safe title><ext>`, the name CreateGallery gives each image of the batch. */
  function GalleryFileName(id: int, title: string, uploadName: string): (f: string)
    ensures NamedFor(f, id, |SafeTitle(title)| + |UploadExt(uploadName)|)
  {
    FormatInt(id) + "_" + (SafeTitle(title) + UploadExt(uploadName))
  }

  /** `<id>_<safe title>_v2<ext>`, the name UpdateGallery gives a replacement image. */
  function ReplacementFileName(id: int, title: string, uploadName: string): (f: string)
    ensures NamedFor(f, id, |SafeTitle(title)| + 3 + |UploadExt(uploadName)|)
  {
    FormatInt(id) + "_" + (SafeTitle(title) + "_v2" + UploadExt(uploadName))
  }

  predicate NoSlash(s: string) {
    forall i :: 0 <= i < |s| ==> s[i] != '/'
  }

  // Used by the name-shape lemmas: gluing two slash-free strings gives a slash-free string.
  lemma NoSlashAppend(a: string, b: string)
    requires NoSlash(a) && NoSlash(b)
    ensures NoSlash(a + b)
  {
  }

  /** The part of a gallery name before its extension: the id, '_', and the sanitised title. */
  lemma StemHasNoSlash(id: int, title: string)
    ensures NoSlash(FormatInt(id) + "_" + SafeTitle(title))
  {
    SafeTitleIsSafe(title);
    assert NoSlash(FormatInt(id));
    assert NoSlash(SafeTitle(title));
    NoSlashAppend(FormatInt(id), "_");
    NoSlashAppend(FormatInt(id) + "_", SafeTitle(title));
  }

  /** A created image's name ends in the upload's extension (".jpg" when it has none) and holds no
      '/', so the image lands directly in its directory. */
  lemma GalleryNameShape(id: int, title: string, uploadName: string)
    ensures Ext(GalleryFileName(id, title, uploadName)) == UploadExt(uploadName)
    ensures NoSlash(GalleryFileName(id, title, uploadName))
  {
    var e := UploadExt(uploadName);
    var stem := FormatInt(id) + "_" + SafeTitle(title);
    Assoc(FormatInt(id) + "_", SafeTitle(title), e);
    StemHasNoSlash(id, title);
    NoSlashAppend(stem, e);
    ExtOfSuffix(stem, e);
  }

  /** The same holds for a replacement image's name. */
  lemma ReplacementNameShape(id: int, title: string, uploadName: string)
    ensures Ext(ReplacementFileName(id, title, uploadName)) == UploadExt(uploadName)
    ensures NoSlash(ReplacementFileName(id, title, uploadName))
  {
    var e := UploadExt(uploadName);
    var stem := FormatInt(id) + "_" + SafeTitle(title) + "_v2";
    Assoc(FormatInt(id) + "_", SafeTitle(title) + "_v2", e);
    Assoc(FormatInt(id) + "_", SafeTitle(title), "_v2");
    StemHasNoSlash(id, title);
    NoSlashAppend(FormatInt(id) + "_" + SafeTitle(title), "_v2");
    NoSlashAppend(stem, e);
    ExtOfSuffix(stem, e);
  }

  /** A name that starts with an id and '_' determines the id: digits and '-' never include '_'. */
  lemma IdBeforeUnderscore(a: int, restA: string, b: int, restB: string)
    requires FormatInt(a) + "_" + restA == FormatInt(b) + "_" + restB
    ensures a == b
  {
    var fa, fb := FormatInt(a), FormatInt(b);
    var s := fa + "_" + restA;
    assert s[|fa|] == '_' && s[..|fa|] == fa;
    assert s[|fb|] == '_' && s[..|fb|] == fb;
    FormatInjective(a, b);
  }

  /** The id before the first '_' tells gallery names apart: two items never share a name. */
  lemma GalleryNamesSeparateIds(a: int, titleA: string, uploadA: string, b: int, titleB: string, uploadB: string)
    requires GalleryFileName(a, titleA, uploadA) == GalleryFileName(b, titleB, uploadB)
    ensures a == b
  {
    IdBeforeUnderscore(a, SafeTitle(titleA) + UploadExt(uploadA), b, SafeTitle(titleB) + UploadExt(uploadB));
  }

  /** The same holds for replacement names. */
  lemma ReplacementNamesSeparateIds(a: int, titleA: string, uploadA: string, b: int, titleB: string, uploadB: string)
    requires ReplacementFileName(a, titleA, uploadA) == ReplacementFileName(b, titleB, uploadB)
    ensures a == b
  {
    IdBeforeUnderscore(a, SafeTitle(titleA) + "_v2" + UploadExt(uploadA), b, SafeTitle(titleB) + "_v2" + UploadExt(uploadB));
  }

  /** A created image lives under data/images/gallery, but update and delete remove under
      data/images: the path they remove is never the created image's. */
  lemma RemovedPathMissesGalleryDir(link: string)
    requires link != ""
    ensures Join(ImagesDir, link) != Join(GalleryDir, link)
  {
    assert |Join(ImagesDir, link)| < |Join(GalleryDir, link)|;
  }

  /** The id rule of UpdateGallery and DeleteGallery: a 64-bit integer of at least 1. */
  function ItemId(s: string): (r: Option<int>)
    ensures r.Some? <==> ParseInt64(s).Some? && ParseInt64(s).value >= 1
    ensures r.Some? ==> r.value == ParseInt64(s).value && r.value >= 1
  {
    match ParseInt64(s)
    case Some(id) => if id < 1 then None else Some(id)
    case None => None
  }

  // ----- CreateGallery -----

  /** The failures one file of the batch can meet: the insert, opening the upload, creating the file,
      copying into it, and recording its name in the row. */
  datatype PartFaults = PartFaults(insert: bool, open: bool, create: bool, copy: CopyResult, link: bool)

  /** One file of the "images" field: its client-side name, its bytes and what goes wrong with it. */
  datatype Part = Part(filename: string, data: Bytes, faults: PartFaults)

  predicate Clean(p: Part) {
    !p.faults.insert && !p.faults.open && !p.faults.create && p.faults.copy.Copied? && !p.faults.link
  }

  /** The gallery table's rows and next id, the disk, and the count of images saved so far. */
  datatype Batch = Batch(rows: map<int, GalleryItem>, nextId: int, files: Files, saved: nat)

  /** One pass of CreateGallery's loop: insert a row with no image, open the upload, write it as
      GalleryFileName under GalleryDir, then record its name; any failure skips to the next file and
      leaves behind what was already done. */
  function UploadOne(b: Batch, title: string, p: Part): (r: Batch)
    ensures r.saved == b.saved + if Clean(p) then 1 else 0
    ensures r.nextId == b.nextId + if p.faults.insert then 0 else 1
  {
    if p.faults.insert then b
    else
      var id := b.nextId;
      var inserted := b.(rows := b.rows[id := GalleryItem(title, "")], nextId := id + 1);
      if p.faults.open || p.faults.create then inserted
      else
        var name := GalleryFileName(id, title, p.filename);
        var written := inserted.(files := b.files[Join(GalleryDir, name) := Written(p.data, p.faults.copy)]);
        if !p.faults.copy.Copied? || p.faults.link then written
        else written.(rows := written.rows[id := GalleryItem(title, name)], saved := b.saved + 1)
  }

  /** The whole loop, file after file in the order of the form. */
  function UploadAll(b: Batch, title: string, parts: seq<Part>): (r: Batch)
    ensures b.nextId <= r.nextId <= b.nextId + |parts|
    ensures b.saved <= r.saved <= b.saved + |parts|
    ensures b.files.Keys <= r.files.Keys
    decreases |parts|
  {
    if parts == [] then b
    else UploadOne(UploadAll(b, title, parts[..|parts| - 1]), title, parts[|parts| - 1])
  }

  /** How many files of the batch meet no failure at all. */
  function CleanCount(parts: seq<Part>): (n: nat)
    ensures n <= |parts|
  {
    if parts == [] then 0
    else CleanCount(parts[..|parts| - 1]) + if Clean(parts[|parts| - 1]) then 1 else 0
  }

  /** How many files of the batch got a row. */
  function InsertCount(parts: seq<Part>): (n: nat)
    ensures n <= |parts|
  {
    if parts == [] then 0
    else InsertCount(parts[..|parts| - 1]) + if parts[|parts| - 1].faults.insert then 0 else 1
  }

  /** The counter counts exactly the files that met no failure, whatever failed before or after them,
      so it lies between 0 and the number of files; every file whose insert succeeded used up an id. */
  lemma {:induction false} UploadAllCounts(b: Batch, title: string, parts: seq<Part>)
    ensures UploadAll(b, title, parts).saved == b.saved + CleanCount(parts)
    ensures UploadAll(b, title, parts).nextId == b.nextId + InsertCount(parts)
  {
    if parts != [] {
      UploadAllCounts(b, title, parts[..|parts| - 1]);
    }
  }

  /** No saved image means every file met some failure, and the other way round. */
  lemma {:induction false} NothingSavedMeansNoCleanFile(parts: seq<Part>)
    ensures CleanCount(parts) == 0 <==> forall i :: 0 <= i < |parts| ==> !Clean(parts[i])
  {
    if parts != [] {
      var init := parts[..|parts| - 1];
      NothingSavedMeansNoCleanFile(init);
      assert forall i :: 0 <= i < |init| ==> init[i] == parts[i];
    }
  }

  /** `r` extends the batch state `b`: earlier rows are left alone; every row inserted since stays,
      carries the batch's title, and when it names an image that image was written under GalleryDir;
      ids only move forward and no file is ever removed. */
  ghost predicate Extends(b: Batch, r: Batch, title: string) {
    && b.nextId <= r.nextId
    && (forall k :: k in b.rows ==> k in r.rows && r.rows[k] == b.rows[k])
    && (forall k :: k in r.rows ==> k in b.rows || b.nextId <= k < r.nextId)
    && (forall k :: b.nextId <= k < r.nextId ==> k in r.rows && r.rows[k].title == title)
    && (forall k :: k in r.rows && k >= b.nextId && r.rows[k].imageLink != "" ==>
          Join(GalleryDir, r.rows[k].imageLink) in r.files)
    && b.files.Keys <= r.files.Keys
  }

  /** Every id the table holds lies below the next id to be given out. */
  ghost predicate IdsBelowNext(b: Batch) {
    forall k :: k in b.rows ==> k < b.nextId
  }

  /** Over the whole loop the batch state only extends, whatever fails. */
  lemma {:induction false} UploadAllKeeps(b: Batch, title: string, parts: seq<Part>)
    requires IdsBelowNext(b)
    ensures Extends(b, UploadAll(b, title, parts), title)
    ensures IdsBelowNext(UploadAll(b, title, parts))
  {
    if parts != [] {
      var m := UploadAll(b, title, parts[..|parts| - 1]);
      UploadAllKeeps(b, title, parts[..|parts| - 1]);
      UploadOneKeeps(m, title, parts[|parts| - 1]);
      ExtendsTransitive(b, m, UploadOne(m, title, parts[|parts| - 1]), title);
    }
  }

  /** One pass of the loop extends the batch state. */
  lemma UploadOneKeeps(m: Batch, title: string, p: Part)
    requires IdsBelowNext(m)
    ensures Extends(m, UploadOne(m, title, p), title)
    ensures IdsBelowNext(UploadOne(m, title, p))
  {
    if !p.faults.insert {
      NewRowShape(m, title, p);
      NewRowExtends(m, UploadOne(m, title, p), title);
    }
  }

  /** r is m with exactly one row added, under the next id and titled title, whose image, if it names
      one, is on disk; no file of m goes away. */
  ghost predicate AddsRow(m: Batch, r: Batch, title: string) {
    && r.nextId == m.nextId + 1 && m.nextId in r.rows
    && r.rows == m.rows[m.nextId := r.rows[m.nextId]] && r.rows[m.nextId].title == title
    && (r.rows[m.nextId].imageLink != "" ==> Join(GalleryDir, r.rows[m.nextId].imageLink) in r.files)
    && m.files.Keys <= r.files.Keys
  }

  /** A pass whose insert succeeds adds exactly one row, under the next id, titled with the form's title,
      whose image, if it names one, is on disk; no file goes away. */
  lemma NewRowShape(m: Batch, title: string, p: Part)
    requires !p.faults.insert
    ensures AddsRow(m, UploadOne(m, title, p), title)
  {
    var id := m.nextId;
    var r := UploadOne(m, title, p);
    if p.faults.open || p.faults.create {
      assert r == m.(rows := m.rows[id := GalleryItem(title, "")], nextId := id + 1);
      RowAdded(m, r, title, "");
    } else {
      var name := GalleryFileName(id, title, p.filename);
      var files := m.files[Join(GalleryDir, name) := Written(p.data, p.faults.copy)];
      if !p.faults.copy.Copied? || p.faults.link {
        assert r == m.(rows := m.rows[id := GalleryItem(title, "")], nextId := id + 1, files := files);
        RowAdded(m, r, title, "");
      } else {
        assert r == m.(rows := m.rows[id := GalleryItem(title, name)], nextId := id + 1, files := files,
                       saved := m.saved + 1);
        RowAdded(m, r, title, name);
      }
    }
  }

  // Used by NewRowShape: the facts of one added row, gathered into AddsRow.
  lemma RowAdded(m: Batch, r: Batch, title: string, link: string)
    requires r.nextId == m.nextId + 1 && r.rows == m.rows[m.nextId := GalleryItem(title, link)]
    requires link != "" ==> Join(GalleryDir, link) in r.files
    requires m.files.Keys <= r.files.Keys
    ensures AddsRow(m, r, title)
  {
  }

  /** Adding one row under the next id, with its image on disk if it names one, extends the batch. */
  lemma NewRowExtends(m: Batch, r: Batch, title: string)
    requires IdsBelowNext(m)
    requires AddsRow(m, r, title)
    ensures Extends(m, r, title)
    ensures IdsBelowNext(r)
  {
  }

  // Used by UploadAllKeeps to chain one more pass onto the passes before it.
  lemma ExtendsTransitive(b: Batch, m: Batch, r: Batch, title: string)
    requires Extends(b, m, title) && Extends(m, r, title)
    ensures Extends(b, r, title)
  {
    forall k | k in r.rows && k >= b.nextId && r.rows[k].imageLink != ""
      ensures Join(GalleryDir, r.rows[k].imageLink) in r.files
    {
      if k < m.nextId {
        assert k in m.rows && r.rows[k] == m.rows[k];
      }
    }
  }

  /** A created image outlives the deletion of its item: DeleteGallery removes a path under
      data/images while the file sits under data/images/gallery. */
  lemma CreatedImageOutlivesDelete(b: Batch, title: string, parts: seq<Part>, k: int, refused: bool)
    requires IdsBelowNext(b)
    requires var r := UploadAll(b, title, parts); k in r.rows && k >= b.nextId && r.rows[k].imageLink != ""
    ensures var r := UploadAll(b, title, parts);
      Join(GalleryDir, r.rows[k].imageLink) in AfterRemove(r.files, Join(ImagesDir, r.rows[k].imageLink), refused).0
  {
    UploadAllKeeps(b, title, parts);
    RemovedPathMissesGalleryDir(UploadAll(b, title, parts).rows[k].imageLink);
  }

  // ----- UpdateGallery -----

  /** The failures UpdateGallery can meet: the title update, creating and writing the new image,
      removing the old one, and recording the new name. */
  datatype ReplaceFaults = ReplaceFaults(title: bool, create: bool, copy: CopyResult, removeOld: bool, link: bool)

  const NoReplaceFaults := ReplaceFaults(false, false, Copied, false, false)

  /** The image part of UpdateGallery for the item `item` stored under `id`: write the new image,
      remove the old one, then record the new name. */
  function Replaced(rows: map<int, GalleryItem>, files: Files, id: int, item: GalleryItem, uploadName: string, data: Bytes,
                    f: ReplaceFaults): (r: (map<int, GalleryItem>, Files, Reply))
    requires id in rows
    ensures r.2.code == StatusOK <==> !f.create && f.copy.Copied? && !f.link
    ensures r.2.code == StatusOK ==> r.0 == rows[id := item.(imageLink := ReplacementFileName(id, item.title, uploadName))]
    ensures r.2.code != StatusOK ==> r.0 == rows && r.2.code == StatusInternalServerError && IsError(r.2)
  {
    var name := ReplacementFileName(id, item.title, uploadName);
    if f.create then (rows, files, ServerError(Some("failed to create new image file")))
    else
      var written := files[Join(ImagesDir, name) := Written(data, f.copy)];
      if !f.copy.Copied? then (rows, written, ServerError(Some("failed to save new image content")))
      else
        var cleared := if item.imageLink != "" then AfterRemove(written, Join(ImagesDir, item.imageLink), f.removeOld).0 else written;
        if f.link then (rows, cleared, ServerError(Some("failed to update image link")))
        else (rows[id := item.(imageLink := name)], cleared, Reply(StatusOK, PlainBody("Gallery item updated successfully")))
  }

  /** The id UpdateGallery reads: the `id` query value, or the form's when the query's is empty. */
  function UpdateIdText(queryId: string, formId: string): (s: string)
    ensures queryId != "" ==> s == queryId
    ensures queryId == "" ==> s == formId
  {
    if queryId == "" then formId else queryId
  }

  /** The rows once a title sent for `id` is stored; an empty one leaves them as they are. */
  function WithTitle(rows: map<int, GalleryItem>, id: int, titleField: string): (r: map<int, GalleryItem>)
    requires id in rows
    ensures r.Keys == rows.Keys
    ensures forall k :: k in rows && k != id ==> r[k] == rows[k]
    ensures r[id] == rows[id].(title := Overwrite(rows[id].title, titleField))
  {
    if Text.TrimSpace(titleField) != "" then rows[id := rows[id].(title := Overwrite(rows[id].title, titleField))] else rows
  }

  /** UpdateGallery once the item stored under `id` is found: store the new title, if one was sent,
      then handle the image. */
  function Retitled(rows: map<int, GalleryItem>, files: Files, id: int, titleField: string, upload: Upload,
                    f: ReplaceFaults): (r: (map<int, GalleryItem>, Files, Reply))
    requires id in rows
    ensures r.0.Keys == rows.Keys
    ensures forall k :: k in rows && k != id ==> r.0[k] == rows[k]
    ensures r.2.code == StatusOK ==> !upload.BadFile?
  {
    if Text.TrimSpace(titleField) != "" && f.title then (rows, files, ServerError(Some("failed to update title")))
    else
      var item := rows[id].(title := Overwrite(rows[id].title, titleField));
      var titled := WithTitle(rows, id, titleField);
      match upload
      case NoFile => (titled, files, Reply(StatusOK, PlainBody("Gallery item updated successfully")))
      case BadFile => (titled, files, BadRequest("error reading file"))
      case File(uploadName, data) =>
        ReplacedRows(titled, files, id, item, uploadName, data, f);
        Replaced(titled, files, id, item, uploadName, data, f)
  }

  /** Replacing the image touches no row but the item's own. */
  lemma ReplacedRows(rows: map<int, GalleryItem>, files: Files, id: int, item: GalleryItem, uploadName: string, data: Bytes,
                     f: ReplaceFaults)
    requires id in rows
    ensures Replaced(rows, files, id, item, uploadName, data, f).0.Keys == rows.Keys
    ensures forall k :: k in rows && k != id ==> Replaced(rows, files, id, item, uploadName, data, f).0[k] == rows[k]
  {
  }

  /** UpdateGallery as a whole: the table's rows, the disk and the reply afterwards. */
  function GalleryUpdate(rows: map<int, GalleryItem>, files: Files, queryId: string, formId: string, formOk: bool,
                         titleField: string, upload: Upload, f: ReplaceFaults): (r: (map<int, GalleryItem>, Files, Reply))
    ensures r.0.Keys == rows.Keys
    ensures ItemId(UpdateIdText(queryId, formId)).None? ==> r == (rows, files, BadRequest("invalid or missing id"))
    ensures var id := ItemId(UpdateIdText(queryId, formId));
      id.Some? && id.value !in rows ==> r.0 == rows && r.1 == files
    ensures var id := ItemId(UpdateIdText(queryId, formId));
      forall k :: k in rows && Some(k) != id ==> r.0[k] == rows[k]
    ensures r.2.code == StatusOK ==> formOk && !upload.BadFile? && ItemId(UpdateIdText(queryId, formId)).Some?
  {
    match ItemId(UpdateIdText(queryId, formId))
    case None => (rows, files, BadRequest("invalid or missing id"))
    case Some(id) =>
      if !formOk then (rows, files, BadRequest("file too large or invalid form data"))
      else if id !in rows then (rows, files, ServerError(Some("item not found")))
      else Retitled(rows, files, id, titleField, upload, f)
  }

  /** The new title is stored before the image is looked at, so a request whose image fails still
      retitles the item although it is answered with an error. */
  lemma TitleCommittedBeforeImage(rows: map<int, GalleryItem>, files: Files, queryId: string, titleField: string, upload: Upload, f: ReplaceFaults)
    requires ItemId(queryId).Some? && ItemId(queryId).value in rows
    requires Text.TrimSpace(titleField) != "" && !f.title
    requires upload.BadFile? || (upload.File? && f.create)
    ensures var r := GalleryUpdate(rows, files, queryId, "", true, titleField, upload, f);
      IsError(r.2) && r.0[ItemId(queryId).value].title == Text.TrimSpace(titleField)
  {
  }

  /** The old image is removed before the new name is recorded: when recording fails the row still
      names the old image, which is gone. */
  lemma DanglingLinkWhenLinkFails(rows: map<int, GalleryItem>, files: Files, id: int, item: GalleryItem, uploadName: string, data: Bytes)
    requires id in rows
    requires item.imageLink != "" && item.imageLink != ReplacementFileName(id, item.title, uploadName)
    requires Join(ImagesDir, item.imageLink) in files
    ensures var f := NoReplaceFaults.(link := true);
      var r := Replaced(rows, files, id, item, uploadName, data, f);
      r.0 == rows && r.2 == ServerError(Some("failed to update image link")) && Join(ImagesDir, item.imageLink) !in r.1
  {
    var name := ReplacementFileName(id, item.title, uploadName);
    assert name != item.imageLink;
    assert Join(ImagesDir, name) != Join(ImagesDir, item.imageLink) by {
      if Join(ImagesDir, name) == Join(ImagesDir, item.imageLink) {
        JoinInjective(ImagesDir, name, item.imageLink);
      }
    }
  }

  /** Replacing an item's image a second time with the same title and the same extension writes the
      new image under the name the first replacement chose, then removes the "old" image by that same
      name: the update succeeds and the item names a file that no longer exists. */
  lemma ReplacingTwiceLosesImage(rows: map<int, GalleryItem>, files: Files, id: int, titleField: string,
                                 uploadName: string, first: Bytes, second: Bytes)
    requires 1 <= id <= MaxInt64 && id in rows
    ensures var (rows1, files1, reply1) := GalleryUpdate(rows, files, FormatInt(id), "", true, titleField, File(uploadName, first), NoReplaceFaults);
      var (rows2, files2, reply2) := GalleryUpdate(rows1, files1, FormatInt(id), "", true, titleField, File(uploadName, second), NoReplaceFaults);
      && reply1.code == StatusOK && reply2.code == StatusOK
      && id in rows2 && Join(ImagesDir, rows2[id].imageLink) !in files2
  {
    ParseFormat(id);
    assert ItemId(FormatInt(id)) == Some(id);
    var title := Overwrite(rows[id].title, titleField);
    OverwriteIdempotent(rows[id].title, titleField);
    UpdateOneImage(rows, files, id, titleField, uploadName, first);
    var (rows1, files1, reply1) := GalleryUpdate(rows, files, FormatInt(id), "", true, titleField, File(uploadName, first), NoReplaceFaults);
    assert Overwrite(rows1[id].title, titleField) == title;
    UpdateOneImage(rows1, files1, id, titleField, uploadName, second);
  }

  /** An update by a valid id with an image and nothing failing: the item takes the title and the new
      image's name, and when that is the name it already had, its file is gone. */
  lemma UpdateOneImage(rows: map<int, GalleryItem>, files: Files, id: int, titleField: string, uploadName: string, data: Bytes)
    requires id in rows && ItemId(FormatInt(id)) == Some(id)
    ensures var (rows1, files1, reply1) := GalleryUpdate(rows, files, FormatInt(id), "", true, titleField, File(uploadName, data), NoReplaceFaults);
      var title := Overwrite(rows[id].title, titleField);
      var name := ReplacementFileName(id, title, uploadName);
      && reply1.code == StatusOK && id in rows1 && rows1[id] == rows[id].(title := title, imageLink := name)
      && (rows[id].imageLink == name ==> Join(ImagesDir, name) !in files1)
  {
    assert UpdateIdText(FormatInt(id), "") == FormatInt(id);
  }

  /** The rows a listing hands back: none when the repository fails. */
  function ItemsOrNone(found: Option<seq<GalleryItem>>): (items: seq<GalleryItem>)
    ensures found.Some? ==> items == found.value
    ensures found.None? ==> items == []
  {
    if found.Some? then found.value else []
  }

  // ----- The handler -----

  class GalleryHandler {
    const items: Table<GalleryItem>
    const disk: Disk

    ghost predicate Valid()
      reads this, items
    {
      items.Valid()
    }

    constructor (items: Table<GalleryItem>, disk: Disk)
      requires items.Valid()
      ensures this.items == items && this.disk == disk && Valid()
    {
      this.items := items;
      this.disk := disk;
    }

    /** CreateGallery: with at least one file and the gallery directory in place, every file is tried
        in turn and the reply reports how many were saved. */
    method CreateGallery(formOk: bool, titleField: string, parts: seq<Part>, mkdirFails: bool) returns (reply: Reply)
      requires Valid()
      modifies items, disk
      ensures Valid()
      ensures !formOk || parts == [] || mkdirFails ==>
        items.rows == old(items.rows) && items.nextId == old(items.nextId) && disk.files == old(disk.files)
      ensures !formOk ==> reply == BadRequest("files too large or invalid form data")
      ensures formOk && parts == [] ==> reply == BadRequest("no images uploaded")
      ensures formOk && parts != [] && mkdirFails ==> reply == ServerError(Some("server storage error"))
      ensures formOk && parts != [] && !mkdirFails ==>
        var b := UploadAll(Batch(old(items.rows), old(items.nextId), old(disk.files), 0), Text.TrimSpace(titleField), parts);
        && items.rows == b.rows && items.nextId == b.nextId && disk.files == b.files
        && reply == if b.saved == 0 then ServerError(Some("failed to save any images"))
                    else Reply(StatusOK, PlainBody(FormatInt(b.saved) + " images uploaded successfully"))
    {
      if !formOk {
        return BadRequest("files too large or invalid form data");
      }
      var title := Text.TrimSpace(titleField);
      if |parts| == 0 {
        return BadRequest("no images uploaded");
      }
      if mkdirFails {
        return ServerError(Some("server storage error"));
      }
      ghost var start := Batch(items.rows, items.nextId, disk.files, 0);
      var countSuccess: nat := 0;
      var i := 0;
      while i < |parts|
        invariant 0 <= i <= |parts|
        invariant items.Valid()
        invariant countSuccess <= i
        invariant Batch(items.rows, items.nextId, disk.files, countSuccess) == UploadAll(start, title, parts[..i])
      {
        ghost var before := UploadAll(start, title, parts[..i]);
        assert parts[..i + 1][..i] == parts[..i];
        assert UploadAll(start, title, parts[..i + 1]) == UploadOne(before, title, parts[i]);
        countSuccess := UploadPart(title, parts[i], countSuccess);
        i := i + 1;
      }
      assert parts[..i] == parts;
      if countSuccess == 0 {
        return ServerError(Some("failed to save any images"));
      }
      reply := Reply(StatusOK, PlainBody(FormatInt(countSuccess) + " images uploaded successfully"));
    }

    /** One file of the batch, as UploadOne describes it. */
    method UploadPart(title: string, p: Part, count: nat) returns (newCount: nat)
      requires Valid()
      modifies items, disk
      ensures Valid()
      ensures Batch(items.rows, items.nextId, disk.files, newCount)
           == UploadOne(Batch(old(items.rows), old(items.nextId), old(disk.files), count), title, p)
    {
      ghost var b := Batch(items.rows, items.nextId, disk.files, count);
      newCount := count;
      var created := items.Create(GalleryItem(title, ""), p.faults.insert);
      if created.None? {
        return;
      }
      var id := created.value;
      ghost var inserted := b.(rows := b.rows[id := GalleryItem(title, "")], nextId := id + 1);
      assert Batch(items.rows, items.nextId, disk.files, newCount) == inserted;
      if p.faults.open {
        return;
      }
      var filename := GalleryFileName(id, title, p.filename);
      var path := Join(GalleryDir, filename);
      var made := disk.Create(path, p.faults.create);
      if !made {
        return;
      }
      var copied := disk.Copy(path, p.data, p.faults.copy);
      assert disk.files == old(disk.files)[path := Written(p.data, p.faults.copy)];
      ghost var written := inserted.(files := b.files[path := Written(p.data, p.faults.copy)]);
      assert Batch(items.rows, items.nextId, disk.files, newCount) == written;
      if !copied {
        return;
      }
      var linked := items.Update(id, GalleryItem(title, filename), p.faults.link);
      if linked {
        newCount := count + 1;
      }
    }

    /** UpdateGallery, as GalleryUpdate describes it. */
    method UpdateGallery(queryId: string, formId: string, formOk: bool, titleField: string, upload: Upload, f: ReplaceFaults)
      returns (reply: Reply)
      requires Valid()
      modifies items, disk
      ensures Valid()
      ensures (items.rows, disk.files, reply) == GalleryUpdate(old(items.rows), old(disk.files), queryId, formId, formOk, titleField, upload, f)
    {
      var idStr := queryId;
      if idStr == "" {
        idStr := formId;
      }
      var parsed := ItemId(idStr);
      if parsed.None? {
        return BadRequest("invalid or missing id");
      }
      var id := parsed.value;
      if !formOk {
        return BadRequest("file too large or invalid form data");
      }
      var fetched := items.Get(id);
      if fetched.None? {
        return ServerError(Some("item not found"));
      }
      reply := RetitleAndReplace(id, titleField, upload, f);
    }

    /** UpdateGallery once the item is found, as Retitled describes it. */
    method RetitleAndReplace(id: int, titleField: string, upload: Upload, f: ReplaceFaults) returns (reply: Reply)
      requires Valid() && id in items.rows
      modifies items, disk
      ensures Valid()
      ensures (items.rows, disk.files, reply) == Retitled(old(items.rows), old(disk.files), id, titleField, upload, f)
    {
      var item := items.rows[id];
      var newTitle := Text.TrimSpace(titleField);
      if newTitle != "" {
        item := item.(title := newTitle);
        var ok := items.Update(id, item, f.title);
        if !ok {
          return ServerError(Some("failed to update title"));
        }
      }
      match upload {
        case NoFile =>
          reply := Reply(StatusOK, PlainBody("Gallery item updated successfully"));
        case BadFile =>
          reply := BadRequest("error reading file");
        case File(uploadName, data) =>
          reply := ReplaceImage(id, item, uploadName, data, f);
      }
    }

    /** The image part of UpdateGallery, as Replaced describes it. */
    method ReplaceImage(id: int, item: GalleryItem, uploadName: string, data: Bytes, f: ReplaceFaults) returns (reply: Reply)
      requires Valid() && id in items.rows
      modifies items, disk
      ensures Valid()
      ensures (items.rows, disk.files, reply) == Replaced(old(items.rows), old(disk.files), id, item, uploadName, data, f)
    {
      var newFilename := ReplacementFileName(id, item.title, uploadName);
      var newFullPath := Join(ImagesDir, newFilename);
      var made := disk.Create(newFullPath, f.create);
      if !made {
        return ServerError(Some("failed to create new image file"));
      }
      var copied := disk.Copy(newFullPath, data, f.copy);
      assert disk.files == old(disk.files)[newFullPath := Written(data, f.copy)];
      if !copied {
        return ServerError(Some("failed to save new image content"));
      }
      if item.imageLink != "" {
        var _ := disk.Remove(Join(ImagesDir, item.imageLink), f.removeOld);
      }
      var linked := items.Update(id, item.(imageLink := newFilename), f.link);
      if !linked {
        return ServerError(Some("failed to update image link"));
      }
      reply := Reply(StatusOK, PlainBody("Gallery item updated successfully"));
    }

    /** DeleteGallery: the row goes first; then, when the item names an image, the image is removed
        from data/images and a failure to remove it is ignored. */
    method DeleteGallery(queryId: string, dbFails: bool, removeRefused: bool) returns (reply: Reply)
      requires Valid()
      modifies items, disk
      ensures Valid()
      ensures ItemId(queryId).None? ==>
        reply == BadRequest("invalid or missing id") && items.rows == old(items.rows) && disk.files == old(disk.files)
      ensures ItemId(queryId).Some? && ItemId(queryId).value !in old(items.rows) ==>
        reply == ServerError(Some("item not found or already deleted"))
        && items.rows == old(items.rows) && disk.files == old(disk.files)
      ensures ItemId(queryId).Some? && ItemId(queryId).value in old(items.rows) && dbFails ==>
        reply == ServerError(Some("failed to delete database record"))
        && items.rows == old(items.rows) && disk.files == old(disk.files)
      ensures ItemId(queryId).Some? && ItemId(queryId).value in old(items.rows) && !dbFails ==>
        var id := ItemId(queryId).value;
        var link := old(items.rows)[id].imageLink;
        && items.rows == old(items.rows) - {id}
        && disk.files == (if link != "" then AfterRemove(old(disk.files), Join(ImagesDir, link), removeRefused).0 else old(disk.files))
        && reply == Reply(StatusOK, PlainBody("Gallery item deleted successfully"))
    {
      var parsed := ItemId(queryId);
      if parsed.None? {
        return BadRequest("invalid or missing id");
      }
      var id := parsed.value;
      var item := items.Get(id);
      if item.None? {
        return ServerError(Some("item not found or already deleted"));
      }
      var deleted := items.Delete(id, dbFails);
      if !deleted {
        return ServerError(Some("failed to delete database record"));
      }
      if item.value.imageLink != "" {
        var _ := disk.Remove(Join(ImagesDir, item.value.imageLink), removeRefused);
      }
      reply := Reply(StatusOK, PlainBody("Gallery item deleted successfully"));
    }

    /** GetAllGallery: `max_limit` is read with its error dropped, so text that is not a number asks
        for limit 0 unless its leading digits overflow, which ask for a 64-bit bound; `fetch` stands for
        the repository's listing, None for its error. */
    method GetAllGallery(q: Query, fetch: int -> Option<seq<GalleryItem>>) returns (reply: Reply, listed: seq<GalleryItem>)
      ensures fetch(AtoiValue(QueryValue(q, "max_limit"))).None? ==>
        reply == ServerError(Some("failed to fetch gallery")) && listed == []
      ensures fetch(AtoiValue(QueryValue(q, "max_limit"))).Some? ==>
        reply == Reply(StatusOK, DataBody) && listed == fetch(AtoiValue(QueryValue(q, "max_limit"))).value
      ensures var v := QueryValue(q, "max_limit");
        !DecimalSyntax(v) && !LeadingDigitsOverflow(v) ==> listed == ItemsOrNone(fetch(0))
      ensures var v := QueryValue(q, "max_limit");
        LeadingDigitsOverflow(v) ==> listed == ItemsOrNone(fetch(RangeBound(v)))
    {
      var v := QueryValue(q, "max_limit");
      var limit := AtoiValue(v);
      assert !DecimalSyntax(v) && !LeadingDigitsOverflow(v) ==> limit == 0;
      assert LeadingDigitsOverflow(v) ==> limit == RangeBound(v);
      var found := fetch(limit);
      if found.None? {
        return ServerError(Some("failed to fetch gallery")), [];
      }
      reply, listed := Reply(StatusOK, DataBody), found.value;
    }
  }
}
