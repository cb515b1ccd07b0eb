/** The local disk as the handlers see it: a map from path to file contents. Every operation that
    can fail takes a `refused` flag standing for an error the operating system reports (permissions,
    a full disk, ...); a missing source file is an error of its own, decided by the map. */
module FileSystem {

  type Path = string
  type Bytes = seq<bv8>
  type Files = map<Path, Bytes>

  /** How an io.Copy into a freshly created file ends: complete, or failed after some bytes. */
  datatype CopyResult = Copied | CopyFailsAfter(written: nat)

  /** The contents of the destination once the copy has stopped. */
  function Written(data: Bytes, c: CopyResult): (w: Bytes)
    ensures |w| <= |data| && w == data[..|w|]
    ensures c.Copied? ==> w == data
  {
    match c
    case Copied => data
    case CopyFailsAfter(n) => data[..if n < |data| then n else |data|]
  }

  /** os.Rename(src, dst): moves the file, replacing whatever `dst` held. */
  function AfterRename(files: Files, src: Path, dst: Path, refused: bool): (r: (Files, bool))
    ensures r.1 <==> src in files && !refused
    ensures !r.1 ==> r.0 == files
    ensures r.1 ==> r.0.Keys == files.Keys - {src} + {dst} && r.0[dst] == files[src]
    ensures r.1 ==> forall p :: p in files && p != src && p != dst ==> r.0[p] == files[p]
  {
    if src in files && !refused then ((files - {src})[dst := files[src]], true) else (files, false)
  }

  /** os.Remove(p). */
  function AfterRemove(files: Files, p: Path, refused: bool): (r: (Files, bool))
    ensures r.1 <==> p in files && !refused
    ensures r.0 == if r.1 then files - {p} else files
  {
    if p in files && !refused then (files - {p}, true) else (files, false)
  }

  class Disk {
    var files: Files

    constructor (initial: Files)
      ensures files == initial
    {
      files := initial;
    }

    method Rename(src: Path, dst: Path, refused: bool) returns (ok: bool)
      modifies this
      ensures (files, ok) == AfterRename(old(files), src, dst, refused)
    {
      ok := src in files && !refused;
      if ok {
        files := (files - {src})[dst := files[src]];
      }
    }

    method Remove(p: Path, refused: bool) returns (ok: bool)
      modifies this
      ensures (files, ok) == AfterRemove(old(files), p, refused)
    {
      ok := p in files && !refused;
      if ok {
        files := files - {p};
      }
    }

    /** os.Create(p): creates the file, or truncates it when it exists. */
    method Create(p: Path, refused: bool) returns (ok: bool)
      modifies this
      ensures ok == !refused
      ensures files == if ok then old(files)[p := []] else old(files)
    {
      ok := !refused;
      if ok {
        files := files[p := []];
      }
    }

    /** io.Copy of the uploaded bytes into the file just created at `p`. */
    method Copy(p: Path, data: Bytes, result: CopyResult) returns (ok: bool)
      modifies this
      ensures ok == result.Copied?
      ensures files == old(files)[p := Written(data, result)]
    {
      ok := result.Copied?;
      files := files[p := Written(data, result)];
    }
  }
}
