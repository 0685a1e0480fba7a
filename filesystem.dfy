/**
 * The part of the filesystem the scripts touch: one directory level of
 * top-level entries, each a plain file or a folder whose own listing is a set
 * of file names. `os.listdir`, `os.rename` and `os.remove` act on it.
 */
module FileSystem {
  import opened Common

  datatype Entry = File | Folder(files: set<string>)

  /** The top-level entries of a directory, by name. */
  type Tree = map<string, Entry>

  /** `names` is one possible result of `os.listdir`: every entry exactly once,
      in an order the filesystem chooses. */
  predicate Enumerates(names: seq<string>, d: Tree) {
    (forall i, j :: 0 <= i < j < |names| ==> names[i] != names[j]) &&
    (forall n :: n in d ==> n in names) &&
    (forall i :: 0 <= i < |names| ==> names[i] in d)
  }

  /** Names that join to the directory itself or to its parent rather than
      to an entry of it: the empty name, "." and "..". */
  predicate Reserved(name: string) {
    name == "" || name == "." || name == ".."
  }

  /** `os.rename(src, dst)` for a folder `src` of the directory, with POSIX
      rename(2) semantics: renaming to the same name changes nothing; a free
      name receives the folder; an existing empty folder is replaced; every
      other destination (a file, a non-empty folder, a reserved name) makes
      the call raise, shown as None. */
  function Renamed(d: Tree, src: string, dst: string): (r: Option<Tree>)
    requires src in d && d[src].Folder?
    ensures r.Some? && dst != src ==>
      r.value.Keys == d.Keys - {src} + {dst} && r.value[dst] == d[src] &&
      forall k :: k in d && k != src && k != dst ==> r.value[k] == d[k]
    ensures r.None? <==> dst != src && (Reserved(dst) || (dst in d && d[dst] != Folder({})))
  {
    if dst == src then Some(d)
    else if Reserved(dst) || (dst in d && d[dst] != Folder({})) then None
    else Some((d - {src})[dst := d[src]])
  }

  /** `os.listdir` of a folder whose names are `files`: each name once, in
      an order the filesystem chooses, so the model picks an arbitrary one. */
  method ListNames(files: set<string>) returns (names: seq<string>)
    ensures forall i, j :: 0 <= i < j < |names| ==> names[i] != names[j]
    ensures forall n :: n in files <==> n in names
  {
    names := [];
    var pending := files;
    while pending != {}
      invariant pending <= files
      invariant forall n :: n in files <==> n in pending || n in names
      invariant forall n :: n in names ==> n !in pending
      invariant forall i, j :: 0 <= i < j < |names| ==> names[i] != names[j]
      decreases pending
    {
      var n :| n in pending;
      names := names + [n];
      pending := pending - {n};
    }
  }

  /** `os.listdir` of a directory: some enumeration of its entries. */
  method ListDir(d: Tree) returns (names: seq<string>)
    ensures Enumerates(names, d)
  {
    names := ListNames(d.Keys);
  }

  /** A directory on disk whose entries the scripts change in place. */
  class Directory {
    var entries: Tree

    constructor (entries: Tree)
      ensures this.entries == entries
    {
      this.entries := entries;
    }

    /** `os.rename` inside this directory; `ok` is false when the call raises. */
    method Rename(src: string, dst: string) returns (ok: bool)
      requires src in entries && entries[src].Folder?
      modifies this
      ensures ok <==> Renamed(old(entries), src, dst).Some?
      ensures entries == if ok then Renamed(old(entries), src, dst).value else old(entries)
    {
      var r := Renamed(entries, src, dst);
      ok := r.Some?;
      if ok {
        entries := r.value;
      }
    }

    /** `os.remove` of a file directly inside one of this directory's folders. */
    method RemoveFile(folder: string, file: string)
      requires folder in entries && entries[folder].Folder? && file in entries[folder].files
      modifies this
      ensures entries == old(entries)[folder := Folder(old(entries)[folder].files - {file})]
    {
      entries := entries[folder := Folder(entries[folder].files - {file})];
    }
  }

  /** A successful `mv source destination` of a top-level entry, where the
      destination is the same name in another directory. */
  method Move(from: Directory, to: Directory, name: string)
    requires from != to && name in from.entries
    modifies from, to
    ensures from.entries == old(from.entries) - {name}
    ensures to.entries == old(to.entries)[name := old(from.entries)[name]]
  {
    to.entries := to.entries[name := from.entries[name]];
    from.entries := from.entries - {name};
  }
}
