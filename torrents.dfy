/**
 * src/modules/torrents.py: rename the completed-download folders with the
 * name pipeline, then move every folder into the game library.
 */
module Torrents {
  import opened Common
  import opened FileSystem
  import opened NameNormalizer

  /** Where a rename pass ended: the directory, and the folder whose
      `os.rename` raised (the exception leaves `rename_folders`), if any. */
  datatype RenameOutcome = RenameOutcome(entries: Tree, failedAt: Option<string>)

  /** `rename_folders` over one `os.listdir` snapshot: each name that is
      currently a folder is renamed to its normalised name; plain files and
      names no longer present are skipped; the first refused rename stops the pass. */
  function RenamePass(d: Tree, listing: seq<string>): RenameOutcome
    decreases |listing|
  {
    if listing == [] then RenameOutcome(d, None)
    else
      var f := listing[0];
      if f in d && d[f].Folder? then
        match Renamed(d, f, Normalize(f))
        case None => RenameOutcome(d, Some(f))
        case Some(d') => RenamePass(d', listing[1..])
      else RenamePass(d, listing[1..])
  }

  /** `move_completed_torrents` over one listing: each folder whose `mv`
      succeeds leaves `src` and appears under the same name in `dst`; a folder
      in `mvFails` stays where it is (the error is logged and the loop goes on). */
  function MovePass(src: Tree, dst: Tree, listing: seq<string>, mvFails: set<string>): (Tree, Tree)
    decreases |listing|
  {
    if listing == [] then (src, dst)
    else
      var f := listing[0];
      if f in src && src[f].Folder? && f !in mvFails then
        MovePass(src - {f}, dst[f := src[f]], listing[1..], mvFails)
      else MovePass(src, dst, listing[1..], mvFails)
  }

  // ---------------------------------------------------------------------
  // Properties of the passes

  /** Plain files are never renamed, moved over or removed by a rename pass. */
  lemma {:induction false} RenamePassKeepsFiles(d: Tree, listing: seq<string>, k: string)
    requires k in d && d[k] == File
    ensures k in RenamePass(d, listing).entries && RenamePass(d, listing).entries[k] == File
    decreases |listing|
  {
    if listing != [] {
      var f := listing[0];
      if f in d && d[f].Folder? {
        match Renamed(d, f, Normalize(f))
        case None =>
        case Some(d') => RenamePassKeepsFiles(d', listing[1..], k);
      } else {
        RenamePassKeepsFiles(d, listing[1..], k);
      }
    }
  }

  /** A rename pass that completes over a listing naming every folder leaves
      only folders whose names are already normalised. */
  lemma {:induction false} RenamePassNormalizes(d: Tree, listing: seq<string>)
    requires forall k :: k in d && d[k].Folder? && !IsNormal(k) ==> k in listing
    ensures var r := RenamePass(d, listing);
      r.failedAt == None ==> forall k :: k in r.entries && r.entries[k].Folder? ==> IsNormal(k)
    decreases |listing|
  {
    if listing != [] {
      var f := listing[0];
      if f in d && d[f].Folder? {
        match Renamed(d, f, Normalize(f))
        case None =>
        case Some(d') =>
          NormalizeIdempotent(f);
          forall k | k in d' && d'[k].Folder? && !IsNormal(k) ensures k in listing[1..] {
            assert k != Normalize(f);
            assert k in d && k != f;
            assert k in listing;
          }
          RenamePassNormalizes(d', listing[1..]);
      } else {
        forall k | k in d && d[k].Folder? && !IsNormal(k) ensures k in listing[1..] {
          assert k != f;
        }
        RenamePassNormalizes(d, listing[1..]);
      }
    }
  }

  /** A pass that stops does so at a listed folder whose normalised name was
      taken by a file or a non-empty folder, or was empty. */
  lemma {:induction false} RenamePassFailure(d: Tree, listing: seq<string>)
    ensures var r := RenamePass(d, listing);
      r.failedAt.Some? ==>
        r.failedAt.value in listing && r.failedAt.value in r.entries &&
        r.entries[r.failedAt.value].Folder? &&
        Renamed(r.entries, r.failedAt.value, Normalize(r.failedAt.value)).None?
    decreases |listing|
  {
    if listing != [] {
      var f := listing[0];
      if f in d && d[f].Folder? {
        match Renamed(d, f, Normalize(f))
        case None =>
        case Some(d') => RenamePassFailure(d', listing[1..]);
      } else {
        RenamePassFailure(d, listing[1..]);
      }
    }
  }

  /** Names the listing never mentions are left alone by a move pass. */
  lemma {:induction false} MovePassFrame(src: Tree, dst: Tree, listing: seq<string>, mvFails: set<string>, k: string)
    requires k !in listing
    ensures var (s, t) := MovePass(src, dst, listing, mvFails);
      (k in s <==> k in src) && (k in src ==> s[k] == src[k]) &&
      (k in t <==> k in dst) && (k in dst ==> t[k] == dst[k])
    decreases |listing|
  {
    if listing != [] {
      var f := listing[0];
      assert k != f && k !in listing[1..];
      if f in src && src[f].Folder? && f !in mvFails {
        MovePassFrame(src - {f}, dst[f := src[f]], listing[1..], mvFails, k);
      } else {
        MovePassFrame(src, dst, listing[1..], mvFails, k);
      }
    }
  }

  /** A listed folder whose `mv` succeeds ends up in the library under the
      same name, with the same contents, and is gone from the download directory. */
  lemma {:induction false} MovePassMoves(src: Tree, dst: Tree, listing: seq<string>, mvFails: set<string>, k: string)
    requires forall i, j :: 0 <= i < j < |listing| ==> listing[i] != listing[j]
    requires k in listing && k in src && src[k].Folder? && k !in mvFails
    ensures var (s, t) := MovePass(src, dst, listing, mvFails);
      k !in s && k in t && t[k] == src[k]
    decreases |listing|
  {
    var f := listing[0];
    if f == k {
      assert k !in listing[1..] by {
        forall i | 0 <= i < |listing| - 1 ensures listing[1..][i] != k { assert listing[1..][i] == listing[i + 1]; }
      }
      MovePassFrame(src - {f}, dst[f := src[f]], listing[1..], mvFails, k);
    } else {
      assert k in listing[1..];
      if f in src && src[f].Folder? && f !in mvFails {
        MovePassMoves(src - {f}, dst[f := src[f]], listing[1..], mvFails, k);
      } else {
        MovePassMoves(src, dst, listing[1..], mvFails, k);
      }
    }
  }

  /** Plain files, and folders whose `mv` fails, stay in the download directory unchanged. */
  lemma {:induction false} MovePassKeeps(src: Tree, dst: Tree, listing: seq<string>, mvFails: set<string>, k: string)
    requires k in src && (src[k] == File || k in mvFails)
    ensures var (s, t) := MovePass(src, dst, listing, mvFails);
      k in s && s[k] == src[k]
    decreases |listing|
  {
    if listing != [] {
      var f := listing[0];
      if f in src && src[f].Folder? && f !in mvFails {
        MovePassKeeps(src - {f}, dst[f := src[f]], listing[1..], mvFails, k);
      } else {
        MovePassKeeps(src, dst, listing[1..], mvFails, k);
      }
    }
  }

  /** A move pass only adds to the library: nothing already there is lost. */
  lemma {:induction false} MovePassGrows(src: Tree, dst: Tree, listing: seq<string>, mvFails: set<string>)
    ensures dst.Keys <= MovePass(src, dst, listing, mvFails).1.Keys
    decreases |listing|
  {
    if listing != [] {
      var f := listing[0];
      if f in src && src[f].Folder? && f !in mvFails {
        MovePassGrows(src - {f}, dst[f := src[f]], listing[1..], mvFails);
      } else {
        MovePassGrows(src, dst, listing[1..], mvFails);
      }
    }
  }

  // ---------------------------------------------------------------------
  // The loops

  /** `rename_folders`: list the directory once, then rename each folder. */
  method RenameFolders(dir: Directory) returns (listing: seq<string>, failedAt: Option<string>)
    modifies dir
    ensures Enumerates(listing, old(dir.entries))
    ensures RenamePass(old(dir.entries), listing) == RenameOutcome(dir.entries, failedAt)
    ensures failedAt == None ==> forall k :: k in dir.entries && dir.entries[k].Folder? ==> IsNormal(k)
  {
    listing := ListDir(dir.entries);
    RenamePassNormalizes(dir.entries, listing);
    failedAt := None;
    var i := 0;
    while i < |listing|
      invariant 0 <= i <= |listing|
      invariant RenamePass(old(dir.entries), listing) == RenamePass(dir.entries, listing[i..])
    {
      var folder := listing[i];
      assert listing[i..][1..] == listing[i + 1..];
      if folder in dir.entries && dir.entries[folder].Folder? {
        var newName := Normalize(folder);
        var ok := dir.Rename(folder, newName);
        if !ok {
          failedAt := Some(folder);
          return;
        }
      }
      i := i + 1;
    }
  }

  /** `move_completed_torrents`: list the download directory, then `mv` each
      folder to the library; `mvFails` names the folders whose `mv` exits
      with an error. */
  method MoveCompletedTorrents(torrents: Directory, library: Directory, mvFails: set<string>)
    returns (listing: seq<string>)
    requires torrents != library
    modifies torrents, library
    ensures Enumerates(listing, old(torrents.entries))
    ensures (torrents.entries, library.entries)
         == MovePass(old(torrents.entries), old(library.entries), listing, mvFails)
  {
    listing := ListDir(torrents.entries);
    var i := 0;
    while i < |listing|
      invariant 0 <= i <= |listing|
      invariant MovePass(old(torrents.entries), old(library.entries), listing, mvFails)
             == MovePass(torrents.entries, library.entries, listing[i..], mvFails)
    {
      var folder := listing[i];
      assert listing[i..][1..] == listing[i + 1..];
      if folder in torrents.entries && torrents.entries[folder].Folder? {
        if folder !in mvFails {
          Move(torrents, library, folder);
        }
      }
      i := i + 1;
    }
  }

  /** `torrent_manager`: rename first; the move runs only when every rename
      succeeded, since a raised `os.rename` leaves the function. */
  method TorrentManager(torrents: Directory, library: Directory, mvFails: set<string>)
    returns (renameListing: seq<string>, moveListing: seq<string>, failedAt: Option<string>)
    requires torrents != library
    modifies torrents, library
    ensures Enumerates(renameListing, old(torrents.entries))
    ensures failedAt == RenamePass(old(torrents.entries), renameListing).failedAt
    ensures failedAt.Some? ==>
      torrents.entries == RenamePass(old(torrents.entries), renameListing).entries &&
      library.entries == old(library.entries)
    ensures failedAt.None? ==>
      var renamed := RenamePass(old(torrents.entries), renameListing).entries;
      Enumerates(moveListing, renamed) &&
      (torrents.entries, library.entries) == MovePass(renamed, old(library.entries), moveListing, mvFails)
    ensures failedAt.None? ==> old(library.entries).Keys <= library.entries.Keys
  {
    moveListing := [];
    renameListing, failedAt := RenameFolders(torrents);
    if failedAt.None? {
      ghost var src, dst := torrents.entries, library.entries;
      moveListing := MoveCompletedTorrents(torrents, library, mvFails);
      MovePassGrows(src, dst, moveListing, mvFails);
    }
  }
}
