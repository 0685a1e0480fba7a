/**
 * app.py: the stand-alone script. It reads `game_path` from its own config
 * parser, renames the library's folders with the same pipeline as
 * src/modules/torrents.py, then deletes the download-site note files from
 * every folder.
 */
module App {
  import opened Common
  import opened Text
  import opened FileSystem
  import opened NameNormalizer
  import opened ConfigParse
  import Torrents

  // ---------------------------------------------------------------------
  // Configuration read at import time (app.py:15-23)

  datatype ConfigError = ReadFailed(read: ReadError) | LookupFailed(lookup: LookupError)

  /** What `read(path)` sees for a path: its contents, or nothing to open. */
  function FileAt(fs: map<string, ConfigFile>, path: string): ConfigFile {
    if path in fs then fs[path] else Unopenable
  }

  /** app.py's parser: `config_hidden.cfg` is read, and `config.cfg` only when
      that read opened nothing (`read` returns an empty list); a read that
      raises ends the script. */
  function AppParser(fs: map<string, ConfigFile>): (r: Result<Parser, ReadError>)
    ensures FileAt(fs, "config_hidden.cfg").Readable? ==>
      r == Escaping(AfterRead(CreateConfigParser(), FileAt(fs, "config_hidden.cfg")))
    ensures FileAt(fs, "config_hidden.cfg").Unparsable? ==> r.Err?
    ensures FileAt(fs, "config_hidden.cfg").Unopenable? ==>
      r == Escaping(AfterRead(CreateConfigParser(), FileAt(fs, "config.cfg")))
  {
    var hidden := FileAt(fs, "config_hidden.cfg");
    var first := AfterRead(CreateConfigParser(), hidden);
    if first.error.Some? then Err(first.error.value)
    else if !hidden.Unopenable? then Ok(first.parser)
    else Escaping(AfterRead(first.parser, FileAt(fs, "config.cfg")))
  }

  /** `game_path = config_parser.get("admin", "game_library_root_path")`:
      with no default, a missing section or option ends the script. */
  function GamePath(fs: map<string, ConfigFile>): (r: Result<string, ConfigError>)
    ensures r.Ok? <==> AppParser(fs).Ok? && Get(AppParser(fs).value, "admin", "game_library_root_path").Ok?
    ensures r.Ok? ==> r.value == Get(AppParser(fs).value, "admin", "game_library_root_path").value
  {
    match AppParser(fs)
    case Err(e) => Err(ReadFailed(e))
    case Ok(p) =>
      match Get(p, "admin", "game_library_root_path")
      case Err(e) => Err(LookupFailed(e))
      case Ok(v) => Ok(v)
  }

  /** The two loaders part ways over an existing `config_hidden.cfg` that
      cannot be opened: app.py goes on to `config.cfg`, while `load_config`
      stops with an empty parser. */
  lemma HiddenUnopenableDiffers(fs: map<string, ConfigFile>, body: seq<SectionText>)
    requires "config_hidden.cfg" in fs && fs["config_hidden.cfg"] == Unopenable
    requires "config.cfg" in fs && fs["config.cfg"] == Readable(body)
    ensures AppParser(fs) == Escaping(AfterRead(CreateConfigParser(), Readable(body)))
    ensures LoadFrom(CreateConfigParser(), DefaultPaths, fs) == CreateConfigParser()
  {
    HiddenUnopenable(fs);
  }

  /** When `config_hidden.cfg` reads, both loaders agree on its contents. */
  lemma HiddenReadsAgree(fs: map<string, ConfigFile>)
    requires "config_hidden.cfg" in fs && fs["config_hidden.cfg"].Readable?
    requires AfterRead(CreateConfigParser(), fs["config_hidden.cfg"]).error.None?
    ensures AppParser(fs).Ok? && AppParser(fs).value == LoadFrom(CreateConfigParser(), DefaultPaths, fs)
  {
    LoadFromFirst(CreateConfigParser(), DefaultPaths, fs, 0);
  }

  // ---------------------------------------------------------------------
  // cleanup_folders (app.py:60-71)

  /** The suffix of the note files the download site ships; the test is a
      case-sensitive `endswith`. */
  predicate IsNote(file: string) {
    EndsWith(file, "gog-games.to.txt")
  }

  /** An entry after the sweep: a folder loses its note files; a plain file is untouched. */
  function Swept(e: Entry): (r: Entry)
    ensures r.File? <==> e.File?
    ensures r.Folder? ==> forall f :: f in r.files <==> f in e.files && !IsNote(f)
  {
    match e
    case File => File
    case Folder(files) => Folder(set f | f in files && !IsNote(f))
  }

  /** The library after `cleanup_folders`. */
  function WithoutNotes(d: Tree): (r: Tree)
    ensures r.Keys == d.Keys
    ensures forall k :: k in d ==> r[k] == Swept(d[k])
  {
    map k | k in d :: Swept(d[k])
  }

  /** Exactly the note files directly inside a top-level folder go; every
      other file, every folder and every top-level file stays. */
  lemma WithoutNotesExact(d: Tree, k: string, f: string)
    requires k in d
    ensures k in WithoutNotes(d)
    ensures d[k] == File <==> WithoutNotes(d)[k] == File
    ensures d[k].Folder? ==> (f in WithoutNotes(d)[k].files <==> f in d[k].files && !IsNote(f))
  {
  }

  /** Sweeping twice removes nothing more. */
  lemma WithoutNotesIdempotent(d: Tree)
    ensures WithoutNotes(WithoutNotes(d)) == WithoutNotes(d)
  {
    var w := WithoutNotes(d);
    forall k | k in w ensures Swept(w[k]) == w[k] {
      if w[k].Folder? {
        assert Swept(w[k]).files == w[k].files;
      }
    }
  }

  /** The suffix test is case-sensitive: an upper-case note escapes the sweep. */
  lemma NoteIsCaseSensitive()
    ensures IsNote("Game-gog-games.to.txt")
    ensures !IsNote("Game-GOG-GAMES.TO.TXT")
  {
    assert "Game-GOG-GAMES.TO.TXT"[5] == 'G';
  }

  /** `cleanup_folders`: for each folder of the listing, list its files and
      remove each note file. */
  method CleanupFolders(lib: Directory)
    modifies lib
    ensures lib.entries == WithoutNotes(old(lib.entries))
  {
    var listing := ListDir(lib.entries);
    var i := 0;
    while i < |listing|
      invariant 0 <= i <= |listing|
      invariant lib.entries.Keys == old(lib.entries).Keys
      invariant forall k :: k in lib.entries ==>
        lib.entries[k] == if k in listing[..i] then Swept(old(lib.entries)[k]) else old(lib.entries)[k]
    {
      var folder := listing[i];
      assert listing[..i + 1] == listing[..i] + [folder];
      assert folder !in listing[..i];
      if lib.entries[folder].Folder? {
        SweepFolder(lib, folder);
      }
      i := i + 1;
    }
    assert listing[..|listing|] == listing;
  }

  /** The inner loop of `cleanup_folders` over one folder. */
  method SweepFolder(lib: Directory, folder: string)
    requires folder in lib.entries && lib.entries[folder].Folder?
    modifies lib
    ensures lib.entries == old(lib.entries)[folder := Swept(old(lib.entries)[folder])]
  {
    ghost var orig := lib.entries[folder].files;
    var files := ListNames(lib.entries[folder].files);
    ghost var removed: set<string> := {};
    var j := 0;
    assert orig - removed == orig;
    assert old(lib.entries)[folder] == Folder(orig);
    assert lib.entries == old(lib.entries)[folder := Folder(orig - removed)];
    while j < |files|
      invariant 0 <= j <= |files|
      invariant removed == set f | f in files[..j] && IsNote(f)
      invariant lib.entries == old(lib.entries)[folder := Folder(orig - removed)]
    {
      var file := files[j];
      assert files[..j + 1] == files[..j] + [file];
      if IsNote(file) {
        assert file in lib.entries[folder].files by {
          assert file !in files[..j];
        }
        lib.RemoveFile(folder, file);
        assert orig - removed - {file} == orig - (removed + {file});
        removed := removed + {file};
      }
      j := j + 1;
    }
    assert files[..|files|] == files;
    assert orig - removed == set f | f in orig && !IsNote(f);
  }

  // ---------------------------------------------------------------------
  // main (app.py:75-79)

  /** `main`: rename the library's folders, then sweep them; a raised
      `os.rename` ends the script before the sweep. */
  method Run(lib: Directory) returns (listing: seq<string>, failedAt: Option<string>)
    modifies lib
    ensures Enumerates(listing, old(lib.entries))
    ensures Torrents.RenamePass(old(lib.entries), listing).failedAt == failedAt
    ensures failedAt.Some? ==> lib.entries == Torrents.RenamePass(old(lib.entries), listing).entries
    ensures failedAt.None? ==> lib.entries == WithoutNotes(Torrents.RenamePass(old(lib.entries), listing).entries)
  {
    listing, failedAt := Torrents.RenameFolders(lib);
    if failedAt.None? {
      CleanupFolders(lib);
    }
  }
}
