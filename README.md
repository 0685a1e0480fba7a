# Game Library Manager scripts, modelled in Dafny

This project models the housekeeping scripts of a self-hosted game library. The scripts do the following:

- They rename completed-download folders into a canonical form. For example, `foo_bar_windows_gog_(123)` becomes `Foo Bar (Windows) (GOG) (123)`.
- They move those folders into the library.
- They sweep the download site's note files (`…gog-games.to.txt`) out of every library folder.
- They report soundtrack and audio archives. Deleting those archives is disabled in the source.
- They reconcile a game catalogue served over HTTP (the "ROMM" API): empty games, games without an executable, and games that ship batch files.
- They read a `configparser` configuration with typed lookups and defaults.

Modules, one per source file or shared concern:

| module | file | models |
|---|---|---|
| `Common` | common.dfy | `Option`, `Result` |
| `Text` | text.dfy | The parts of Python's `str` that the scripts use, over ASCII. |
| `Helpers` | helpers.dfy | `tag` (src/modules/helpers.py, and its copies in src/modules/torrents.py and app.py) |
| `NameNormalizer` | normalizer.dfy | The name pipeline of `rename_folders` (src/modules/torrents.py:52-63 and app.py:32-43). |
| `FileSystem` | filesystem.dfy | One directory level of folders and files, with `os.listdir`, `os.rename`, `os.remove` and `mv`. |
| `Torrents` | torrents.dfy | `rename_folders`, `move_completed_torrents` and `torrent_manager` |
| `App` | app.dfy | The config read at import time, `cleanup_folders` and `main`. |
| `LibraryCleanup` | librarycleanup.dfy | `remove_extras` and `post_library_cleanup` |
| `ConfigParse` | configparse.dfy | `create_config_parser`, `load_config`, `get_config_value` and the module's settings |
| `RommApi` | rommapi.dfy | The `RommAPI` client: auth header, `_request`, `delete_games`, `get_platforms`, `get_platform_by_slug` and `filter_games`. |
| `RommCleanup` | rommcleanup.dfy | `find_empty`, `find_missing_exe`, `find_dangerous_filetypes` and `run` |

Modelling choices:

- **Pure pipelines.** The name pipeline, `tag`, the config conversions and the request builders are Dafny functions, and the lemmas are about those functions.
- **Loops.** The loops that change things step by step are methods with loop invariants. Each method is proved equal to a specification function:
  - `Torrents.RenamePass` and `Torrents.MovePass` for the rename and move loops;
  - `App.WithoutNotes` for the note sweep;
  - `RommCleanup.SelectIds` for the reconcilers' item loop;
  - `RommApi.FirstPlatformId` for the platform search;
  - `ConfigParse.LoadFrom` for the config search.
- **Directories.** A directory the scripts change in place is a `FileSystem.Directory` object. Its `entries` field maps each top-level name to a file or to a folder's set of file names.
- **Listing order.** `os.listdir` may return any order, so the listing is an arbitrary enumeration chosen by the model.
- **The catalogue client.** The client is a `RommApi.RommApi` object that logs every request it hands to the HTTP session. The server's answers are a function parameter, of the request and of every request the server received before it, so that a listing can reflect an earlier delete. Base64 encoding is a parameter too.
- **Points where the code is narrower than its names and settings.** The model follows the code:
  - src/modules/config_parse.py:127-129 binds `REMOVE_EXTRAS` and a lower-case `EXTRAS_PATTERNS` list, but no modelled code reads either. `remove_extras` hard-codes its own keyword list, `['_soundtrack_', 'OST', 'FLAC', 'WAV', 'MP3']`, and matches it case-sensitively (src/modules/library_cleanup.py:33-39).
  - The `os.remove` call of `remove_extras` is commented out (src/modules/library_cleanup.py:42). `LibraryCleanup.RemoveExtras` therefore changes nothing and only reports.
  - In app.py, `config.cfg` is read only when reading `config_hidden.cfg` returned no file. An existing but unopenable hidden file therefore falls through to `config.cfg`.
  - `load_config` stops at the first existing path whose `read` does not raise, even if nothing could be opened. `App.HiddenUnopenableDiffers` states that difference.

## Model

| member | source | states |
|---|---|---|
| Helpers.Tag | src/modules/helpers.py:3-8 | The result is present iff the value is truthy: not None and not empty. When present it is " (" + value + ")": three characters longer, opening with " (", closing with ")", and holding the value in between. The textually identical copies at src/modules/torrents.py:71-76 and app.py:52-57 share this definition. |
| Helpers.TagRoundTrip | src/modules/helpers.py:7-8 | For a non-empty value the tag is " (v)", and the value is read back by dropping the first two characters and the last one. |
| Helpers.TagFalsy | src/modules/helpers.py:7-8 | The empty string and None both give None. |
| Helpers.TagConstants | src/modules/torrents.py:54-55 | The f-strings render `tag("GOG")` and `tag("Windows")` as " (GOG)" and " (Windows)". |
| Text.ReplaceCharRemoves | src/modules/torrents.py:58 | Replacing a one-character pattern by a string that lacks that character leaves no occurrence of it. |
| Text.WordsAreWords | src/modules/torrents.py:63 | Every token of `str.split()` is non-empty and free of whitespace. |
| Text.WordsOfJoin | src/modules/torrents.py:61-63 | Splitting tokens joined with single spaces gives the tokens back. |
| Text.JoinCanonical | src/modules/torrents.py:61 | Joining tokens with single spaces gives a string with no surrounding whitespace and exactly one space between words. |
| Text.StripIsStripped | src/modules/config_parse.py:83 | `strip()` leaves no whitespace at either end. |
| Text.SplitOnJoin | src/modules/config_parse.py:83 | `split(",")` of comma-free pieces joined with commas gives back the pieces. |
| NameNormalizer.RewriteNoUnderscore | src/modules/torrents.py:54-58 | After the `_gog`, `_windows` and `_` replacements, no underscore is left. |
| NameNormalizer.FixWordKeeps | src/modules/torrents.py:61-63 | The per-token capitalisation keeps a token non-empty, the same length, free of whitespace and free of underscores. |
| NameNormalizer.FixedWordsOk | src/modules/torrents.py:58-63 | Every token that the final join receives is non-empty and has no whitespace and no underscore. |
| NameNormalizer.NormalizeNoUnderscore | src/modules/torrents.py:52-63 | A normalised name contains no underscore. |
| NameNormalizer.NormalizeCanonical | src/modules/torrents.py:61-63 | A normalised name has no leading or trailing whitespace, and its words are separated by exactly one space. |
| NameNormalizer.NormalizeBlank | src/modules/torrents.py:61-63 | An empty or all-whitespace name normalises to "". |
| NameNormalizer.NormalizeWords | src/modules/torrents.py:61-63 | The i-th word of the result comes from the i-th word of the rewritten name. A word that starts with "(" or ends with ")" is kept verbatim. Any other word gets its first character upper-cased and the rest lower-cased. |
| NameNormalizer.FixWordIdempotent | src/modules/torrents.py:62 | Capitalising a token twice equals capitalising it once. |
| NameNormalizer.NormalizeIdempotent | src/modules/torrents.py:52-63 | Normalising a normalised name changes nothing. |
| NameNormalizer.RewriteWindowsGog | src/modules/torrents.py:54-58 | Because `_gog` is replaced before `_windows`, `x_windows_gog` is rewritten to `x (Windows) (GOG)`. |
| NameNormalizer.WindowsGogSuffix | src/modules/torrents.py:54-63 | A plain word followed by `_windows_gog` normalises to the capitalised word followed by " (Windows) (GOG)". |
| NameNormalizer.RewriteTagged | src/modules/torrents.py:54-58 | Words joined with `_`, then `_windows_gog_` and a parenthetical token, are rewritten to the words joined with spaces, then " (Windows) (GOG) " and the token. The words hold no `_`, and no word after the first starts with `gog` or `windows`: such a word would itself meet a `_gog` or `_windows` replacement. |
| NameNormalizer.TaggedName | src/modules/torrents.py:52-63 | A name made of words joined with `_` and tagged `_windows_gog_(id)` normalises to its capitalised words, "(Windows)", "(GOG)" and "(id)", joined with single spaces. The words are plain (not parenthetical), and no word after the first starts with `gog` or `windows`, as for `RewriteTagged`. The copy of the pipeline at app.py:32-43 is the same function. |
| FileSystem.Renamed | src/modules/torrents.py:65 | Implements `os.rename` with POSIX semantics. It fails (None) iff the new name differs from the old and is empty, ".", "..", a file, or a non-empty folder. On success the folder appears under the new name with its contents, and every other entry is unchanged. |
| FileSystem.ListNames | app.py:65 | `os.listdir` of a folder lists every file exactly once and nothing else. |
| FileSystem.ListDir | src/modules/torrents.py:49 | `os.listdir` of a directory enumerates its entries, each exactly once. |
| FileSystem.Directory.Rename | src/modules/torrents.py:65 | `os.rename` in place. It succeeds iff `Renamed` does, and the directory becomes `Renamed`'s result, or stays unchanged when the call raises. |
| FileSystem.Directory.RemoveFile | app.py:67-68 | `os.remove` takes exactly that file out of exactly that folder. |
| FileSystem.Move | src/modules/torrents.py:36-38 | A successful `mv` of a folder to the same name in the library removes it from the source and adds it, with its contents, to the destination. |
| Torrents.RenamePassKeepsFiles | src/modules/torrents.py:49-50 | Plain files in the directory are never renamed, replaced or removed. |
| Torrents.RenamePassNormalizes | src/modules/torrents.py:47-68 | A pass that completes over a listing that names every folder leaves only folders whose names are already normalised. |
| Torrents.RenamePassFailure | src/modules/torrents.py:65 | A pass that stops does so at a listed folder whose rename raises. |
| Torrents.MovePassFrame | src/modules/torrents.py:32-41 | Names that the listing does not contain are untouched in both directories. |
| Torrents.MovePassMoves | src/modules/torrents.py:33-38 | A listed folder whose `mv` succeeds leaves the download directory and appears in the library under the same name with the same contents. |
| Torrents.MovePassKeeps | src/modules/torrents.py:34-41 | Plain files, and folders whose `mv` fails, stay where they are, unchanged, and the loop goes on. |
| Torrents.MovePassGrows | src/modules/torrents.py:30-43 | Moving never loses a library entry. |
| Torrents.RenameFolders | src/modules/torrents.py:47-68 | The loop lists the directory once and leaves it as `RenamePass` of that listing. It reports the folder whose rename raised, if any. When nothing raised, every remaining folder name is normalised. app.py:27-49 is the same loop over the library. |
| Torrents.MoveCompletedTorrents | src/modules/torrents.py:30-43 | The loop lists the download directory once and leaves both directories as `MovePass` of that listing. |
| Torrents.TorrentManager | src/modules/torrents.py:19-27 | Renaming comes first, over one listing of the download directory, with `RenamePass` of that listing as its outcome. If a rename raised, the download directory is as `RenamePass` left it and the library is untouched. Otherwise the move runs over a fresh listing of the renamed directory, both directories end as `MovePass` of that listing, and the library only gains entries. |
| App.AppParser | app.py:15-20 | When `config_hidden.cfg` reads a file, app.py has that read's outcome: its contents, or the exception that ends the script, which an unparsable file always raises. When it opens nothing, `config.cfg` is read. |
| App.GamePath | app.py:23 | `game_path` is obtained iff the config reads without raising and has `admin.game_library_root_path`, and it is that option's value. |
| App.HiddenUnopenableDiffers | app.py:19-20 | When `config_hidden.cfg` exists but cannot be opened, app.py reads `config.cfg`, while `load_config` returns an empty parser. |
| App.HiddenReadsAgree | app.py:19-20 | When `config_hidden.cfg` reads, app.py and `load_config` build the same parser. |
| App.Swept | app.py:64-68 | A folder loses exactly its files that end in `gog-games.to.txt`. A plain file stays a file. |
| App.WithoutNotes | app.py:60-71 | After the sweep the library has the same top-level names, and each entry is swept. |
| App.WithoutNotesExact | app.py:62-68 | Exactly the note files directly inside top-level folders go. Every other file, every folder, and every top-level file stays. |
| App.WithoutNotesIdempotent | app.py:60-71 | Sweeping a second time removes nothing more. |
| App.NoteIsCaseSensitive | app.py:66 | The suffix test is case-sensitive: an upper-case note file escapes the sweep. |
| App.CleanupFolders | app.py:60-71 | `cleanup_folders` leaves the library as `WithoutNotes` of the library before it. |
| App.SweepFolder | app.py:65-69 | The inner loop sweeps one folder and changes no other entry. |
| App.Run | app.py:75-79 | `main` renames first and sweeps afterwards. The sweep is skipped when a rename raised. |
| LibraryCleanup.LowerCaseNames | src/modules/library_cleanup.py:33-39 | A name without upper-case letters can be flagged only through `_soundtrack_`, so a lower-case "ost" is not a match. |
| LibraryCleanup.NotZipNeverExtra | src/modules/library_cleanup.py:39 | A file not ending in `.zip` is never flagged, whatever it contains. |
| LibraryCleanup.KeywordZipIsExtra | src/modules/library_cleanup.py:33-39 | Any name made of some text, a keyword, more text and `.zip` is flagged. |
| LibraryCleanup.ExtraSplits | src/modules/library_cleanup.py:33-39 | Conversely, every flagged name has that form: the keyword found lies wholly before the `.zip` extension. With `KeywordZipIsExtra` this characterises the flagged names. |
| LibraryCleanup.RemoveExtras | src/modules/library_cleanup.py:25-47 | It reports (folder, file) iff the file sits directly in that top-level folder, contains a keyword and ends in `.zip`. Each pair is reported once. It takes no `modifies` clause, because nothing is deleted. |
| LibraryCleanup.PostLibraryCleanup | src/modules/library_cleanup.py:12-22 | It reports exactly what `remove_extras` reports. |
| ConfigParse.OptionXform | src/modules/config_parse.py:25 | An option name is stored as its lower-case form, `str.lower` over ASCII: the same length, with each character lowered. |
| ConfigParse.CreateConfigParser | src/modules/config_parse.py:17-26 | A new parser holds no defaults and no sections. |
| ConfigParse.OpenSection | src/modules/config_parse.py:48 | A `[name]` header adds that section (DEFAULT excepted) and keeps every existing section's options. |
| ConfigParse.ReadOptions | src/modules/config_parse.py:48 | Reading a header's options never adds or drops a section and only adds to the (section, option) pairs set so far. It can raise only DuplicateOptionError. |
| ConfigParse.ReadBody | src/modules/config_parse.py:48 | Reading the headers of a file never drops a section, even when it raises part way. |
| ConfigParse.AfterRead | src/modules/config_parse.py:48 | An unopenable file is skipped without raising and changes nothing. A file with a syntax error always raises. No read drops a section. |
| ConfigParse.Escaping | src/modules/config_parse.py:47-52 | A read's caller sees the parser iff the read did not raise, and otherwise the exception it raised. |
| ConfigParse.ConfigParser.Read | src/modules/config_parse.py:48 | `read` fills the parser in place: the parser becomes what `AfterRead` stores, including what was stored before an exception, and the method reports a raise iff `AfterRead` raised. |
| ConfigParse.LoadConfig | src/modules/config_parse.py:29-54 | `load_config` returns a fresh parser holding `LoadFrom` over the given paths, or over the default paths when none are given. |
| ConfigParse.LoadFromFirst | src/modules/config_parse.py:45-50 | The first existing path that reads without raising provides the configuration, and later paths are never read. |
| ConfigParse.LoadFromNothing | src/modules/config_parse.py:45-54 | When none of the paths exists, the parser is returned as it was. |
| ConfigParse.LoadFromKeeps | src/modules/config_parse.py:45-54 | The search never drops a section. What a read stored before raising stays when the search moves on to the next path. |
| ConfigParse.UnparsableKeepsFirst | src/modules/config_parse.py:47-52 | A file with a syntax error raises, yet its first well-formed section is stored in the parser. |
| ConfigParse.HiddenUnopenable | src/modules/config_parse.py:39-50 | An existing but unopenable `config_hidden.cfg` ends the search with an empty parser. |
| ConfigParse.Get | src/modules/config_parse.py:74 | The lookup raises NoSectionError iff the section is neither present nor DEFAULT. |
| ConfigParse.GetIgnoresCase | src/modules/config_parse.py:25 | Option lookup ignores the case of the option name. |
| ConfigParse.ReadOptionsStores | src/modules/config_parse.py:48 | After a successful read, each option of the header is found under its lower-cased name with the file's value. |
| ConfigParse.ReadOptionsKeeps | src/modules/config_parse.py:48 | A successful read never overwrites an option that the same header already set. |
| ConfigParse.CaseCollisionRaises | src/modules/config_parse.py:25 | Two spellings of one option under a header that differ only in case make the read raise. |
| ConfigParse.SeenRaises | src/modules/config_parse.py:48 | An option whose lowered name the file has already set under the same section makes the read raise. |
| ConfigParse.ReadOptionsDistinct | src/modules/config_parse.py:48 | Options whose lowered names are distinct and not yet set under the section read without raising. The pairs set afterwards are exactly the earlier ones plus (section, lowered name) for each option. |
| ConfigParse.ReadOptionsAdds | src/modules/config_parse.py:48 | After a header's options read without raising, each is recorded as set under its section. |
| ConfigParse.RepeatedDefault | src/modules/config_parse.py:48 | Two `[DEFAULT]` headers in one file read without raising when no lowered option name occurs twice among them: DEFAULT is exempt from DuplicateSectionError. |
| ConfigParse.RepeatedDefaultOption | src/modules/config_parse.py:48 | One lowered option name under two `[DEFAULT]` headers of one file makes the read raise: duplicates are tracked per (section, option) across headers. |
| ConfigParse.RepeatedSection | src/modules/config_parse.py:48 | A section other than DEFAULT opened twice in one file makes the read raise. |
| ConfigParse.ParseIntDecimal | src/modules/config_parse.py:76 | `getint` reads back the decimal rendering of any integer. |
| ConfigParse.ParseIntNegative | src/modules/config_parse.py:76 | `getint` reads back a minus sign followed by the decimal rendering of a natural number as its negation. |
| ConfigParse.ParseIntStrip | src/modules/config_parse.py:76 | Surrounding whitespace does not change what `getint` reads. |
| ConfigParse.ParseBool | src/modules/config_parse.py:80 | `getboolean` gives true iff the lower-cased value is 1, yes, true or on. It gives false iff the lower-cased value is 0, no, false or off. Anything else fails. |
| ConfigParse.ParseBoolIgnoresCase | src/modules/config_parse.py:80 | `getboolean` ignores case. |
| ConfigParse.StripAllMembers | src/modules/config_parse.py:83 | An item is in the list iff it is the non-empty strip of some piece. |
| ConfigParse.StripAllItems | src/modules/config_parse.py:83 | Every kept item is non-empty and stripped. |
| ConfigParse.ParseListItems | src/modules/config_parse.py:81-83 | Every item of a parsed list is non-empty, with no surrounding whitespace. |
| ConfigParse.ParseListJoin | src/modules/config_parse.py:81-83 | Parsing non-empty, stripped, comma-free items joined with commas gives back the same items in the same order. |
| ConfigParse.GetConfigValue | src/modules/config_parse.py:57-92 | A missing section or option gives the default, unconverted. Otherwise `str`, or a type the function does not know, gives the raw string. `int` and `bool` give the converted value, or the default when the conversion fails. `list` gives the stripped, non-empty comma-separated items. |
| ConfigParse.GetConfigValueInt | src/modules/config_parse.py:75-76 | An `int` lookup of an option written as a decimal number gives that number. |
| ConfigParse.ParseIntRejects | src/modules/config_parse.py:76 | `int()` fails on any value holding a character that is not whitespace, a sign, a digit or an underscore. |
| ConfigParse.GetConfigValueNotInt | src/modules/config_parse.py:75-76 | An `int` lookup of such a value, "abc" for one, gives the default. |
| ConfigParse.GetConfigValueList | src/modules/config_parse.py:81-83 | A `list` lookup of a present option gives a list of non-empty, stripped items. |
| ConfigParse.SettingsOf | src/modules/config_parse.py:96-131 | Without an `[admin]` section, `game_path` is "/data/library/" and `WAIT_TIME` is 4. Without a `[cleanup]` section, `EXTRAS_PATTERNS` stays the raw default string and `REMOVE_EXTRAS` is true. |
| RommApi.Credentials | src/modules/api/romm.py:22 | The credentials string is the username, one colon, then the password. |
| RommApi.CredentialsSplit | src/modules/api/romm.py:22 | When the username has no colon, splitting at the first colon gives back the username and the password (section 2 of RFC 7617). |
| RommApi.AuthHeaders | src/modules/api/romm.py:18-24 | The headers are `{"Authorization": "Basic " + b64(user:pass)}` iff both username and password are truthy. Otherwise they are `{}`. |
| RommApi.AuthHeaderRoundTrip | src/modules/api/romm.py:21-24 | Given a Base64 decoder, the username and password can be recovered from the header. |
| RommApi.MergeHeaders | src/modules/api/romm.py:30-33 | The caller's headers are updated with the client's own, so the client's own win. With no caller headers, the client's own are used. |
| RommApi.Outcome | src/modules/api/romm.py:35-42 | A failed request is re-raised with its error. Otherwise an empty body gives None, and a non-empty body gives its parsed JSON. |
| RommApi.FilterParams | src/modules/api/romm.py:118-132 | `platform_id` and `limit` are present iff they are not None, with the given values. Every keyword argument is present with its value, and no other key appears. Python's keyword binding keeps those two names out of `kwargs`, which the precondition states. |
| RommApi.DeletePayload | src/modules/api/romm.py:47 | The body is exactly `{"roms": ids, "delete_from_fs": []}`. |
| RommApi.FirstPlatformIdFinds | src/modules/api/romm.py:101-103 | The id of the first platform whose `fs_slug` matches is returned. |
| RommApi.FirstPlatformIdMisses | src/modules/api/romm.py:101-104 | A list in which no platform matches gives None. |
| RommApi.PlatformIdFor | src/modules/api/romm.py:99-104 | An empty or missing platform list gives None. |
| RommApi.RommApi.constructor | src/modules/api/romm.py:12-24 | The client keeps its configuration, computes its auth headers, and has sent nothing yet. |
| RommApi.RommApi.RequestFor | src/modules/api/romm.py:26-35 | The URL is the base URL followed by the endpoint. The headers are merged, and the method, query and body are passed through. |
| RommApi.RommApi.Send | src/modules/api/romm.py:26-42 | `_request` logs exactly one request and returns the server's outcome for it, answered after the requests logged before. |
| RommApi.RommApi.DeleteGames | src/modules/api/romm.py:46-49 | It sends one POST to `/api/roms/delete` carrying the delete payload. |
| RommApi.RommApi.GetPlatforms | src/modules/api/romm.py:74-79 | It sends one GET to `/api/platforms`. |
| RommApi.RommApi.GetPlatformBySlug | src/modules/api/romm.py:94-104 | It sends one GET to `/api/platforms`. The loop with its early return gives the first matching platform's id, or None, or the exception. |
| RommApi.RommApi.FilterGames | src/modules/api/romm.py:106-134 | It sends one GET to `/api/roms` with the `filter_games` parameters. |
| RommCleanup.Elements | src/modules/romm_library_cleanup.py:36 | A list is walked element by element. Anything else is walked without error only when it is falsy. |
| RommCleanup.Flagged | src/modules/romm_library_cleanup.py:37 | An item that is not an object raises. |
| RommCleanup.SelectIdsAppend | src/modules/romm_library_cleanup.py:36-40 | The ids collected from two parts of a listing are those of each part, in order. |
| RommCleanup.SelectIdsExact | src/modules/romm_library_cleanup.py:36-40 | When the loop completes, every item is an object whose test does not raise, no more ids than items are collected, and a flagged item's id is always collected. |
| RommCleanup.SelectIdsOnlyFlagged | src/modules/romm_library_cleanup.py:36-40 | Conversely, every collected id is the id of a flagged item. |
| RommCleanup.SelectIdsOne | src/modules/romm_library_cleanup.py:36-40 | One item contributes its id when flagged, nothing when not, and its exception when the test raises. With `SelectIdsAppend` this fixes what any listing collects. |
| RommCleanup.AnyFileEndsFalse | src/modules/romm_library_cleanup.py:63-66 | The file loop finds no match iff every file is an object with a string `file_name` and no name ends with a suffix. |
| RommCleanup.AnyFileEndsTrue | src/modules/romm_library_cleanup.py:63-66 | The file loop finds a match iff some file's name ends with a suffix and every file before it is well formed and does not match. |
| RommCleanup.NoFilesMissingExe | src/modules/romm_library_cleanup.py:60-70 | An item without files counts as missing its executable. |
| RommCleanup.ExeIsCaseSensitive | src/modules/romm_library_cleanup.py:64 | The `.exe` test is a case-sensitive suffix test, so `X.EXE` does not count. |
| RommCleanup.DangerousFileFound | src/modules/romm_library_cleanup.py:92-97 | A `.bat` or `.cmd` file anywhere among well-formed files makes the item dangerous. |
| RommCleanup.EmptyExample | src/modules/romm_library_cleanup.py:36-40 | Of a zero-size game and a 500-byte game, only the first is collected. |
| RommCleanup.ScanFiles | src/modules/romm_library_cleanup.py:63-66 | The file loop with its `break` computes `AnyFileEnds`. |
| RommCleanup.CollectIds | src/modules/romm_library_cleanup.py:34-40 | The item loop collects exactly `SelectIds`, in listing order, or the exception that escapes it. |
| RommCleanup.ReconcileShape | src/modules/romm_library_cleanup.py:28-102 | A reconciler sends the listing request first, then a second request iff it is not the dangerous-file scan and it collected ids; that request deletes exactly those ids. When it returns normally it returns the ids it collected, and an exception while collecting is its result. |
| RommCleanup.Find | src/modules/romm_library_cleanup.py:28-102 | `find_empty`, `find_missing_exe` and `find_dangerous_filetypes` hand the session exactly the requests of `Reconcile`, answered after the log as it stood at the call, and return its result. |
| RommCleanup.Enabled | src/modules/romm_library_cleanup.py:15-22 | A reconciler is scheduled iff its flag is set. |
| RommCleanup.EnabledOrder | src/modules/romm_library_cleanup.py:17-22 | Scheduled reconcilers run empty first, then missing-exe, then dangerous, each at most once. |
| RommCleanup.Log | src/modules/romm_library_cleanup.py:16-23 | The log after a sequence of reconcilers starts with the log before them and grows by one or two requests for each. |
| RommCleanup.ListingAfterDelete | src/modules/romm_library_cleanup.py:17-20 | When the first of two reconcilers deletes games, the second one's listing is answered after that listing and delete, so a catalogue that drops deleted games no longer shows them to it. |
| RommCleanup.RunOne | src/modules/romm_library_cleanup.py:17-22 | One scheduled reconciler runs after the earlier ones: the request log grows by its requests, answered after everything sent before, and the run is reported as crashed iff it raised. |
| RommCleanup.Stage | src/modules/romm_library_cleanup.py:17-22 | One `if flag: find_…()` of `run`, skipped once a reconciler has raised. It keeps the run state: the log grew by the requests of the reconcilers that ran, in order, each answered after all the requests before it, and all of them returned but possibly the last, which raised. Those that ran stay a prefix of the enabled ones so far, and are all of them when none raised. |
| RommCleanup.RunLater | src/modules/romm_library_cleanup.py:19-22 | The missing-exe and dangerous-file `if`s, after the empty-game one. They keep the same run state, with the enabled list extended by the flags that are set, in that order. |
| RommCleanup.RunEnabled | src/modules/romm_library_cleanup.py:16-23 | The reconcilers that ran are a prefix of the enabled ones, and all of them when none raised. The request log grows by their requests, in order, each reconciler's answered after the earlier ones' deletes. Every reconciler but the last returned normally, and the last raised iff the run crashed. |
| RommCleanup.Run | src/modules/romm_library_cleanup.py:10-25 | When disabled, nothing runs and nothing is sent. Otherwise the enabled reconcilers run in order until one raises: the log grows by exactly their requests, each answered after all earlier requests (so a later listing follows an earlier delete), and the run crashed iff the last of them raised. |

## Left out

- Logging: every `logger` call, and src/logger_config.py, are not part of this model.
- Characters beyond ASCII: `str.capitalize`, `lower`, `split()` and `strip()` are defined over ASCII only.
- The `mv` subprocess: its failure is a set of folder names passed in. Moving into an existing directory, and overwrite semantics, are not modelled; a successful `mv` replaces any library entry of the same name.
- Rename collisions: two folders that normalise to the same name are handled only through the POSIX `rename` rule in `FileSystem.Renamed`. No merge or suffixing is modelled.
- Nested folders: the contents of a library folder are a set of file names. Sub-folders inside a library folder are not modelled.
- configparser's file syntax, interpolation and error messages: a config file is given already split into headers and options, or as unopenable, or as unparsable. Failures from `ExtendedInterpolation` are not modelled.
- ConfigParse.GetConfigValue: the `float` type is excluded by its precondition, because `getfloat` is floating point.
- JSON decoding and Base64: `resp.json()` is given as part of each response, and Base64 encoding is a function parameter.
- The HTTP session and `raise_for_status`: the server is a function of the request and of the requests it received before; what it answers is not constrained further.
- The `ROMM_*` settings: src/modules/api/romm.py:6 and src/modules/romm_library_cleanup.py:15-21 import names that src/modules/config_parse.py neither defines nor exports. The model takes them as constructor and `Run` parameters.
- Client objects: each reconciler creates its own `RommAPI()`. The model passes one client object to all of them, and its request log then holds every reconciler's requests in order.
- The GET wrappers `get_game_by_id`, `heartbeat`, `get_profile`, `get_config`, `get_collections` and `get_virtual_collections`, and the static `test`: each is a single `_request` call (`RommApi.RommApi.Send`) with a fixed endpoint, and none is used by the modelled code.
- Python equality across types: JSON values are modelled without floating-point numbers. `fs_size_bytes == 0` matches the integer 0 and `False`, but not a JSON `0.0`, which Python also counts as equal. The platform lookup compares `fs_slug` with the slug structurally, so a slug of `True` does not match an `fs_slug` of 1 as it does in Python.
- The example name `stalker_2_heart_of_chornobyl_windows_gog_(83415)`: it is an instance of `NameNormalizer.TaggedName`, with `ws` set to its five words and `t` set to "(83415)". The instance itself is not stated as a separate lemma.
- Unused settings: `EXTRAS_PATTERNS` and the `REMOVE_*` flags are read into `ConfigParse.SettingsOf`, but no modelled code consults them. src/modules/library_cleanup.py:33 uses its own keyword list.
- RommApi.MergeHeaders: `_request` updates the caller's `headers` dictionary in place (src/modules/api/romm.py:30-31). The model computes the merged headers as a new value, and no modelled caller passes headers of its own.
- Torrents.MoveCompletedTorrents: the download directory and the library must be two different directory objects. The source accepts one path for both, in which case every `mv` of a folder onto itself fails; that case is not modelled.
