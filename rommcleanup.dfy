/**
 * src/modules/romm_library_cleanup.py: three reconcilers over the
 * catalogue's game listing. Each asks for the listing, collects the ids of
 * the games that fail its test, and (except the dangerous-file scan, which
 * only reports) asks the catalogue to delete them in one call.
 */
module RommCleanup {
  import opened Common
  import opened Text
  import opened RommApi

  datatype Check = EmptyCheck | MissingExeCheck | DangerousCheck

  /** The keyword arguments every reconciler passes to `filter_games`. */
  const ListingArgs: map<string, Json> :=
    map["offset" := JInt(0), "order_by" := JStr("fs_size_bytes"), "order_dir" := JStr("asc"), "group_by_meta_id" := JBool(true)]

  /** The keys the reconcilers read from the catalogue's JSON. */
  const ItemsKey := "items"
  const FilesKey := "files"
  const IdKey := "id"
  const FileNameKey := "file_name"
  const SizeKey := "fs_size_bytes"

  /** The suffixes the missing-executable and dangerous-file scans test. */
  const ExeSuffixes := [".exe"]
  const ScriptSuffixes := [".bat", ".cmd"]

  /** The messages of the exceptions the reconcilers' loops can raise. */
  const StrHasNoGet := "AttributeError: 'str' object has no attribute 'get'"
  const NotIterable := "TypeError: object is not iterable"
  const NoGet := "AttributeError: no attribute 'get'"
  const NoEndswith := "AttributeError: no attribute 'endswith'"

  /** What a `for x in j` loop whose body calls `x.get(...)` walks over: a
      list's elements; an empty dict or string yields nothing; a non-empty
      dict or string yields strings, whose missing `get` raises; anything
      else is not iterable and raises. */
  function Elements(j: Json): (r: Result<seq<Json>, string>)
    ensures j.JList? ==> r == Ok(j.items)
    ensures r.Ok? ==> j.JList? || !Truthy(j)
  {
    match j
    case JList(xs) => Ok(xs)
    case JObj(m) => if m == map[] then Ok([]) else Err(StrHasNoGet)
    case JStr(s) => if s == "" then Ok([]) else Err(StrHasNoGet)
    case _ => Err(NotIterable)
  }

  /** `data.get('items', [])` on the listing `filter_games` returned; an
      empty body (None) or a non-object raises. */
  function Items(data: Option<Json>): Result<seq<Json>, string> {
    if data.Some? && data.value.JObj? then Elements(GetField(data.value.fields, ItemsKey, JList([])))
    else Err(NoGet)
  }

  /** `fs_size_bytes == 0`: Python's `==` also holds for `False`. */
  predicate IsZero(j: Json) {
    j == JInt(0) || j == JBool(false)
  }

  /** `name.endswith(suffixes)` for a tuple of suffixes. */
  predicate EndsWithAny(name: string, suffixes: seq<string>) {
    exists k :: 0 <= k < |suffixes| && EndsWith(name, suffixes[k])
  }

  /** A file entry the loop can test: an object whose `file_name` is a string. */
  predicate WellFormedFile(file: Json) {
    file.JObj? && GetField(file.fields, FileNameKey, JNull).JStr?
  }

  function FileName(file: Json): string
    requires WellFormedFile(file)
  {
    GetField(file.fields, FileNameKey, JNull).s
  }

  /** The file loop with its `break`: whether some file's `file_name` ends
      with one of `suffixes`, looking no further than the first that does. A
      file that is not an object, or whose name is not a string, raises. */
  function AnyFileEnds(files: seq<Json>, suffixes: seq<string>): (r: Result<bool, string>)
    decreases |files|
  {
    if files == [] then Ok(false)
    else if !files[0].JObj? then Err(NoGet)
    else
      var name := GetField(files[0].fields, FileNameKey, JNull);
      if !name.JStr? then Err(NoEndswith)
      else if EndsWithAny(name.s, suffixes) then Ok(true)
      else AnyFileEnds(files[1..], suffixes)
  }

  /** Whether a reconciler collects an item. */
  function Flagged(c: Check, item: Json): (r: Result<bool, string>)
    ensures !item.JObj? ==> r.Err?
  {
    if !item.JObj? then Err(NoGet)
    else match c
      case EmptyCheck => Ok(IsZero(GetField(item.fields, SizeKey, JNull)))
      case MissingExeCheck =>
        (match Elements(GetField(item.fields, FilesKey, JList([])))
         case Err(e) => Err(e)
         case Ok(files) =>
           match AnyFileEnds(files, ExeSuffixes)
           case Err(e) => Err(e)
           case Ok(present) => Ok(!present))
      case DangerousCheck =>
        (match Elements(GetField(item.fields, FilesKey, JList([])))
         case Err(e) => Err(e)
         case Ok(files) => AnyFileEnds(files, ScriptSuffixes))
  }

  /** `item.get('id')`. */
  function IdOf(item: Json): Json
    requires item.JObj?
  {
    GetField(item.fields, IdKey, JNull)
  }

  /** The ids a reconciler collects, in listing order, or the exception that
      escapes its loop. */
  function SelectIds(c: Check, items: seq<Json>): Result<seq<Json>, string>
    decreases |items|
  {
    if items == [] then Ok([])
    else match Flagged(c, items[0])
      case Err(e) => Err(e)
      case Ok(f) =>
        match SelectIds(c, items[1..])
        case Err(e) => Err(e)
        case Ok(rest) => Ok((if f then [IdOf(items[0])] else []) + rest)
  }

  /** `ids` collected so far, followed by what the rest of the loop collects. */
  function Prepend(ids: seq<Json>, r: Result<seq<Json>, string>): Result<seq<Json>, string> {
    if r.Err? then r else Ok(ids + r.value)
  }

  // ---------------------------------------------------------------------
  // Properties of the selection

  /** The loop over two parts of a listing collects what it collects from
      each, in order. */
  lemma {:induction false} SelectIdsAppend(c: Check, a: seq<Json>, b: seq<Json>)
    ensures SelectIds(c, a + b) ==
      match SelectIds(c, a)
      case Err(e) => Err(e)
      case Ok(ids) => Prepend(ids, SelectIds(c, b))
    decreases |a|
  {
    if a == [] {
      assert a + b == b;
      PrependNil(SelectIds(c, b));
    } else {
      assert (a + b)[0] == a[0];
      assert (a + b)[1..] == a[1..] + b;
      SelectIdsAppend(c, a[1..], b);
      match Flagged(c, a[0])
      case Err(e) =>
      case Ok(f) =>
        match SelectIds(c, a[1..])
        case Err(e) =>
        case Ok(rest) =>
          var head: seq<Json> := if f then [IdOf(a[0])] else [];
          match SelectIds(c, b)
          case Err(e) =>
          case Ok(tail) =>
            assert head + (rest + tail) == (head + rest) + tail;
    }
  }

  /** Each item contributes at most one id, and an item's id is collected
      exactly when the item is flagged. */
  lemma {:induction false} SelectIdsExact(c: Check, items: seq<Json>, i: nat)
    requires SelectIds(c, items).Ok? && i < |items|
    ensures Flagged(c, items[i]).Ok? && items[i].JObj?
    ensures |SelectIds(c, items).value| <= |items|
    ensures Flagged(c, items[i]).value ==> IdOf(items[i]) in SelectIds(c, items).value
    decreases |items|
  {
    if i > 0 {
      SelectIdsExact(c, items[1..], i - 1);
    } else if |items| > 1 {
      SelectIdsExact(c, items[1..], 0);
    }
  }

  /** The file loop finds no match exactly when every file is well formed
      and none of their names ends with a suffix. */
  lemma {:induction false} AnyFileEndsFalse(files: seq<Json>, suffixes: seq<string>)
    ensures AnyFileEnds(files, suffixes) == Ok(false) <==>
      forall i :: 0 <= i < |files| ==> WellFormedFile(files[i]) && !EndsWithAny(FileName(files[i]), suffixes)
    decreases |files|
  {
    if files != [] {
      AnyFileEndsFalse(files[1..], suffixes);
      if forall i :: 0 <= i < |files| ==> WellFormedFile(files[i]) && !EndsWithAny(FileName(files[i]), suffixes) {
        forall i | 0 <= i < |files| - 1
          ensures WellFormedFile(files[1..][i]) && !EndsWithAny(FileName(files[1..][i]), suffixes)
        {
          assert files[1..][i] == files[i + 1];
        }
      }
      if AnyFileEnds(files, suffixes) == Ok(false) {
        forall i | 0 <= i < |files| ensures WellFormedFile(files[i]) && !EndsWithAny(FileName(files[i]), suffixes) {
          if i > 0 {
            assert files[i] == files[1..][i - 1];
          }
        }
      }
    }
  }

  /** The file at `i` is the first whose name ends with a suffix, and every
      file before it is well formed. */
  predicate FirstMatchAt(files: seq<Json>, suffixes: seq<string>, i: int) {
    0 <= i < |files| && WellFormedFile(files[i]) && EndsWithAny(FileName(files[i]), suffixes) &&
    forall j :: 0 <= j < i ==> WellFormedFile(files[j]) && !EndsWithAny(FileName(files[j]), suffixes)
  }

  /** The file loop finds a match exactly when some file is the first match
      and every file before it is well formed. */
  lemma {:induction false} AnyFileEndsTrue(files: seq<Json>, suffixes: seq<string>)
    ensures AnyFileEnds(files, suffixes) == Ok(true) <==> exists i :: FirstMatchAt(files, suffixes, i)
    decreases |files|
  {
    if files != [] {
      AnyFileEndsTrue(files[1..], suffixes);
      if AnyFileEnds(files, suffixes) == Ok(true) {
        if FirstMatchAt(files, suffixes, 0) {
        } else {
          var i :| FirstMatchAt(files[1..], suffixes, i);
          forall j | 0 <= j < i + 1 ensures WellFormedFile(files[j]) && !EndsWithAny(FileName(files[j]), suffixes) {
            if j > 0 {
              assert files[j] == files[1..][j - 1];
            }
          }
          assert files[i + 1] == files[1..][i];
          assert FirstMatchAt(files, suffixes, i + 1);
        }
      } else if exists i :: FirstMatchAt(files, suffixes, i) {
        var i :| FirstMatchAt(files, suffixes, i);
        assert i > 0;
        assert files[1..][i - 1] == files[i];
        forall j | 0 <= j < i - 1 ensures WellFormedFile(files[1..][j]) && !EndsWithAny(FileName(files[1..][j]), suffixes) {
          assert files[1..][j] == files[j + 1];
        }
        assert FirstMatchAt(files[1..], suffixes, i - 1);
      }
    }
  }

  /** Every collected id is the id of a flagged item. */
  lemma {:induction false} SelectIdsOnlyFlagged(c: Check, items: seq<Json>, x: Json)
    requires SelectIds(c, items).Ok? && x in SelectIds(c, items).value
    ensures exists i :: 0 <= i < |items| && items[i].JObj? && Flagged(c, items[i]) == Ok(true) && IdOf(items[i]) == x
    decreases |items|
  {
    var f := Flagged(c, items[0]).value;
    var rest := SelectIds(c, items[1..]).value;
    if f && x == IdOf(items[0]) {
      assert Flagged(c, items[0]) == Ok(true);
    } else {
      assert x in rest;
      SelectIdsOnlyFlagged(c, items[1..], x);
      var i :| 0 <= i < |items[1..]| && items[1..][i].JObj? && Flagged(c, items[1..][i]) == Ok(true) && IdOf(items[1..][i]) == x;
      assert items[1..][i] == items[i + 1];
    }
  }

  /** A single item contributes its id when flagged, nothing when not, and
      its exception when the test raises. */
  lemma SelectIdsOne(c: Check, item: Json)
    ensures Flagged(c, item).Err? ==> SelectIds(c, [item]) == Err(Flagged(c, item).error)
    ensures Flagged(c, item) == Ok(true) ==> SelectIds(c, [item]) == Ok([IdOf(item)])
    ensures Flagged(c, item) == Ok(false) ==> SelectIds(c, [item]) == Ok([])
  {
    assert [item][1..] == [];
    assert SelectIds(c, []) == Ok([]);
    if Flagged(c, item).Ok? {
      var f := Flagged(c, item).value;
      assert SelectIds(c, [item]) == Ok((if f then [IdOf(item)] else []) + []);
      assert (if f then [IdOf(item)] else []) + [] == (if f then [IdOf(item)] else []);
    }
  }

  /** An item without a `files` field has no executable, so it is collected
      as missing one. */
  lemma NoFilesMissingExe(item: Json)
    requires item.JObj? && FilesKey !in item.fields
    ensures Flagged(MissingExeCheck, item) == Ok(true)
  {
  }

  /** The `.exe` test is a case-sensitive suffix test. */
  lemma ExeIsCaseSensitive(stem: string)
    ensures AnyFileEnds([JObj(map[FileNameKey := JStr(stem + ".EXE")])], ExeSuffixes) == Ok(false)
  {
    var f := stem + ".EXE";
    assert f[|f| - 4..] == ".EXE";
    assert !EndsWith(f, ".exe") by {
      assert f[|f| - 1] == 'E';
    }
  }

  /** A `.bat` or `.cmd` file anywhere among an item's well-formed files makes
      it dangerous. */
  lemma {:induction false} DangerousFileFound(files: seq<Json>, i: nat, stem: string, ext: string)
    requires i < |files| && (ext == ".bat" || ext == ".cmd")
    requires forall j :: 0 <= j < i ==> files[j].JObj? && GetField(files[j].fields, FileNameKey, JNull).JStr?
    requires files[i] == JObj(map[FileNameKey := JStr(stem + ext)])
    ensures AnyFileEnds(files, ScriptSuffixes) == Ok(true)
    decreases i
  {
    if i == 0 {
      var f := stem + ext;
      assert f[|f| - 4..] == ext;
      assert EndsWith(f, ScriptSuffixes[if ext == ".bat" then 0 else 1]);
    } else {
      DangerousFileFound(files[1..], i - 1, stem, ext);
    }
  }

  /** The empty-size example: of a zero-size game and a 500-byte one, only
      the first is collected. */
  lemma EmptyExample(a: map<string, Json>, b: map<string, Json>)
    requires a == map[IdKey := JInt(1), SizeKey := JInt(0)]
    requires b == map[IdKey := JInt(2), SizeKey := JInt(500)]
    ensures SelectIds(EmptyCheck, [JObj(a), JObj(b)]) == Ok([JInt(1)])
  {
    var items := [JObj(a), JObj(b)];
    assert items[1..] == [JObj(b)];
    assert [JObj(b)][1..] == [];
    assert GetField(b, SizeKey, JNull) == JInt(500);
    SelectIdsCons(EmptyCheck, [JObj(b)], false);
    PrependNil(SelectIds(EmptyCheck, []));
    assert GetField(a, SizeKey, JNull) == JInt(0);
    SelectIdsCons(EmptyCheck, items, true);
    assert IdOf(JObj(a)) == JInt(1);
    assert [JInt(1)] + [] == [JInt(1)];
  }

  // ---------------------------------------------------------------------
  // The loops

  /** The inner loop of `find_missing_exe` and `find_dangerous_filetypes`:
      scan the files, stopping at the first match. */
  method ScanFiles(files: seq<Json>, suffixes: seq<string>) returns (r: Result<bool, string>)
    ensures r == AnyFileEnds(files, suffixes)
  {
    var i := 0;
    while i < |files|
      invariant 0 <= i <= |files|
      invariant AnyFileEnds(files, suffixes) == AnyFileEnds(files[i..], suffixes)
    {
      assert files[i..][1..] == files[i + 1..];
      var file := files[i];
      if !file.JObj? {
        return Err(NoGet);
      }
      var name := GetField(file.fields, FileNameKey, JNull);
      if !name.JStr? {
        return Err(NoEndswith);
      }
      var k := 0;
      while k < |suffixes|
        invariant 0 <= k <= |suffixes|
        invariant forall m :: 0 <= m < k ==> !EndsWith(name.s, suffixes[m])
      {
        if EndsWith(name.s, suffixes[k]) {
          return Ok(true);
        }
        k := k + 1;
      }
      i := i + 1;
    }
    return Ok(false);
  }

  /** The item loop of a reconciler: append the id of each flagged item. */
  method CollectIds(c: Check, items: seq<Json>) returns (r: Result<seq<Json>, string>)
    ensures r == SelectIds(c, items)
  {
    var gameIds: seq<Json> := [];
    var i := 0;
    assert items[0..] == items;
    PrependNil(SelectIds(c, items));
    while i < |items|
      invariant 0 <= i <= |items|
      invariant SelectIds(c, items) == Prepend(gameIds, SelectIds(c, items[i..]))
    {
      assert items[i..][1..] == items[i + 1..];
      var item := items[i];
      if !item.JObj? {
        return Err(NoGet);
      }
      var flagged: bool;
      match c {
        case EmptyCheck =>
          flagged := IsZero(GetField(item.fields, SizeKey, JNull));
        case MissingExeCheck =>
          var files := Elements(GetField(item.fields, FilesKey, JList([])));
          if files.Err? {
            return Err(files.error);
          }
          var isExePresent := ScanFiles(files.value, ExeSuffixes);
          if isExePresent.Err? {
            return Err(isExePresent.error);
          }
          flagged := !isExePresent.value;
        case DangerousCheck =>
          var files := Elements(GetField(item.fields, FilesKey, JList([])));
          if files.Err? {
            return Err(files.error);
          }
          var dangerous := ScanFiles(files.value, ScriptSuffixes);
          if dangerous.Err? {
            return Err(dangerous.error);
          }
          flagged := dangerous.value;
      }
      assert Flagged(c, item) == Ok(flagged);
      assert items[i..][0] == item;
      SelectIdsCons(c, items[i..], flagged);
      PrependStep(gameIds, if flagged then [IdOf(item)] else [], SelectIds(c, items[i + 1..]));
      if flagged {
        gameIds := gameIds + [IdOf(item)];
      } else {
        assert gameIds + [] == gameIds;
      }
      i := i + 1;
    }
    assert items[i..] == [];
    assert gameIds + [] == gameIds;
    return Ok(gameIds);
  }

  /** One step of the item loop. */
  lemma SelectIdsCons(c: Check, items: seq<Json>, f: bool)
    requires items != [] && Flagged(c, items[0]) == Ok(f)
    ensures SelectIds(c, items) == Prepend(if f then [IdOf(items[0])] else [], SelectIds(c, items[1..]))
  {
  }

  lemma PrependNil(r: Result<seq<Json>, string>)
    ensures Prepend([], r) == r
  {
    if r.Ok? {
      assert [] + r.value == r.value;
    }
  }

  lemma PrependStep(ids: seq<Json>, head: seq<Json>, rest: Result<seq<Json>, string>)
    ensures Prepend(ids, Prepend(head, rest)) == Prepend(ids + head, rest)
  {
    if rest.Ok? {
      assert ids + (head + rest.value) == (ids + head) + rest.value;
    }
  }

  /** The ids a reconciler collects from the listing reply, or the exception
      that ends it. */
  function Scan(c: Check, reply: Result<Option<Json>, string>): Result<seq<Json>, string> {
    if reply.Err? then Err(reply.error)
    else match Items(reply.value)
      case Err(e) => Err(e)
      case Ok(items) => SelectIds(c, items)
  }

  /** Whether a reconciler ends with a delete request: only the two deleting
      reconcilers, and only for a non-empty list of ids. */
  predicate Deletes(c: Check, scan: Result<seq<Json>, string>) {
    c != DangerousCheck && scan.Ok? && scan.value != []
  }

  /** The listing request every reconciler sends first. */
  function ListingRequest(api: RommApi): Request {
    api.RequestFor(GET, "/api/roms", None, FilterParams(JNull, JNull, ListingArgs), None)
  }

  /** The delete request for a list of ids. */
  function DeleteRequest(api: RommApi, ids: seq<Json>): Request {
    api.RequestFor(POST, "/api/roms/delete", None, map[], Some(DeletePayload(ids)))
  }

  /** What one reconciler hands to the session, and how it ends. */
  datatype Trace = Trace(requests: seq<Request>, result: Result<seq<Json>, string>)

  /** One reconciler run against the catalogue `server`, after the requests
      `log`: the listing request, then the delete request when there is
      something to delete; each is answered after everything sent before it.
      The result is the collected ids, or the exception of the listing, the
      scan or the delete. */
  function Reconcile(c: Check, api: RommApi, server: Server, log: seq<Request>): Trace
  {
    var scan := Scan(c, Outcome(server(log, ListingRequest(api))));
    if Deletes(c, scan) then
      var delete := DeleteRequest(api, scan.value);
      var deleted := Outcome(server(log + [ListingRequest(api)], delete));
      Trace([ListingRequest(api), delete], if deleted.Err? then Err(deleted.error) else scan)
    else
      Trace([ListingRequest(api)], scan)
  }

  /** A reconciler sends the listing request first, then a delete request
      exactly when its scan collected ids and it is not the dangerous-file
      scan; that request names the collected ids. When it returns normally,
      it returns what the scan collected. */
  lemma ReconcileShape(c: Check, api: RommApi, server: Server, log: seq<Request>)
    ensures var t := Reconcile(c, api, server, log);
      var scan := Scan(c, Outcome(server(log, ListingRequest(api))));
      1 <= |t.requests| <= 2 && t.requests[0] == ListingRequest(api) &&
      (|t.requests| == 2 <==> c != DangerousCheck && scan.Ok? && scan.value != []) &&
      (|t.requests| == 2 ==> t.requests[1] == DeleteRequest(api, scan.value)) &&
      (t.result.Ok? ==> t.result == scan) &&
      (scan.Err? ==> t.result == scan)
  {
  }

  /** `find_empty`, `find_missing_exe` or `find_dangerous_filetypes`: list
      the games, collect the flagged ids, and delete them in one call when
      there are any (except the dangerous-file scan, which only reports). */
  method Find(c: Check, api: RommApi, server: Server) returns (r: Result<seq<Json>, string>)
    modifies api
    ensures api.sent == old(api.sent) + Reconcile(c, api, server, old(api.sent)).requests
    ensures r == Reconcile(c, api, server, old(api.sent)).result
  {
    var data := api.FilterGames(JNull, JNull, ListingArgs, server);
    if data.Err? {
      return Err(data.error);
    }
    var items := Items(data.value);
    if items.Err? {
      return Err(items.error);
    }
    r := CollectIds(c, items.value);
    if r.Ok? && r.value != [] && c != DangerousCheck {
      var deleted := api.DeleteGames(r.value, server);
      if deleted.Err? {
        r := Err(deleted.error);
      }
    }
  }

  /** The request log after the reconcilers `cs` run, in order, from the
      log `log0`: each one's requests follow, and are answered after, all
      the requests before them. */
  function Log(cs: seq<Check>, api: RommApi, server: Server, log0: seq<Request>): (r: seq<Request>)
    ensures log0 <= r && |log0| + |cs| <= |r| <= |log0| + 2 * |cs|
    decreases |cs|
  {
    if cs == [] then log0
    else
      var before := Log(cs[..|cs| - 1], api, server, log0);
      before + Reconcile(cs[|cs| - 1], api, server, before).requests
  }

  /** The reconcilers `run` executes, in order, for its flags. */
  function Enabled(emptyDirs: bool, missingExe: bool, dangerousTypes: bool): (r: seq<Check>)
    ensures |r| <= 3
    ensures EmptyCheck in r <==> emptyDirs
    ensures MissingExeCheck in r <==> missingExe
    ensures DangerousCheck in r <==> dangerousTypes
  {
    (if emptyDirs then [EmptyCheck] else []) + (if missingExe then [MissingExeCheck] else []) +
    (if dangerousTypes then [DangerousCheck] else [])
  }

  /** The enabled reconcilers always run empty, then missing-exe, then dangerous. */
  lemma EnabledOrder(emptyDirs: bool, missingExe: bool, dangerousTypes: bool, i: nat, j: nat)
    requires i < j < |Enabled(emptyDirs, missingExe, dangerousTypes)|
    ensures var r := Enabled(emptyDirs, missingExe, dangerousTypes);
      r[i] != r[j] && r[j] != EmptyCheck && r[i] != DangerousCheck
  {
  }

  /** Every reconciler of `cs`, run in order from the log `log0`, returns
      normally. */
  predicate AllReturn(cs: seq<Check>, api: RommApi, server: Server, log0: seq<Request>)
    decreases |cs|
  {
    cs == [] ||
    (AllReturn(cs[..|cs| - 1], api, server, log0) &&
     Reconcile(cs[|cs| - 1], api, server, Log(cs[..|cs| - 1], api, server, log0)).result.Ok?)
  }

  /** One more reconciler: its requests follow the earlier ones', and are
      answered after them. */
  lemma LogSnoc(before: seq<Check>, c: Check, api: RommApi, server: Server, log0: seq<Request>)
    ensures var log := Log(before, api, server, log0);
      Log(before + [c], api, server, log0) == log + Reconcile(c, api, server, log).requests
  {
    assert (before + [c])[..|before|] == before;
  }

  /** One more reconciler: all have returned normally exactly when the
      earlier ones and the new one have. */
  lemma AllReturnSnoc(before: seq<Check>, c: Check, api: RommApi, server: Server, log0: seq<Request>)
    ensures AllReturn(before + [c], api, server, log0) <==>
      AllReturn(before, api, server, log0) && Reconcile(c, api, server, Log(before, api, server, log0)).result.Ok?
  {
    assert (before + [c])[..|before|] == before;
  }

  /** When the first of two reconcilers deletes games, the second one's
      listing is answered after that delete, so a catalogue that drops the
      deleted games no longer lists them to it. */
  lemma ListingAfterDelete(c1: Check, c2: Check, api: RommApi, server: Server, log0: seq<Request>)
    requires Deletes(c1, Scan(c1, Outcome(server(log0, ListingRequest(api)))))
    ensures var ids := Scan(c1, Outcome(server(log0, ListingRequest(api)))).value;
      var log1 := log0 + [ListingRequest(api), DeleteRequest(api, ids)];
      Log([c1], api, server, log0) == log1 &&
      Log([c1, c2], api, server, log0) == log1 + Reconcile(c2, api, server, log1).requests
  {
    assert [c1, c2][..1] == [c1];
    assert [c1][..0] == [];
  }

  /** The state of a run: the request log grew by the requests of the
      reconcilers that ran, in order, each answered after all the requests
      before it; all of them returned normally, or all but the last, which
      raised. */
  ghost predicate RanSoFar(sent: seq<Request>, sent0: seq<Request>, ran: seq<Check>, crashed: bool,
                           api: RommApi, server: Server) {
    sent == Log(ran, api, server, sent0) &&
    if crashed then
      ran != [] && AllReturn(ran[..|ran| - 1], api, server, sent0) &&
      Reconcile(ran[|ran| - 1], api, server, Log(ran[..|ran| - 1], api, server, sent0)).result.Err?
    else AllReturn(ran, api, server, sent0)
  }

  /** `if flag: find()` inside `run`, skipped once a reconciler has raised.
      `planned` is the list of enabled reconcilers so far: those that ran are
      a prefix of it, and all of it when none has raised. */
  method Stage(c: Check, flag: bool, api: RommApi, server: Server,
               ghost sent0: seq<Request>, ghost planned0: seq<Check>, ran0: seq<Check>, crashed0: bool)
    returns (ghost planned: seq<Check>, ran: seq<Check>, crashed: bool)
    requires RanSoFar(api.sent, sent0, ran0, crashed0, api, server)
    requires ran0 <= planned0 && (!crashed0 ==> ran0 == planned0)
    modifies api
    ensures RanSoFar(api.sent, sent0, ran, crashed, api, server)
    ensures planned == planned0 + (if flag then [c] else [])
    ensures ran <= planned && (!crashed ==> ran == planned)
  {
    planned := planned0 + (if flag then [c] else []);
    ran, crashed := ran0, crashed0;
    if flag && !crashed0 {
      crashed := RunOne(c, api, server, ran0, sent0);
      ran := ran0 + [c];
    }
  }

  /** The body of `run` under `if enable`: the reconcilers whose flags are
      set run in the order of their `if` statements, and an exception in one
      ends the run, so the reconcilers that ran are a prefix of the enabled
      ones and only the last may have raised. */
  method RunEnabled(api: RommApi, server: Server, emptyDirs: bool, missingExe: bool, dangerousTypes: bool)
    returns (ran: seq<Check>, crashed: bool)
    modifies api
    ensures ran <= Enabled(emptyDirs, missingExe, dangerousTypes)
    ensures !crashed ==> ran == Enabled(emptyDirs, missingExe, dangerousTypes)
    ensures RanSoFar(api.sent, old(api.sent), ran, crashed, api, server)
  {
    ghost var sent0 := api.sent;
    ghost var planned: seq<Check>;
    planned, ran, crashed := Stage(EmptyCheck, emptyDirs, api, server, sent0, [], [], false);
    planned, ran, crashed := RunLater(api, server, missingExe, dangerousTypes, sent0, planned, ran, crashed);
    assert planned == Enabled(emptyDirs, missingExe, dangerousTypes);
  }

  /** The last two `if`s of `run`, after the empty-game reconciler. */
  method RunLater(api: RommApi, server: Server, missingExe: bool, dangerousTypes: bool,
                  ghost sent0: seq<Request>, ghost planned0: seq<Check>, ran0: seq<Check>, crashed0: bool)
    returns (ghost planned: seq<Check>, ran: seq<Check>, crashed: bool)
    requires RanSoFar(api.sent, sent0, ran0, crashed0, api, server)
    requires ran0 <= planned0 && (!crashed0 ==> ran0 == planned0)
    modifies api
    ensures RanSoFar(api.sent, sent0, ran, crashed, api, server)
    ensures planned == planned0 + (if missingExe then [MissingExeCheck] else []) + (if dangerousTypes then [DangerousCheck] else [])
    ensures ran <= planned && (!crashed ==> ran == planned)
  {
    planned, ran, crashed := Stage(MissingExeCheck, missingExe, api, server, sent0, planned0, ran0, crashed0);
    planned, ran, crashed := Stage(DangerousCheck, dangerousTypes, api, server, sent0, planned, ran, crashed);
  }

  /** `run`: the flags are configuration values, passed in; nothing runs
      unless the module is enabled. */
  method Run(api: RommApi, server: Server, enable: bool, emptyDirs: bool, missingExe: bool, dangerousTypes: bool)
    returns (ran: seq<Check>, crashed: bool)
    modifies api
    ensures !enable ==> ran == [] && !crashed
    ensures enable ==> ran <= Enabled(emptyDirs, missingExe, dangerousTypes)
    ensures enable && !crashed ==> ran == Enabled(emptyDirs, missingExe, dangerousTypes)
    ensures api.sent == Log(ran, api, server, old(api.sent))
    ensures !crashed ==> AllReturn(ran, api, server, old(api.sent))
    ensures crashed ==>
      ran != [] && AllReturn(ran[..|ran| - 1], api, server, old(api.sent)) &&
      Reconcile(ran[|ran| - 1], api, server, Log(ran[..|ran| - 1], api, server, old(api.sent))).result.Err?
  {
    ran := [];
    crashed := false;
    if enable {
      ran, crashed := RunEnabled(api, server, emptyDirs, missingExe, dangerousTypes);
    }
  }

  /** One `if` of `run`: the reconciler `c`, after those of `before`, which
      all returned normally and sent their requests after `sent0`. */
  method RunOne(c: Check, api: RommApi, server: Server, ghost before: seq<Check>, ghost sent0: seq<Request>)
    returns (crashed: bool)
    requires api.sent == Log(before, api, server, sent0)
    requires AllReturn(before, api, server, sent0)
    modifies api
    ensures api.sent == Log(before + [c], api, server, sent0)
    ensures crashed <==> Reconcile(c, api, server, Log(before, api, server, sent0)).result.Err?
    ensures !crashed ==> AllReturn(before + [c], api, server, sent0)
    ensures (before + [c])[..|before|] == before && (before + [c])[|before|] == c
  {
    var r := Find(c, api, server);
    crashed := r.Err?;
    LogSnoc(before, c, api, server, sent0);
    AllReturnSnoc(before, c, api, server, sent0);
  }
}
