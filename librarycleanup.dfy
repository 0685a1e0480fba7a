/**
 * src/modules/library_cleanup.py: find the soundtrack and audio archives in
 * the library's folders. The delete call is commented out in the source, so
 * the sweep only reports what it would remove and the library is unchanged.
 */
module LibraryCleanup {
  import opened Text
  import opened FileSystem

  /** The substrings `remove_extras` looks for; matching is case-sensitive. */
  const ZipStrings: seq<string> := ["_soundtrack_", "OST", "FLAC", "WAV", "MP3"]

  /** The test at library_cleanup.py:39: some keyword occurs in the name, and
      the name ends with `.zip`. */
  predicate IsExtra(file: string) {
    (exists k :: 0 <= k < |ZipStrings| && Contains(file, ZipStrings[k])) && EndsWith(file, ".zip")
  }

  /** `file` sits directly in the top-level folder `folder` of `d` and is an extra. */
  predicate ExtraIn(d: Tree, folder: string, file: string) {
    folder in d && d[folder].Folder? && file in d[folder].files && IsExtra(file)
  }

  /** Every character of a pattern that occurs in `s` occurs in `s`. */
  lemma {:induction false} ContainsChars(s: string, p: string, k: nat)
    requires Contains(s, p) && k < |p|
    ensures p[k] in s
    decreases |s|
  {
    if StartsWith(s, p) {
      assert s[k] == p[k];
    } else {
      ContainsChars(s[1..], p, k);
    }
  }

  /** A name without upper-case letters is flagged only through `_soundtrack_`:
      a lower-case "ost", "flac", "wav" or "mp3" does not match. */
  lemma LowerCaseNames(file: string)
    requires forall i :: 0 <= i < |file| ==> !('A' <= file[i] <= 'Z')
    ensures IsExtra(file) ==> Contains(file, "_soundtrack_")
  {
    if IsExtra(file) {
      var k :| 0 <= k < |ZipStrings| && Contains(file, ZipStrings[k]);
      if k > 0 {
        var c := ZipStrings[k][0];
        assert 'A' <= c <= 'Z';
        ContainsChars(file, ZipStrings[k], 0);
        assert false;
      }
    }
  }

  /** A name that does not end in `.zip` is never flagged, whatever it contains. */
  lemma NotZipNeverExtra(file: string)
    requires !EndsWith(file, ".zip")
    ensures !IsExtra(file)
  {
  }

  /** A keyword anywhere before the `.zip` extension flags the name. */
  lemma KeywordZipIsExtra(prefix: string, k: nat, mid: string)
    requires k < |ZipStrings|
    ensures IsExtra(prefix + ZipStrings[k] + mid + ".zip")
  {
    var f := prefix + ZipStrings[k] + mid + ".zip";
    ContainsInfix(prefix, ZipStrings[k], mid + ".zip");
    assert prefix + ZipStrings[k] + (mid + ".zip") == f;
    assert f[|f| - 4..] == ".zip";
  }

  /** Conversely, every flagged name is a keyword with text around it,
      followed by `.zip`: no keyword ends in a character of `.zip`, so the
      keyword the test found lies before the extension. */
  lemma ExtraSplits(file: string) returns (k: nat, i: nat)
    requires IsExtra(file)
    ensures k < |ZipStrings| && i + |ZipStrings[k]| <= |file| - 4
    ensures file == file[..i] + ZipStrings[k] + file[i + |ZipStrings[k]|..|file| - 4] + ".zip"
  {
    k :| 0 <= k < |ZipStrings| && Contains(file, ZipStrings[k]);
    var kw := ZipStrings[k];
    i := ContainsAt(file, kw);
    assert file[i + |kw| - 1] == kw[|kw| - 1];
    if i + |kw| > |file| - 4 {
      assert false;
    }
    var mid := file[i + |kw|..|file| - 4];
    assert file == file[..i] + file[i..i + |kw|] + mid + file[|file| - 4..];
  }

  /** Where `p in s` finds `p`. */
  lemma {:induction false} ContainsAt(s: string, p: string) returns (i: nat)
    requires Contains(s, p)
    ensures i + |p| <= |s| && s[i..i + |p|] == p
    decreases |s|
  {
    if StartsWith(s, p) {
      i := 0;
    } else {
      var j := ContainsAt(s[1..], p);
      i := j + 1;
      assert s[1..][j..j + |p|] == s[i..i + |p|];
    }
  }

  lemma {:induction false} ContainsInfix(x: string, p: string, y: string)
    ensures Contains(x + p + y, p)
    decreases |x|
  {
    if x == [] {
      assert (x + p + y)[..|p|] == p;
    } else {
      ContainsInfix(x[1..], p, y);
      assert (x + p + y)[1..] == x[1..] + p + y;
    }
  }

  /** `remove_extras`: walk every top-level folder's files and report each
      extra as (folder, file). Nothing is removed, and each extra is reported once. */
  method RemoveExtras(lib: Directory) returns (flagged: seq<(string, string)>)
    ensures forall folder, file :: (folder, file) in flagged <==> ExtraIn(lib.entries, folder, file)
    ensures forall i, j :: 0 <= i < j < |flagged| ==> flagged[i] != flagged[j]
  {
    var listing := ListDir(lib.entries);
    flagged := [];
    var i := 0;
    while i < |listing|
      invariant 0 <= i <= |listing|
      invariant forall folder, file :: (folder, file) in flagged <==> folder in listing[..i] && ExtraIn(lib.entries, folder, file)
      invariant forall a, b :: 0 <= a < b < |flagged| ==> flagged[a] != flagged[b]
    {
      var folder := listing[i];
      assert listing[..i + 1] == listing[..i] + [folder];
      assert folder !in listing[..i];
      if lib.entries[folder].Folder? {
        var files := ListNames(lib.entries[folder].files);
        var j := 0;
        ghost var before := flagged;
        while j < |files|
          invariant 0 <= j <= |files|
          invariant forall fo, fi :: (fo, fi) in flagged <==>
            (fo, fi) in before || (fo == folder && fi in files[..j] && IsExtra(fi))
          invariant forall a, b :: 0 <= a < b < |flagged| ==> flagged[a] != flagged[b]
        {
          var file := files[j];
          assert files[..j + 1] == files[..j] + [file];
          if IsExtra(file) {
            assert file !in files[..j];
            flagged := flagged + [(folder, file)];
          }
          j := j + 1;
        }
        assert files[..|files|] == files;
      }
      i := i + 1;
    }
    assert listing[..|listing|] == listing;
  }

  /** `post_library_cleanup`: nothing but `remove_extras`. */
  method PostLibraryCleanup(lib: Directory) returns (flagged: seq<(string, string)>)
    ensures forall folder, file :: (folder, file) in flagged <==> ExtraIn(lib.entries, folder, file)
  {
    flagged := RemoveExtras(lib);
  }
}
