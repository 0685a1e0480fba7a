/**
 * The parts of Python's `str` that the scripts use, over ASCII: whitespace
 * as `str.split()` and `str.strip()` see it, `upper`/`lower`/`capitalize`,
 * `startswith`/`endswith`/`in`, `replace`, `split`, `split(sep)` and `join`.
 */
module Text {

  /** Python's ASCII whitespace: space, \t \n \v \f \r, and \x1c to \x1f. */
  predicate IsSpace(c: char) {
    c == ' ' || (9 <= c as int <= 13) || (28 <= c as int <= 31)
  }

  function Upper(c: char): char {
    if 'a' <= c <= 'z' then (c as int - 32) as char else c
  }

  function Lower(c: char): char {
    if 'A' <= c <= 'Z' then (c as int + 32) as char else c
  }

  function LowerStr(s: string): (r: string)
    ensures |r| == |s| && forall i :: 0 <= i < |s| ==> r[i] == Lower(s[i])
  {
    seq(|s|, i requires 0 <= i < |s| => Lower(s[i]))
  }

  /** `str.capitalize`: first character upper case, the rest lower case. */
  function Capitalize(w: string): (r: string)
    ensures |r| == |w|
    ensures |w| > 0 ==> r[0] == Upper(w[0])
    ensures forall i :: 0 < i < |w| ==> r[i] == Lower(w[i])
  {
    if w == [] then [] else [Upper(w[0])] + LowerStr(w[1..])
  }

  predicate StartsWith(s: string, p: string) {
    |p| <= |s| && s[..|p|] == p
  }

  predicate EndsWith(s: string, p: string) {
    |p| <= |s| && s[|s| - |p|..] == p
  }

  /** Python's `p in s` for strings: `p` occurs as a contiguous substring. */
  predicate Contains(s: string, p: string)
    decreases |s|
  {
    StartsWith(s, p) || (s != [] && Contains(s[1..], p))
  }

  /** `s.replace(pat, rep)`: every non-overlapping occurrence, scanning left to right. */
  function ReplaceAll(s: string, pat: string, rep: string): string
    requires pat != []
    decreases |s|
  {
    if |s| < |pat| then s
    else if s[..|pat|] == pat then rep + ReplaceAll(s[|pat|..], pat, rep)
    else [s[0]] + ReplaceAll(s[1..], pat, rep)
  }

  /** A token of `str.split()`: non-empty, no whitespace. */
  predicate IsWord(w: string) {
    w != [] && forall i :: 0 <= i < |w| ==> !IsSpace(w[i])
  }

  /** Length of the leading run of non-whitespace characters. */
  function WordLen(s: string): (n: nat)
    ensures n <= |s|
  {
    if s == [] || IsSpace(s[0]) then 0 else 1 + WordLen(s[1..])
  }

  /** `s.split()` with no separator: maximal runs of non-whitespace, in order. */
  function Words(s: string): seq<string>
    decreases |s|
  {
    if s == [] then []
    else if IsSpace(s[0]) then Words(s[1..])
    else
      var n := WordLen(s);
      [s[..n]] + Words(s[n..])
  }

  /** `sep.join(ws)`. */
  function Join(ws: seq<string>, sep: string): string {
    if ws == [] then ""
    else if |ws| == 1 then ws[0]
    else ws[0] + sep + Join(ws[1..], sep)
  }

  function TrimLeft(s: string): string {
    if s != [] && IsSpace(s[0]) then TrimLeft(s[1..]) else s
  }

  function TrimRight(s: string): string {
    if s != [] && IsSpace(s[|s| - 1]) then TrimRight(s[..|s| - 1]) else s
  }

  /** `s.strip()` with no argument. */
  function Strip(s: string): string {
    TrimRight(TrimLeft(s))
  }

  /** Neither end of `s` is whitespace. */
  predicate IsStripped(s: string) {
    s == [] || (!IsSpace(s[0]) && !IsSpace(s[|s| - 1]))
  }

  /** `s.split(c)` for a one-character separator: always at least one piece. */
  function SplitOn(s: string, c: char): (r: seq<string>)
    ensures |r| >= 1
  {
    if s == [] then [""]
    else
      var rest := SplitOn(s[1..], c);
      if s[0] == c then [""] + rest else [[s[0]] + rest[0]] + rest[1..]
  }

  /** Whitespace runs collapsed: every whitespace character is a single space
      with a non-space character on each side. */
  predicate Canonical(s: string) {
    forall i :: 0 <= i < |s| && IsSpace(s[i]) ==>
      s[i] == ' ' && 0 < i < |s| - 1 && !IsSpace(s[i - 1]) && !IsSpace(s[i + 1])
  }

  // ---------------------------------------------------------------------
  // Lemmas

  /** `replace` changes nothing when the pattern's first character never occurs. */
  lemma {:induction false} ReplaceAllAbsent(s: string, pat: string, rep: string)
    requires pat != [] && pat[0] !in s
    ensures ReplaceAll(s, pat, rep) == s
    decreases |s|
  {
    if |s| >= |pat| {
      assert s[0] == s[..|pat|][0];
      ReplaceAllAbsent(s[1..], pat, rep);
    }
  }

  /** Replacing a one-character pattern by text without it removes every occurrence. */
  lemma {:induction false} ReplaceCharRemoves(s: string, c: char, rep: string)
    requires c !in rep
    ensures c !in ReplaceAll(s, [c], rep)
    decreases |s|
  {
    if |s| >= 1 {
      ReplaceCharRemoves(s[1..], c, rep);
      if s[..1] != [c] {
        assert s[0] != c;
      }
    }
  }

  lemma {:induction false} WordLenOfWord(w: string, t: string)
    requires IsWord(w) && (t == [] || IsSpace(t[0]))
    ensures WordLen(w + t) == |w|
    decreases |w|
  {
    assert (w + t)[0] == w[0];
    if |w| > 1 {
      assert (w + t)[1..] == w[1..] + t;
      WordLenOfWord(w[1..], t);
    } else {
      assert (w + t)[1..] == t;
    }
  }

  lemma {:induction false} WordLenPrefix(s: string)
    ensures forall i :: 0 <= i < WordLen(s) ==> !IsSpace(s[i])
    ensures WordLen(s) < |s| ==> IsSpace(s[WordLen(s)])
    decreases |s|
  {
    if s != [] && !IsSpace(s[0]) {
      WordLenPrefix(s[1..]);
    }
  }

  /** Every token of `split()` is non-empty and free of whitespace. */
  lemma {:induction false} WordsAreWords(s: string)
    ensures forall i :: 0 <= i < |Words(s)| ==> IsWord(Words(s)[i])
    decreases |s|
  {
    if s != [] {
      if IsSpace(s[0]) {
        WordsAreWords(s[1..]);
      } else {
        WordLenPrefix(s);
        WordsAreWords(s[WordLen(s)..]);
      }
    }
  }

  /** Tokens of `split()` carry only characters of the input. */
  lemma {:induction false} WordsAvoid(s: string, c: char)
    requires c !in s
    ensures forall i :: 0 <= i < |Words(s)| ==> c !in Words(s)[i]
    decreases |s|
  {
    if s != [] {
      if IsSpace(s[0]) {
        WordsAvoid(s[1..], c);
      } else {
        var n := WordLen(s);
        assert c !in s[n..] by {
          forall j | 0 <= j < |s| - n ensures s[n..][j] != c { assert s[n..][j] == s[n + j]; }
        }
        assert c !in s[..n] by {
          forall j | 0 <= j < n ensures s[..n][j] != c { assert s[..n][j] == s[j]; }
        }
        WordsAvoid(s[n..], c);
      }
    }
  }

  /** A string with no non-whitespace character has no tokens. */
  lemma {:induction false} WordsOfBlank(s: string)
    requires forall i :: 0 <= i < |s| ==> IsSpace(s[i])
    ensures Words(s) == []
    decreases |s|
  {
    if s != [] {
      WordsOfBlank(s[1..]);
    }
  }

  /** `split()` undoes `' '.join` of tokens. */
  lemma {:induction false} WordsOfJoin(ws: seq<string>)
    requires forall i :: 0 <= i < |ws| ==> IsWord(ws[i])
    ensures Words(Join(ws, " ")) == ws
    decreases |ws|
  {
    if ws == [] {
    } else if |ws| == 1 {
      var w := ws[0];
      WordLenOfWord(w, []);
      assert w + [] == w;
      assert w[|w|..] == [];
    } else {
      var w := ws[0];
      var rest := Join(ws[1..], " ");
      var s := w + " " + rest;
      assert Join(ws, " ") == s;
      assert s == w + (" " + rest);
      WordLenOfWord(w, " " + rest);
      assert s[..|w|] == w;
      assert s[|w|..] == " " + rest;
      assert (" " + rest)[1..] == rest;
      WordsOfJoin(ws[1..]);
      assert Words(s) == [w] + Words(" " + rest);
    }
  }

  /** The ends of a non-empty join of tokens are not whitespace. */
  lemma {:induction false} JoinEnds(ws: seq<string>)
    requires |ws| > 0 && forall i :: 0 <= i < |ws| ==> IsWord(ws[i])
    ensures |Join(ws, " ")| > 0
    ensures !IsSpace(Join(ws, " ")[0]) && !IsSpace(Join(ws, " ")[|Join(ws, " ")| - 1])
    decreases |ws|
  {
    if |ws| > 1 {
      JoinEnds(ws[1..]);
    }
  }

  /** `' '.join` of tokens has canonical spacing. */
  lemma {:induction false} JoinCanonical(ws: seq<string>)
    requires forall i :: 0 <= i < |ws| ==> IsWord(ws[i])
    ensures Canonical(Join(ws, " "))
    decreases |ws|
  {
    if |ws| > 1 {
      var w := ws[0];
      var rest := Join(ws[1..], " ");
      JoinCanonical(ws[1..]);
      JoinEnds(ws[1..]);
      var s := w + " " + rest;
      assert Join(ws, " ") == s;
      forall i | 0 <= i < |s| && IsSpace(s[i])
        ensures s[i] == ' ' && 0 < i < |s| - 1 && !IsSpace(s[i - 1]) && !IsSpace(s[i + 1])
      {
        if i == |w| {
          assert s[i - 1] == w[|w| - 1];
          assert s[i + 1] == rest[0];
        } else if i > |w| {
          var j := i - |w| - 1;
          assert s[i] == rest[j];
          if j == 0 {
            assert false;
          } else {
            assert s[i - 1] == rest[j - 1];
            assert s[i + 1] == rest[j + 1];
          }
        }
      }
    }
  }

  /** `replace` copies a stretch free of the pattern's first character unchanged. */
  lemma {:induction false} ReplaceAllSkip(x: string, y: string, pat: string, rep: string)
    requires pat != [] && pat[0] !in x
    ensures ReplaceAll(x + y, pat, rep) == x + ReplaceAll(y, pat, rep)
    decreases |x|
  {
    if x != [] {
      var s := x + y;
      assert pat[0] !in x[1..] by {
        forall j | 0 <= j < |x| - 1 ensures x[1..][j] != pat[0] { assert x[1..][j] == x[j + 1]; }
      }
      ReplaceAllSkip(x[1..], y, pat, rep);
      if |s| >= |pat| {
        assert s[..|pat|][0] == x[0];
        assert s[..|pat|] != pat;
        assert s[1..] == x[1..] + y;
        calc {
          ReplaceAll(s, pat, rep);
          [s[0]] + ReplaceAll(s[1..], pat, rep);
          [x[0]] + (x[1..] + ReplaceAll(y, pat, rep));
          { assert x == [x[0]] + x[1..]; }
          x + ReplaceAll(y, pat, rep);
        }
      } else {
        assert ReplaceAll(y, pat, rep) == y;
      }
    } else {
      assert x + y == y;
    }
  }

  /** `replace` rewrites an occurrence at the front. */
  lemma ReplaceAllHit(y: string, pat: string, rep: string)
    requires pat != []
    ensures ReplaceAll(pat + y, pat, rep) == rep + ReplaceAll(y, pat, rep)
  {
    assert (pat + y)[..|pat|] == pat;
    assert (pat + y)[|pat|..] == y;
  }

  /** `replace` copies a stretch that starts with a near-miss of the pattern
      (it differs from the pattern at position `k`). */
  lemma ReplaceAllMiss(x: string, y: string, pat: string, rep: string, k: nat)
    requires pat != [] && x != [] && pat[0] !in x[1..]
    requires k < |pat| && k < |x + y| && (x + y)[k] != pat[k]
    ensures ReplaceAll(x + y, pat, rep) == x + ReplaceAll(y, pat, rep)
  {
    var s := x + y;
    if |s| >= |pat| {
      assert s[..|pat|][k] == s[k];
      assert s[1..] == x[1..] + y;
      ReplaceAllSkip(x[1..], y, pat, rep);
      assert x == [x[0]] + x[1..];
    } else {
      assert ReplaceAll(y, pat, rep) == y;
    }
  }

  /** Folding a character's case never turns it into, or out of, whitespace,
      an underscore or a parenthesis. */
  lemma CaseKeeps(c: char)
    ensures IsSpace(Upper(c)) == IsSpace(c) && IsSpace(Lower(c)) == IsSpace(c)
    ensures (Upper(c) == '_') == (c == '_') && (Lower(c) == '_') == (c == '_')
    ensures (Upper(c) == '(') == (c == '(') && (Lower(c) == ')') == (c == ')')
    ensures (Upper(c) == ')') == (c == ')')
    ensures Upper(Upper(c)) == Upper(c) && Lower(Lower(c)) == Lower(c)
  {
  }
  /** `TrimLeft` leaves a suffix of its input that starts with no whitespace. */
  lemma {:induction false} TrimLeftShape(s: string)
    ensures var t := TrimLeft(s);
      |t| <= |s| && t == s[|s| - |t|..] && (t != [] ==> !IsSpace(t[0]))
    decreases |s|
  {
    if s != [] && IsSpace(s[0]) {
      TrimLeftShape(s[1..]);
    }
  }

  /** `TrimRight` leaves a prefix of its input that ends with no whitespace. */
  lemma {:induction false} TrimRightShape(s: string)
    ensures var t := TrimRight(s);
      |t| <= |s| && t == s[..|t|] && (t != [] ==> !IsSpace(t[|t| - 1]))
    decreases |s|
  {
    if s != [] && IsSpace(s[|s| - 1]) {
      TrimRightShape(s[..|s| - 1]);
    }
  }

  /** `strip()` keeps every character that is not whitespace. */
  lemma {:induction false} TrimLeftKeeps(s: string, c: char)
    requires c in s && !IsSpace(c)
    ensures c in TrimLeft(s)
    decreases |s|
  {
    if IsSpace(s[0]) {
      assert c in s[1..] by {
        var i :| 0 <= i < |s| && s[i] == c;
        assert s[1..][i - 1] == c;
      }
      TrimLeftKeeps(s[1..], c);
    }
  }

  lemma {:induction false} TrimRightKeeps(s: string, c: char)
    requires c in s && !IsSpace(c)
    ensures c in TrimRight(s)
    decreases |s|
  {
    if IsSpace(s[|s| - 1]) {
      assert c in s[..|s| - 1] by {
        var i :| 0 <= i < |s| && s[i] == c;
        assert s[..|s| - 1][i] == c;
      }
      TrimRightKeeps(s[..|s| - 1], c);
    }
  }

  lemma StripKeeps(s: string, c: char)
    requires c in s && !IsSpace(c)
    ensures c in Strip(s)
  {
    TrimLeftKeeps(s, c);
    TrimRightKeeps(TrimLeft(s), c);
  }

  /** `strip()` leaves no whitespace at either end. */
  lemma StripIsStripped(s: string)
    ensures IsStripped(Strip(s))
  {
    var t := TrimLeft(s);
    TrimLeftShape(s);
    TrimRightShape(t);
  }

  /** `strip()` changes nothing on a string with no whitespace at either end. */
  lemma StripOfStripped(s: string)
    requires IsStripped(s)
    ensures Strip(s) == s
  {
  }

  /** Splitting a piece that holds no separator gives that piece alone. */
  lemma {:induction false} SplitOnPiece(x: string, c: char)
    requires c !in x
    ensures SplitOn(x, c) == [x]
    decreases |x|
  {
    if x != [] {
      SplitOnPiece(x[1..], c);
      assert [x[0]] + x[1..] == x;
    }
  }

  /** A separator-free piece followed by the separator splits off as the first piece. */
  lemma {:induction false} SplitOnCons(x: string, c: char, rest: string)
    requires c !in x
    ensures SplitOn(x + [c] + rest, c) == [x] + SplitOn(rest, c)
    decreases |x|
  {
    if x == [] {
      assert ([] + [c] + rest)[1..] == rest;
    } else {
      assert (x + [c] + rest)[1..] == x[1..] + [c] + rest;
      SplitOnCons(x[1..], c, rest);
      assert [x[0]] + x[1..] == x;
    }
  }

  /** `sep.join(xs).split(sep)` gives back `xs` when no piece holds the separator. */
  lemma {:induction false} SplitOnJoin(xs: seq<string>, c: char)
    requires xs != []
    requires forall i :: 0 <= i < |xs| ==> c !in xs[i]
    ensures SplitOn(Join(xs, [c]), c) == xs
    decreases |xs|
  {
    if |xs| == 1 {
      SplitOnPiece(xs[0], c);
    } else {
      SplitOnJoin(xs[1..], c);
      SplitOnCons(xs[0], c, Join(xs[1..], [c]));
      assert [xs[0]] + xs[1..] == xs;
    }
  }
  /** Joining two non-empty runs of pieces joins their joins. */
  lemma {:induction false} JoinAppend(a: seq<string>, b: seq<string>, sep: string)
    requires a != [] && b != []
    ensures Join(a + b, sep) == Join(a, sep) + sep + Join(b, sep)
    decreases |a|
  {
    assert (a + b)[0] == a[0];
    if |a| == 1 {
      assert (a + b)[1..] == b;
    } else {
      assert (a + b)[1..] == a[1..] + b;
      JoinAppend(a[1..], b, sep);
    }
  }

  /** After a separator, `replace` finds no occurrence at that separator when
      the next word does not start like the rest of the pattern and is
      followed by the separator again or by the end of the string. */
  lemma SepMisses(w: string, more: string, pat: string, rep: string)
    requires |pat| >= 2 && pat[0] !in pat[1..] && pat[0] !in w
    requires !StartsWith(w, pat[1..])
    requires more == [] || more[0] == pat[0]
    ensures ReplaceAll([pat[0]] + (w + more), pat, rep) == [pat[0]] + ReplaceAll(w + more, pat, rep)
  {
    var sep := [pat[0]];
    var s := sep + (w + more);
    var m := |pat| - 1;
    if |w| >= m {
      assert w[..m] != pat[1..];
      var j :| 0 <= j < m && w[..m][j] != pat[1..][j];
      assert s[1 + j] == w[j];
      ReplaceAllMiss(sep, w + more, pat, rep, 1 + j);
    } else if more != [] {
      var k := 1 + |w|;
      assert s[k] == pat[0];
      assert pat[k] == pat[1..][k - 1];
      ReplaceAllMiss(sep, w + more, pat, rep, k);
    } else {
      assert |s| < |pat|;
      assert ReplaceAll(w + more, pat, rep) == w + more;
    }
  }

  /** `replace` of a pattern that starts with the separator passes over a
      separator-joined run of words when no word after the first starts with
      the rest of the pattern and what follows the run is empty or starts
      with the separator. */
  lemma {:induction false} ReplaceAllPastJoin(ws: seq<string>, rest: string, pat: string, rep: string)
    requires |pat| >= 2 && pat[0] !in pat[1..]
    requires forall i :: 0 <= i < |ws| ==> pat[0] !in ws[i]
    requires forall i :: 1 <= i < |ws| ==> !StartsWith(ws[i], pat[1..])
    requires rest == [] || rest[0] == pat[0]
    ensures ReplaceAll(Join(ws, [pat[0]]) + rest, pat, rep) == Join(ws, [pat[0]]) + ReplaceAll(rest, pat, rep)
    decreases |ws|
  {
    var sep := [pat[0]];
    if ws == [] {
      assert Join(ws, sep) + rest == rest;
    } else if |ws| == 1 {
      ReplaceAllSkip(ws[0], rest, pat, rep);
    } else {
      var tail := Join(ws[1..], sep);
      ReplaceAllPastJoin(ws[1..], rest, pat, rep);
      var more := JoinAfterSecond(ws, sep, rest);
      SepMisses(ws[1], more, pat, rep);
      ReplaceAllSkip(ws[0], sep + (tail + rest), pat, rep);
    }
  }

  /** What follows the second word of a joined run of at least two words:
      the separator again, or whatever follows the run. */
  lemma JoinAfterSecond(ws: seq<string>, sep: string, rest: string) returns (more: string)
    requires |ws| >= 2 && |sep| == 1
    ensures Join(ws[1..], sep) + rest == ws[1] + more
    ensures Join(ws, sep) + rest == ws[0] + (sep + (Join(ws[1..], sep) + rest))
    ensures more == rest || (more != [] && more[0] == sep[0])
  {
    var tail := Join(ws[1..], sep);
    if |ws| == 2 {
      assert tail == ws[1];
      more := rest;
    } else {
      assert tail == ws[1] + sep + Join(ws[2..], sep) by { assert ws[1..][1..] == ws[2..]; }
      more := sep + Join(ws[2..], sep) + rest;
    }
  }

  /** Replacing the separator of a joined run of words joins them with the
      replacement instead. */
  lemma {:induction false} ReplaceAllJoinSep(ws: seq<string>, rest: string, c: char, d: string)
    requires ws != []
    requires forall i :: 0 <= i < |ws| ==> c !in ws[i]
    ensures ReplaceAll(Join(ws, [c]) + rest, [c], d) == Join(ws, d) + ReplaceAll(rest, [c], d)
    decreases |ws|
  {
    if |ws| == 1 {
      ReplaceAllSkip(ws[0], rest, [c], d);
    } else {
      var tail := Join(ws[1..], [c]);
      assert forall i :: 0 <= i < |ws[1..]| ==> c !in ws[1..][i] by {
        forall i | 0 <= i < |ws[1..]| ensures c !in ws[1..][i] {
          assert ws[1..][i] == ws[i + 1];
        }
      }
      ReplaceAllJoinSep(ws[1..], rest, c, d);
      assert [c][0] !in ws[0];
      calc {
        ReplaceAll(Join(ws, [c]) + rest, [c], d);
        { assert Join(ws, [c]) + rest == ws[0] + ([c] + (tail + rest)); }
        ReplaceAll(ws[0] + ([c] + (tail + rest)), [c], d);
        { ReplaceAllSkip(ws[0], [c] + (tail + rest), [c], d); }
        ws[0] + ReplaceAll([c] + (tail + rest), [c], d);
        { ReplaceAllHit(tail + rest, [c], d); }
        ws[0] + (d + ReplaceAll(tail + rest, [c], d));
        ws[0] + (d + (Join(ws[1..], d) + ReplaceAll(rest, [c], d)));
        Join(ws, d) + ReplaceAll(rest, [c], d);
      }
    }
  }
}
