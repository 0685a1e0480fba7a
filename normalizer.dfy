/**
 * The folder-name pipeline of `rename_folders` (src/modules/torrents.py and its
 * copy in app.py): tag rewriting, underscores to spaces, whitespace
 * tokenisation, and per-token capitalisation that spares parenthetical tokens.
 */
module NameNormalizer {
  import opened Common
  import opened Text
  import opened Helpers

  /** The rewriting stage, in source order: "_gog" first, then "_windows",
      then every remaining underscore becomes a space. */
  function Rewrite(name: string): string {
    var s1 := ReplaceAll(name, "_gog", Format(Tag(Some("GOG"))));
    var s2 := ReplaceAll(s1, "_windows", Format(Tag(Some("Windows"))));
    ReplaceAll(s2, "_", " ")
  }

  /** A token that starts with "(" or ends with ")" is emitted verbatim. */
  predicate Parenthetical(w: string) {
    StartsWith(w, "(") || EndsWith(w, ")")
  }

  function FixWord(w: string): string {
    if Parenthetical(w) then w else Capitalize(w)
  }

  function FixWords(ws: seq<string>): (r: seq<string>)
    ensures |r| == |ws| && forall i :: 0 <= i < |ws| ==> r[i] == FixWord(ws[i])
  {
    seq(|ws|, i requires 0 <= i < |ws| => FixWord(ws[i]))
  }

  /** The new folder name computed by `rename_folders`. */
  function Normalize(name: string): string {
    Join(FixWords(Words(Rewrite(name))), " ")
  }

  // ---------------------------------------------------------------------
  // Lemmas

  lemma {:induction false} RewriteNoUnderscore(name: string)
    ensures '_' !in Rewrite(name)
  {
    TagConstants();
    var s1 := ReplaceAll(name, "_gog", " (GOG)");
    var s2 := ReplaceAll(s1, "_windows", " (Windows)");
    assert "_" == ['_'];
    ReplaceCharRemoves(s2, '_', " ");
  }

  /** Capitalisation keeps a token a token and adds no underscore. */
  lemma FixWordKeeps(w: string)
    requires IsWord(w) && '_' !in w
    ensures IsWord(FixWord(w)) && '_' !in FixWord(w) && |FixWord(w)| == |w|
  {
    if !Parenthetical(w) {
      var r := Capitalize(w);
      forall i | 0 <= i < |w| ensures !IsSpace(r[i]) && r[i] != '_' {
        CaseKeeps(w[i]);
      }
    }
  }

  predicate TokensOk(ws: seq<string>) {
    forall i :: 0 <= i < |ws| ==> IsWord(ws[i]) && '_' !in ws[i]
  }

  /** The tokens `Normalize` joins: non-empty, no whitespace, no underscore. */
  lemma FixedWordsOk(name: string)
    ensures TokensOk(FixWords(Words(Rewrite(name))))
  {
    var src := Words(Rewrite(name));
    WordsAreWords(Rewrite(name));
    RewriteNoUnderscore(name);
    WordsAvoid(Rewrite(name), '_');
    forall i | 0 <= i < |src| ensures IsWord(FixWord(src[i])) && '_' !in FixWord(src[i]) {
      FixWordKeeps(src[i]);
    }
  }

  lemma {:induction false} JoinAvoids(ws: seq<string>, c: char)
    requires c != ' ' && forall i :: 0 <= i < |ws| ==> c !in ws[i]
    ensures c !in Join(ws, " ")
    decreases |ws|
  {
    if |ws| > 1 {
      JoinAvoids(ws[1..], c);
    }
  }

  /** The normalised name contains no underscore. */
  lemma NormalizeNoUnderscore(name: string)
    ensures '_' !in Normalize(name)
  {
    FixedWordsOk(name);
    JoinAvoids(FixWords(Words(Rewrite(name))), '_');
  }

  /** The normalised name has no leading or trailing whitespace, and its words
      are separated by exactly one space. */
  lemma NormalizeCanonical(name: string)
    ensures Canonical(Normalize(name))
    ensures Normalize(name) != "" ==>
      !IsSpace(Normalize(name)[0]) && !IsSpace(Normalize(name)[|Normalize(name)| - 1])
  {
    FixedWordsOk(name);
    var ws := FixWords(Words(Rewrite(name)));
    JoinCanonical(ws);
    if ws != [] {
      JoinEnds(ws);
    }
  }

  /** Empty or all-whitespace input yields the empty name. */
  lemma NormalizeBlank(name: string)
    requires forall i :: 0 <= i < |name| ==> IsSpace(name[i])
    ensures Normalize(name) == ""
  {
    assert '_' !in name by {
      forall i | 0 <= i < |name| ensures name[i] != '_' { }
    }
    TagConstants();
    ReplaceAllAbsent(name, "_gog", " (GOG)");
    ReplaceAllAbsent(name, "_windows", " (Windows)");
    ReplaceAllAbsent(name, "_", " ");
    WordsOfBlank(name);
  }

  /** The words of the result correspond one to one with the words of the
      rewritten name: a parenthetical word is kept verbatim; any other word gets
      its first character upper-cased and the rest lower-cased. */
  lemma NormalizeWords(name: string, i: nat)
    requires i < |Words(Rewrite(name))|
    ensures var src := Words(Rewrite(name)); var out := Words(Normalize(name));
      |out| == |src| &&
      (Parenthetical(src[i]) ==> out[i] == src[i]) &&
      src[i] != [] &&
      (!Parenthetical(src[i]) ==>
         |out[i]| == |src[i]| && out[i][0] == Upper(src[i][0]) &&
         forall j :: 0 < j < |src[i]| ==> out[i][j] == Lower(src[i][j]))
  {
    var src := Words(Rewrite(name));
    var ws := FixWords(src);
    FixedWordsOk(name);
    WordsOfJoin(ws);
    assert Words(Normalize(name)) == ws;
    WordsAreWords(Rewrite(name));
    assert IsWord(src[i]);
  }

  lemma FixWordIdempotent(w: string)
    ensures FixWord(FixWord(w)) == FixWord(w)
  {
    if !Parenthetical(w) && w != [] {
      var c := Capitalize(w);
      CaseKeeps(w[0]);
      CaseKeeps(w[|w| - 1]);
      assert c[..1] == [c[0]];
      assert c[|c| - 1..] == [c[|c| - 1]];
      assert w[..1] == [w[0]];
      assert w[|w| - 1..] == [w[|w| - 1]];
      assert !Parenthetical(c);
      var cc := Capitalize(c);
      forall i | 0 <= i < |w| ensures cc[i] == c[i] {
        CaseKeeps(w[i]);
      }
    }
  }

  /** Normalising an already normalised name changes nothing. */
  lemma NormalizeIdempotent(name: string)
    ensures Normalize(Normalize(name)) == Normalize(name)
  {
    var ws := FixWords(Words(Rewrite(name)));
    var r := Normalize(name);
    NormalizeNoUnderscore(name);
    TagConstants();
    ReplaceAllAbsent(r, "_gog", " (GOG)");
    ReplaceAllAbsent(r, "_windows", " (Windows)");
    ReplaceAllAbsent(r, "_", " ");
    assert Rewrite(r) == r;
    FixedWordsOk(name);
    WordsOfJoin(ws);
    forall i | 0 <= i < |ws| ensures FixWords(ws)[i] == ws[i] {
      FixWordIdempotent(Words(Rewrite(name))[i]);
    }
    assert FixWords(ws) == ws;
  }

  /** A normalised name is a fixed point; such names are what a completed
      rename pass leaves behind. */
  predicate IsNormal(name: string) {
    Normalize(name) == name
  }

  lemma PlainWord(w: string)
    requires w != [] && w[0] != '(' && w[|w| - 1] != ')'
    ensures !Parenthetical(w)
  {
    assert w[..1][0] == w[0];
    assert w[|w| - 1..][0] == w[|w| - 1];
  }

  lemma RewriteWindowsGog(base: string)
    requires '_' !in base
    ensures Rewrite(base + "_windows_gog") == base + " (Windows) (GOG)"
  {
    TagConstants();
    TagLiterals();
    TagRewrite(base, "_windows", "_gog", " (GOG)", " (Windows)");
  }

  lemma TagLiterals()
    ensures "_windows_gog" == "_windows" + "_gog"
    ensures " (Windows) (GOG)" == " (Windows)" + " (GOG)"
    ensures '_' !in " (Windows)" && '_' !in " (GOG)"
  {
  }

  /** The three passes of `Rewrite` over `base_windows_gog`, with the
      pattern strings as parameters. */
  lemma TagRewrite(base: string, w: string, g: string, gt: string, wt: string)
    requires '_' !in base
    requires w == "_windows" && g == "_gog" && gt == " (GOG)" && wt == " (Windows)"
    requires '_' !in wt && '_' !in gt
    ensures ReplaceAll(ReplaceAll(ReplaceAll(base + (w + g), g, gt), w, wt), "_", " ") == base + (wt + gt)
  {
    TagPasses(base, w, g, gt, wt);
    var s2 := base + (wt + gt);
    assert '_' !in s2;
    ReplaceAllAbsent(s2, "_", " ");
  }

  /** The two tag passes over `base_windows_gog`; the pattern strings are
      parameters so that each pass stays symbolic. */
  lemma TagPasses(base: string, w: string, g: string, gt: string, wt: string)
    requires '_' !in base
    requires w == "_windows" && g == "_gog" && gt == " (GOG)" && wt == " (Windows)"
    ensures ReplaceAll(ReplaceAll(base + (w + g), g, gt), w, wt) == base + (wt + gt)
  {
    ReplaceAllHit([], g, gt);
    assert g + [] == g;
    ReplaceAllMiss(w, g, g, gt, 1);
    ReplaceAllSkip(base, w + g, g, gt);
    var s1 := base + (w + gt);
    assert ReplaceAll(base + (w + g), g, gt) == s1;
    ReplaceAllAbsent(gt, w, wt);
    ReplaceAllHit(gt, w, wt);
    ReplaceAllSkip(base, w + gt, w, wt);
  }

  /** "_gog" is rewritten before "_windows": a plain word followed by
      `_windows_gog` becomes the capitalised word with " (Windows) (GOG)". */
  lemma WindowsGogSuffix(base: string)
    requires IsWord(base) && '_' !in base && !Parenthetical(base)
    ensures Normalize(base + "_windows_gog") == Capitalize(base) + " (Windows) (GOG)"
  {
    RewriteWindowsGog(base);
    TagWordsFixed(base);
  }

  /** Splitting, capitalising and joining `base (Windows) (GOG)`. */
  lemma TagWordsFixed(base: string)
    requires IsWord(base) && !Parenthetical(base)
    ensures Join(FixWords(Words(base + " (Windows) (GOG)")), " ") == Capitalize(base) + " (Windows) (GOG)"
  {
    TagTokens();
    FixedTags(base, "(Windows)", "(GOG)");
  }

  lemma TagTokens()
    ensures IsWord("(Windows)") && Parenthetical("(Windows)")
    ensures IsWord("(GOG)") && Parenthetical("(GOG)")
    ensures " (Windows) (GOG)" == " " + "(Windows)" + " " + "(GOG)"
  {
    assert "(Windows)"[0] == '(' && "(GOG)"[0] == '(';
  }

  /** A plain token followed by two parenthetical tokens: only the first is
      capitalised. */
  lemma FixedTags(base: string, a: string, b: string)
    requires IsWord(base) && !Parenthetical(base)
    requires IsWord(a) && IsWord(b) && Parenthetical(a) && Parenthetical(b)
    ensures Join(FixWords(Words(base + (" " + a + " " + b))), " ") == Capitalize(base) + (" " + a + " " + b)
  {
    var ws := [base, a, b];
    JoinThree(base, a, b);
    WordsOfJoin(ws);
    assert FixWords(ws) == [Capitalize(base), a, b];
    JoinThree(Capitalize(base), a, b);
  }

  lemma JoinThree(x: string, a: string, b: string)
    ensures Join([x, a, b], " ") == x + (" " + a + " " + b)
  {
    assert [x, a, b][1..] == [a, b];
    assert [a, b][1..] == [b];
    assert Join([b], " ") == b;
    assert Join([a, b], " ") == a + " " + b;
  }

  /** The three `replace` passes over a multi-word name tagged `_windows_gog`
      and followed by a parenthetical token; the pattern strings are
      parameters so that each pass stays symbolic. */
  lemma GogPassTagged(ws: seq<string>, t: string, u: string, w: string, g: string, gt: string)
    requires u == "_" && w == "_windows" && g == "_gog" && gt == " (GOG)"
    requires forall i :: 0 <= i < |ws| ==> '_' !in ws[i]
    requires forall i :: 1 <= i < |ws| ==> !StartsWith(ws[i], g[1..])
    requires t != [] && t[0] == '(' && '_' !in t
    ensures ReplaceAll(Join(ws, u) + (w + (g + (u + t))), g, gt) == Join(ws, u) + (w + (gt + (u + t)))
  {
    assert u == [g[0]] && g[1..] == "gog";
    ReplaceAllAbsent(t, g, gt);
    ReplaceAllMiss(u, t, g, gt, 1);
    ReplaceAllHit(u + t, g, gt);
    ReplaceAllMiss(w, g + (u + t), g, gt, 1);
    ReplaceAllPastJoin(ws, w + (g + (u + t)), g, gt);
  }

  lemma WindowsPassTagged(ws: seq<string>, t: string, u: string, w: string, gt: string, wt: string)
    requires u == "_" && w == "_windows" && gt == " (GOG)" && wt == " (Windows)"
    requires forall i :: 0 <= i < |ws| ==> '_' !in ws[i]
    requires forall i :: 1 <= i < |ws| ==> !StartsWith(ws[i], w[1..])
    requires t != [] && t[0] == '(' && '_' !in t
    ensures ReplaceAll(Join(ws, u) + (w + (gt + (u + t))), w, wt) == Join(ws, u) + (wt + (gt + (u + t)))
  {
    assert u == [w[0]] && w[1..] == "windows";
    ReplaceAllAbsent(t, w, wt);
    ReplaceAllMiss(u, t, w, wt, 1);
    ReplaceAllSkip(gt, u + t, w, wt);
    ReplaceAllHit(gt + (u + t), w, wt);
    ReplaceAllPastJoin(ws, w + (gt + (u + t)), w, wt);
  }

  lemma UnderscorePassTagged(ws: seq<string>, t: string, u: string, gt: string, wt: string)
    requires u == "_" && gt == " (GOG)" && wt == " (Windows)"
    requires ws != [] && forall i :: 0 <= i < |ws| ==> '_' !in ws[i]
    requires '_' !in t
    ensures ReplaceAll(Join(ws, u) + (wt + (gt + (u + t))), u, " ") == Join(ws, " ") + (wt + (gt + (" " + t)))
  {
    assert u == ['_'];
    ReplaceAllAbsent(t, u, " ");
    ReplaceAllHit(t, u, " ");
    ReplaceAllSkip(gt, u + t, u, " ");
    ReplaceAllSkip(wt, gt + (u + t), u, " ");
    ReplaceAllJoinSep(ws, wt + (gt + (u + t)), '_', " ");
  }

  lemma RewriteTagged(ws: seq<string>, t: string)
    requires ws != []
    requires forall i :: 0 <= i < |ws| ==> ws[i] != [] && '_' !in ws[i]
    requires forall i :: 1 <= i < |ws| ==> !StartsWith(ws[i], "gog") && !StartsWith(ws[i], "windows")
    requires t != [] && t[0] == '(' && '_' !in t
    ensures Rewrite(Join(ws, "_") + ("_windows" + ("_gog" + ("_" + t))))
         == Join(ws, " ") + (" (Windows)" + (" (GOG)" + (" " + t)))
  {
    TagConstants();
    GogPassTagged(ws, t, "_", "_windows", "_gog", " (GOG)");
    WindowsPassTagged(ws, t, "_", "_windows", " (GOG)", " (Windows)");
    UnderscorePassTagged(ws, t, "_", " (GOG)", " (Windows)");
  }

  /** The two tags and a trailing token, joined with spaces. */
  lemma JoinTags(a: string, b: string, t: string, sp: string, sb: string)
    requires sb == sp + b
    ensures Join([a, b, t], sp) == a + (sb + (sp + t))
  {
    assert [a, b, t][1..] == [b, t];
    assert [b, t][1..] == [t];
    assert Join([b, t], sp) == b + sp + t;
    assert Join([a, b, t], sp) == a + sp + (b + sp + t);
    assert sb + (sp + t) == sp + b + sp + t;
  }

  /** The words joined, then the tags each after a separator: the words and
      the tags joined. */
  lemma JoinWithTags(ws: seq<string>, t: string, a: string, b: string, sp: string, sa: string, sb: string)
    requires ws != []
    requires sa == sp + a && sb == sp + b
    ensures Join(ws, sp) + (sa + (sb + (sp + t))) == Join(ws + [a, b, t], sp)
  {
    JoinTags(a, b, t, sp, sb);
    JoinAppend(ws, [a, b, t], sp);
  }

  /** Capitalisation spares tokens that open with a parenthesis. */
  lemma FixTagged(ws: seq<string>, tags: seq<string>)
    requires forall i :: 0 <= i < |tags| ==> tags[i] != [] && tags[i][0] == '('
    ensures FixWords(ws + tags) == FixWords(ws) + tags
  {
    forall i | 0 <= i < |tags| ensures FixWord(tags[i]) == tags[i] {
      assert tags[i][..1] == "(";
      assert Parenthetical(tags[i]);
    }
    assert FixWords(ws + tags) == FixWords(ws) + tags;
  }

  /** Splitting words joined with a space gives back the words. */
  lemma TaggedWords(ws: seq<string>, tags: seq<string>, sp: string)
    requires sp == " "
    requires forall i :: 0 <= i < |ws| ==> IsWord(ws[i])
    requires forall i :: 0 <= i < |tags| ==> IsWord(tags[i])
    ensures Words(Join(ws + tags, sp)) == ws + tags
  {
    var all := ws + tags;
    forall i | 0 <= i < |all| ensures IsWord(all[i]) {
      if i >= |ws| {
        assert all[i] == tags[i - |ws|];
      }
    }
    WordsOfJoin(all);
  }

  /** The tagged name rewrites to its words and tags joined with spaces. */
  lemma TaggedRewrite(ws: seq<string>, t: string, a: string, b: string, sp: string, sa: string, sb: string)
    requires a == "(Windows)" && b == "(GOG)" && sp == " " && sa == " (Windows)" && sb == " (GOG)"
    requires ws != []
    requires forall i :: 0 <= i < |ws| ==> ws[i] != [] && '_' !in ws[i]
    requires forall i :: 1 <= i < |ws| ==> !StartsWith(ws[i], "gog") && !StartsWith(ws[i], "windows")
    requires t != [] && t[0] == '(' && '_' !in t
    ensures Rewrite(Join(ws, "_") + ("_windows" + ("_gog" + ("_" + t)))) == Join(ws + [a, b, t], sp)
  {
    RewriteTagged(ws, t);
    JoinWithTags(ws, t, a, b, sp, sa, sb);
  }

  /** A multi-word download name: its words are capitalised, the tags follow
      in the order "(Windows)", "(GOG)", the trailing parenthetical token is
      kept verbatim, and all are joined with single spaces. The parameters
      `a`, `b`, `sp`, `sa` and `sb` stand for the literal tags and separators
      fixed by the first precondition. */
  lemma TaggedName(ws: seq<string>, t: string, a: string, b: string, sp: string, sa: string, sb: string)
    requires a == "(Windows)" && b == "(GOG)" && sp == " " && sa == " (Windows)" && sb == " (GOG)"
    requires ws != []
    requires forall i :: 0 <= i < |ws| ==> IsWord(ws[i]) && '_' !in ws[i] && !Parenthetical(ws[i])
    requires forall i :: 1 <= i < |ws| ==> !StartsWith(ws[i], "gog") && !StartsWith(ws[i], "windows")
    requires IsWord(t) && t[0] == '(' && '_' !in t
    ensures Normalize(Join(ws, "_") + ("_windows" + ("_gog" + ("_" + t))))
         == Join(FixWords(ws) + [a, b, t], sp)
  {
    var tags := [a, b, t];
    TaggedRewrite(ws, t, a, b, sp, sa, sb);
    assert IsWord(a) && IsWord(b);
    TaggedWords(ws, tags, sp);
    assert a[0] == '(' && b[0] == '(';
    FixTagged(ws, tags);
  }
}
