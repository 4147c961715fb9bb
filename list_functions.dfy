/** The built-ins over `;`-separated lists: a list is the text split at
    every `;`. Merging, difference, intersection and de-duplication drop
    empty items; the item-wise built-ins keep every item. */
module ListFunctions {
  import opened JsString
  import opened Lists
  import opened Numbers
  import opened TextFunctions

  /** `s.split(';')`. */
  function Items(s: string): (r: seq<string>)
    ensures |r| >= 1
  {
    SplitOn(s, ";")
  }

  /** No item of a split list holds a `;`. */
  lemma ItemsFree(s: string)
    ensures forall k | 0 <= k < |Items(s)| :: ';' !in Items(s)[k]
  {
    var parts := Items(s);
    SplitOnPartsFree(s, ";");
    forall k | 0 <= k < |parts| ensures ';' !in parts[k] {
      if ';' in parts[k] {
        var j :| 0 <= j < |parts[k]| && parts[k][j] == ';';
        assert OccursAt(parts[k], ";", j);
      }
    }
  }

  function NotEmpty(x: string): bool { x != [] }

  /** `.filter(s => s)`: the non-empty items. */
  function Present(xs: seq<string>): (r: seq<string>)
    ensures forall x :: x in r <==> x in xs && x != []
  {
    Filter(xs, NotEmpty)
  }

  /** A list of non-empty items without `;`, joined and split again and
      stripped of empty items, is the same list. */
  lemma PresentItemsOfJoin(xs: seq<string>)
    requires forall k | 0 <= k < |xs| :: xs[k] != [] && ';' !in xs[k]
    ensures Present(Items(Join(xs, ";"))) == xs
  {
    if xs == [] {
      assert Items([]) == [[]];
    } else {
      SplitOnOfJoin(xs, ";");
      FilterOfAll(xs, NotEmpty);
    }
  }

  lemma {:induction false} PresentFree(xs: seq<string>)
    requires forall k | 0 <= k < |xs| :: ';' !in xs[k]
    ensures forall k | 0 <= k < |Present(xs)| :: Present(xs)[k] != [] && ';' !in Present(xs)[k]
  {
    var r := Present(xs);
    forall k | 0 <= k < |r| ensures r[k] != [] && ';' !in r[k] {
      assert r[k] in r;
      var j :| 0 <= j < |xs| && xs[j] == r[k];
    }
  }

  // ---------------------------------------------------------------------
  // LISTUNIQUE, LISTMERGE

  /** `LISTUNIQUE`: the non-empty items, each once, in order of first
      appearance. */
  function ListUnique(s: string): (r: string)
    ensures Present(Items(r)) == Dedup(Present(Items(s)))
  {
    var xs := Present(Items(s));
    ItemsFree(s);
    PresentFree(Items(s));
    DedupFree(xs);
    PresentItemsOfJoin(Dedup(xs));
    Join(Dedup(xs), ";")
  }

  /** `LISTMERGE`: the non-empty items of both lists, each once, in order
      of first appearance. */
  function ListMerge(a: string, b: string): (r: string)
    ensures Present(Items(r)) == Dedup(Present(Items(a)) + Present(Items(b)))
  {
    var xs := Present(Items(a)) + Present(Items(b));
    ItemsFree(a);
    ItemsFree(b);
    PresentFree(Items(a));
    PresentFree(Items(b));
    assert forall k | 0 <= k < |xs| :: xs[k] != [] && ';' !in xs[k] by {
      forall k | 0 <= k < |xs| ensures xs[k] != [] && ';' !in xs[k] {
        if k >= |Present(Items(a))| {
          assert xs[k] == Present(Items(b))[k - |Present(Items(a))|];
        }
      }
    }
    DedupFree(xs);
    PresentItemsOfJoin(Dedup(xs));
    Join(Dedup(xs), ";")
  }

  /** The items of a de-duplicated list of items are themselves items. */
  lemma DedupFree(xs: seq<string>)
    requires forall k | 0 <= k < |xs| :: xs[k] != [] && ';' !in xs[k]
    ensures forall k | 0 <= k < |Dedup(xs)| :: Dedup(xs)[k] != [] && ';' !in Dedup(xs)[k]
  {
    var r := Dedup(xs);
    forall k | 0 <= k < |r| ensures r[k] != [] && ';' !in r[k] {
      assert r[k] in r;
      var j :| 0 <= j < |xs| && xs[j] == r[k];
    }
  }

  /** Read back as a list, `LISTUNIQUE` holds every non-empty item of its
      input once, and no other, in order of first appearance. */
  lemma ListUniqueItems(s: string)
    ensures var r := Present(Items(ListUnique(s)));
      && r == Dedup(Present(Items(s)))
      && (forall x :: x in r <==> x in Items(s) && x != [])
      && NoDuplicates(r)
      && InFirstAppearanceOrder(Present(Items(s)), r)
  {
    DedupSpec(Present(Items(s)));
  }

  /** Read back as a list, `LISTMERGE` holds every non-empty item of
      either list once, in order of first appearance. */
  lemma ListMergeItems(a: string, b: string)
    ensures var xs := Present(Items(a)) + Present(Items(b));
      var r := Present(Items(ListMerge(a, b)));
      && r == Dedup(xs)
      && (forall x :: x in r <==> (x in Items(a) || x in Items(b)) && x != [])
      && NoDuplicates(r)
      && InFirstAppearanceOrder(xs, r)
  {
    DedupSpec(Present(Items(a)) + Present(Items(b)));
  }

  // ---------------------------------------------------------------------
  // LISTDIFF, LISTINTERSECT

  /** The items of `xs` in `s`, in order. */
  function KeepIn(xs: seq<string>, s: set<string>): (r: seq<string>)
    ensures forall x :: x in r <==> x in xs && x in s
  {
    if xs == [] then [] else (if xs[0] in s then [xs[0]] else []) + KeepIn(xs[1..], s)
  }

  /** The items of `xs` not in `s`, in order. */
  function KeepOut(xs: seq<string>, s: set<string>): (r: seq<string>)
    ensures forall x :: x in r <==> x in xs && x !in s
  {
    if xs == [] then [] else (if xs[0] in s then [] else [xs[0]]) + KeepOut(xs[1..], s)
  }

  /** Every item lands in exactly one of the two, as often as it occurs. */
  lemma {:induction false} KeepSplits(xs: seq<string>, s: set<string>)
    ensures multiset(KeepIn(xs, s)) + multiset(KeepOut(xs, s)) == multiset(xs)
  {
    if xs != [] {
      KeepSplits(xs[1..], s);
      assert xs == [xs[0]] + xs[1..];
    }
  }

  function ItemSet(xs: seq<string>): set<string> { set x | x in xs }

  /** `LISTDIFF`: the non-empty items of the first list that are not in
      the second, in the first list's order. */
  function ListDiff(a: string, b: string): (r: string)
    ensures Present(Items(r)) == KeepOut(Present(Items(a)), ItemSet(Present(Items(b))))
  {
    var xs, t := Present(Items(a)), ItemSet(Present(Items(b)));
    ItemsFree(a);
    PresentFree(Items(a));
    KeepFree(xs, t);
    PresentItemsOfJoin(KeepOut(xs, t));
    Join(KeepOut(xs, t), ";")
  }

  /** `LISTINTERSECT`: the non-empty items of the first list that are in
      the second, in the first list's order. */
  function ListIntersect(a: string, b: string): (r: string)
    ensures Present(Items(r)) == KeepIn(Present(Items(a)), ItemSet(Present(Items(b))))
  {
    var xs, t := Present(Items(a)), ItemSet(Present(Items(b)));
    ItemsFree(a);
    PresentFree(Items(a));
    KeepFree(xs, t);
    PresentItemsOfJoin(KeepIn(xs, t));
    Join(KeepIn(xs, t), ";")
  }

  lemma KeepFree(xs: seq<string>, s: set<string>)
    requires forall k | 0 <= k < |xs| :: xs[k] != [] && ';' !in xs[k]
    ensures forall k | 0 <= k < |KeepIn(xs, s)| :: KeepIn(xs, s)[k] != [] && ';' !in KeepIn(xs, s)[k]
    ensures forall k | 0 <= k < |KeepOut(xs, s)| :: KeepOut(xs, s)[k] != [] && ';' !in KeepOut(xs, s)[k]
  {
    var i, o := KeepIn(xs, s), KeepOut(xs, s);
    forall k | 0 <= k < |i| ensures i[k] != [] && ';' !in i[k] {
      assert i[k] in i;
      var j :| 0 <= j < |xs| && xs[j] == i[k];
    }
    forall k | 0 <= k < |o| ensures o[k] != [] && ';' !in o[k] {
      assert o[k] in o;
      var j :| 0 <= j < |xs| && xs[j] == o[k];
    }
  }

  /** Read back as lists, `LISTDIFF` and `LISTINTERSECT` split the
      non-empty items of the first list between them: each item goes to
      exactly one, as often as it occurs, by whether the second list holds
      it. */
  lemma DiffIntersectPartition(a: string, b: string)
    ensures var xs := Present(Items(a));
      var d := Present(Items(ListDiff(a, b)));
      var i := Present(Items(ListIntersect(a, b)));
      && multiset(d) + multiset(i) == multiset(xs)
      && (forall x :: x in i <==> x in xs && x in Items(b))
      && (forall x :: x in d <==> x in xs && x !in Items(b))
  {
    KeepSplits(Present(Items(a)), ItemSet(Present(Items(b))));
  }

  // ---------------------------------------------------------------------
  // LISTCOUNT, LISTASLINES, LISTJOIN

  function NotBlank(x: string): bool { Trim(x) != [] }

  /** `LISTCOUNT` of one argument: how many items are not blank. */
  function CountItems(s: string): (r: nat)
    ensures r <= |Items(s)|
  {
    |Filter(Items(s), NotBlank)|
  }

  /** `LISTASLINES`: every `;` made a line break. */
  function ListAsLines(s: string): (r: string)
    ensures |r| == |s|
    ensures forall k | 0 <= k < |s| :: r[k] == if s[k] == ';' then '\n' else s[k]
  {
    ReplaceChar(s, ';', '\n');
    assert ReplaceAll(s, ";", "\n") == Join(Items(s), "\n");
    Join(Items(s), "\n")
  }

  /** `s.replace(/pat/gi, rep)` for a lower-case ASCII word `pat`. */
  function ReplaceWord(s: string, pat: string, rep: string): (r: string)
    requires pat != []
    decreases |s|
  {
    if s == [] then []
    else if |pat| <= |s| && ToLower(s[..|pat|]) == pat then rep + ReplaceWord(s[|pat|..], pat, rep)
    else [s[0]] + ReplaceWord(s[1..], pat, rep)
  }

  /** A text without the word's first letter in either case is left as
      it is. */
  lemma {:induction false} ReplaceWordAbsent(s: string, pat: string, rep: string)
    requires pat != [] && 'a' <= pat[0] <= 'z'
    requires forall k | 0 <= k < |s| :: LowerChar(s[k]) != pat[0]
    ensures ReplaceWord(s, pat, rep) == s
    decreases |s|
  {
    if s != [] {
      if |pat| <= |s| {
        assert ToLower(s[..|pat|])[0] == LowerChar(s[0]);
      }
      ReplaceWordAbsent(s[1..], pat, rep);
    }
  }

  /** The separator of `LISTJOIN`: the words ppnewline, ppcrlf, pptab and
      ppsp, in any case, stand for a line feed, CR LF, a tab and a space. */
  function JoinSeparator(s: string): string {
    var a := ReplaceWord(s, "ppnewline", "\n");
    var b := ReplaceWord(a, "ppcrlf", "\r\n");
    var c := ReplaceWord(b, "pptab", "\t");
    ReplaceWord(c, "ppsp", " ")
  }

  /** A text shorter than the word is left as it is. */
  lemma {:induction false} ReplaceWordShort(s: string, pat: string, rep: string)
    requires pat != [] && |s| < |pat|
    ensures ReplaceWord(s, pat, rep) == s
    decreases |s|
  {
    if s != [] {
      ReplaceWordShort(s[1..], pat, rep);
    }
  }

  /** The word alone, in any case, becomes the replacement. */
  lemma ReplaceWordWhole(s: string, pat: string, rep: string)
    requires pat != [] && ToLower(s) == pat
    ensures ReplaceWord(s, pat, rep) == rep
  {
    assert s[..|pat|] == s;
    assert s[|pat|..] == [];
  }

  /** Each keyword alone, in any case, is the character it names. */
  lemma SeparatorKeywords(w: string)
    ensures ToLower(w) == "ppnewline" ==> JoinSeparator(w) == "\n"
    ensures ToLower(w) == "ppcrlf" ==> JoinSeparator(w) == "\r\n"
    ensures ToLower(w) == "pptab" ==> JoinSeparator(w) == "\t"
    ensures ToLower(w) == "ppsp" ==> JoinSeparator(w) == " "
  {
    if ToLower(w) == "ppnewline" {
      ReplaceWordWhole(w, "ppnewline", "\n");
      PlainSeparator("\n");
    } else if ToLower(w) == "ppcrlf" {
      ReplaceWordShort(w, "ppnewline", "\n");
      ReplaceWordWhole(w, "ppcrlf", "\r\n");
      ReplaceWordAbsent("\r\n", "pptab", "\t");
      ReplaceWordAbsent("\r\n", "ppsp", " ");
    } else if ToLower(w) == "pptab" {
      ReplaceWordShort(w, "ppnewline", "\n");
      ReplaceWordShort(w, "ppcrlf", "\r\n");
      ReplaceWordWhole(w, "pptab", "\t");
      ReplaceWordAbsent("\t", "ppsp", " ");
    } else if ToLower(w) == "ppsp" {
      ReplaceWordShort(w, "ppnewline", "\n");
      ReplaceWordShort(w, "ppcrlf", "\r\n");
      ReplaceWordShort(w, "pptab", "\t");
      ReplaceWordWhole(w, "ppsp", " ");
    }
  }

  /** `LISTJOIN`: the items joined with the separator. */
  function ListJoin(sep: string, s: string): (r: string)
    ensures r == ReplaceAll(s, ";", JoinSeparator(sep))
    ensures ';' !in s ==> r == s
    ensures JoinSeparator(sep) == ";" ==> r == s
  {
    assert ';' !in s ==> !Includes(s, ";") by {
      if Includes(s, ";") {
        var j := IndexOf(s, ";");
        assert s[j..j + 1] == ";";
        assert s[j] == ';';
      }
    }
    Join(Items(s), JoinSeparator(sep))
  }

  /** A separator without `p` or `P` is taken literally. */
  lemma PlainSeparator(sep: string)
    requires forall k | 0 <= k < |sep| :: LowerChar(sep[k]) != 'p'
    ensures JoinSeparator(sep) == sep
  {
    ReplaceWordAbsent(sep, "ppnewline", "\n");
    ReplaceWordAbsent(sep, "ppcrlf", "\r\n");
    ReplaceWordAbsent(sep, "pptab", "\t");
    ReplaceWordAbsent(sep, "ppsp", " ");
  }

  /** Joining a list with `;` gives the list text back. */
  lemma ListJoinSemicolon(s: string)
    ensures ListJoin(";", s) == s
  {
    PlainSeparator(";");
    SplitOnJoin(s, ";");
  }

  // ---------------------------------------------------------------------
  // picking an item: SPLIT, LISTINDEX, LINESPLIT, WORDSPLIT

  /** `index === 0 ? parts.join(';') : parts[index - 1] || ''`: index 0
      is the whole list, 1 to the length an item, anything else "". */
  function Pick(parts: seq<string>, index: Decimal): (r: string)
    ensures index.mantissa == 0 ==> r == Join(parts, ";")
    ensures index.mantissa != 0 && IsInteger(index) && 1 <= Floor(index) <= |parts| ==>
      r == parts[Floor(index) - 1]
    ensures index.mantissa != 0 && !(IsInteger(index) && 1 <= Floor(index) <= |parts|) ==>
      r == []
  {
    if index.mantissa == 0 then Join(parts, ";")
    else if IsInteger(index) && 1 <= Floor(index) <= |parts| then parts[Floor(index) - 1]
    else []
  }

  /** Picking item `k` of the list that index 0 gives is picking item `k`
      of the parts themselves, when no part holds a `;`. */
  lemma PickFromWhole(parts: seq<string>, k: Decimal)
    requires |parts| >= 1 && forall j | 0 <= j < |parts| :: ';' !in parts[j]
    ensures Pick(Items(Pick(parts, FromInt(0))), k) == Pick(parts, k)
  {
    SplitOnOfJoin(parts, ";");
  }

  /** `LINESPLIT`'s `split(/\r?\n/)`: split at line feeds, each line but
      the last losing one carriage return before its feed. */
  function Lines(s: string): (r: seq<string>)
    ensures |r| == |SplitOn(s, "\n")|
  {
    var parts := SplitOn(s, "\n");
    seq(|parts|, k requires 0 <= k < |parts| =>
      if k < |parts| - 1 && parts[k] != [] && parts[k][|parts[k]| - 1] == '\r'
      then parts[k][..|parts[k]| - 1] else parts[k])
  }

  /** The lines joined with CR LF: each line but the last followed by a
      carriage return, ready to be joined with bare line feeds. */
  function WithCr(xs: seq<string>): (r: seq<string>)
    requires |xs| >= 1
    ensures |r| == |xs| && r[|xs| - 1] == xs[|xs| - 1]
    ensures forall k | 0 <= k < |xs| - 1 :: r[k] == xs[k] + "\r"
    decreases |xs|
  {
    if |xs| == 1 then xs else [xs[0] + "\r"] + WithCr(xs[1..])
  }

  lemma {:induction false} CrLfJoin(xs: seq<string>)
    requires |xs| >= 1
    ensures Join(xs, "\r\n") == Join(WithCr(xs), "\n")
    decreases |xs|
  {
    if |xs| > 1 {
      CrLfJoin(xs[1..]);
      var rest := Join(xs[1..], "\r\n");
      assert xs == [xs[0]] + xs[1..];
      JoinCons(xs[0], xs[1..], "\r\n");
      assert WithCr(xs) == [xs[0] + "\r"] + WithCr(xs[1..]);
      JoinCons(xs[0] + "\r", WithCr(xs[1..]), "\n");
      CrThenFeed(xs[0], rest);
    }
  }

  lemma CrThenFeed(a: string, rest: string)
    ensures a + "\r\n" + rest == (a + "\r") + "\n" + rest
  {
    assert "\r\n" == "\r" + "\n";
    assert a + "\r\n" == (a + "\r") + "\n";
  }

  /** Lines without line feeds joined with CR LF split back into the same
      lines. */
  lemma {:induction false} LinesOfCrLf(xs: seq<string>)
    requires |xs| >= 1 && forall k | 0 <= k < |xs| :: '\n' !in xs[k]
    ensures Lines(Join(xs, "\r\n")) == xs
  {
    CrLfJoin(xs);
    WithCrNoFeed(xs);
    SplitOnOfJoin(WithCr(xs), "\n");
    LinesDropCr(Join(xs, "\r\n"), xs);
  }

  lemma {:induction false} WithCrNoFeed(xs: seq<string>)
    requires |xs| >= 1 && forall k | 0 <= k < |xs| :: '\n' !in xs[k]
    ensures forall k | 0 <= k < |xs| :: '\n' !in WithCr(xs)[k]
  {
    var parts := WithCr(xs);
    forall k | 0 <= k < |parts| ensures '\n' !in parts[k] {
      if k < |xs| - 1 {
        assert parts[k] == xs[k] + "\r";
      }
    }
  }

  lemma {:induction false} LinesDropCr(s: string, xs: seq<string>)
    requires |xs| >= 1 && SplitOn(s, "\n") == WithCr(xs)
    ensures Lines(s) == xs
  {
    var parts := WithCr(xs);
    var r := Lines(s);
    forall k | 0 <= k < |xs| ensures r[k] == xs[k] {
      if k < |xs| - 1 {
        assert parts[k] == xs[k] + "\r";
        assert parts[k][..|parts[k]| - 1] == xs[k];
      }
    }
  }

  /** The end of the run of non-blank characters at the start of `s`. */
  function WordEnd(s: string): (r: nat)
    ensures r <= |s|
    ensures forall k | 0 <= k < r :: !IsSpace(s[k])
    ensures r == |s| || IsSpace(s[r])
  {
    if s == [] || IsSpace(s[0]) then 0 else 1 + WordEnd(s[1..])
  }

  /** `WORDSPLIT`'s `split(/\s+/).filter(w => w)`: the runs of non-blank
      characters. */
  function Words(s: string): (r: seq<string>)
    ensures forall k | 0 <= k < |r| :: r[k] != [] && forall j | 0 <= j < |r[k]| :: !IsSpace(r[k][j])
    decreases |s|
  {
    if s == [] then []
    else if IsSpace(s[0]) then Words(DropSpaces(s))
    else
      var e := WordEnd(s);
      [s[..e]] + Words(s[e..])
  }

  /** A run of non-blank characters ends at its first blank. */
  lemma WordEndAt(s: string, e: nat)
    requires e <= |s| && (e == |s| || IsSpace(s[e]))
    requires forall k | 0 <= k < e :: !IsSpace(s[k])
    ensures WordEnd(s) == e
  {
  }

  /** Leading blanks are skipped. */
  lemma WordsSkipBlanks(s: string)
    ensures Words(s) == Words(DropSpaces(s))
  {
    if s != [] && !IsSpace(s[0]) {
      DropSpacesAt(s, 0);
    }
  }

  /** The run of blanks at the start of `s` ends at `k`. */
  lemma DropSpacesAt(s: string, k: nat)
    requires k <= |s| && AllSpace(s[..k]) && (k == |s| || !IsSpace(s[k]))
    ensures DropSpaces(s) == s[k..]
  {
    var r := DropSpaces(s);
    var m := |s| - |r|;
    assert m == |s| || !IsSpace(s[m]) by {
      if r != [] { assert r[0] == s[m]; }
    }
    forall i | 0 <= i < m ensures IsSpace(s[i]) { assert s[..m][i] == s[i]; }
    forall i | 0 <= i < k ensures IsSpace(s[i]) { assert s[..k][i] == s[i]; }
    if m < k {
      assert false;
    } else if k < m {
      assert false;
    }
  }

  /** Blanks before the text add no word. */
  lemma {:induction false} BlanksThenWords(p: string, b: string)
    requires AllSpace(p)
    ensures Words(p + b) == Words(b)
  {
    if p == [] {
      assert p + b == b;
    } else {
      var s := p + b;
      var k := |b| - |DropSpaces(b)|;
      assert AllSpace(s[..|p| + k]) by {
        forall i | 0 <= i < |p| + k ensures IsSpace(s[i]) {
          if i < |p| { assert s[i] == p[i]; } else { assert s[i] == b[..k][i - |p|]; }
        }
      }
      assert s[|p| + k..] == b[k..];
      DropSpacesAt(s, |p| + k);
      WordsSkipBlanks(b);
    }
  }

  /** `WORDSPLIT`'s words of text with no blank: the text itself, when it
      is not empty. */
  lemma WordsOfWord(w: string)
    requires w != [] && forall k | 0 <= k < |w| :: !IsSpace(w[k])
    ensures Words(w) == [w]
  {
    WordEndAt(w, |w|);
    assert w[..|w|] == w && w[|w|..] == [];
  }

  /** Text made of blanks has no words. */
  lemma WordsOfBlanks(s: string)
    requires AllSpace(s)
    ensures Words(s) == []
  {
    BlanksThenWords(s, []);
    assert s + [] == s;
  }

  /** A blank separates: the words on either side of it, in order. With
      the two lemmas above this pins down `Words` on every text. */
  lemma {:induction false} WordsSplitAtBlank(a: string, c: char, b: string)
    requires IsSpace(c)
    ensures Words(a + [c] + b) == Words(a) + Words(b)
    decreases |a|
  {
    var d := DropSpaces(a);
    if AllSpace(a) {
      BlanksSplit(a, c, b);
    } else if |d| < |a| {
      LeadingBlanksSplit(a, c, b);
      WordsSplitAtBlank(d, c, b);
    } else {
      assert d == a && !IsSpace(a[0]);
      var e := WordEnd(a);
      if e < |a| {
        FirstWordSplit(a, c, b);
        WordsSplitAtBlank(a[e..], c, b);
        JoinWords([a[..e]], Words(a[e..]), Words(b));
      } else {
        WholeWordSplit(a, c, b);
        WordsOfWord(a);
      }
    }
  }

  lemma BlanksSplit(a: string, c: char, b: string)
    requires AllSpace(a) && IsSpace(c)
    ensures Words(a + [c] + b) == Words(a) + Words(b)
  {
    assert AllSpace(a + [c]) by {
      forall i | 0 <= i < |a| + 1 ensures IsSpace((a + [c])[i]) {
        if i < |a| { assert (a + [c])[i] == a[i]; }
      }
    }
    BlanksThenWords(a + [c], b);
    WordsOfBlanks(a);
  }

  lemma LeadingBlanksSplit(a: string, c: char, b: string)
    requires |DropSpaces(a)| < |a|
    ensures var d := DropSpaces(a);
      Words(a + [c] + b) == Words(d + [c] + b) && Words(a) == Words(d)
  {
    var d := DropSpaces(a);
    var k := |a| - |d|;
    assert a == a[..k] + d;
    assert a + [c] + b == a[..k] + (d + [c] + b);
    BlanksThenWords(a[..k], d + [c] + b);
    BlanksThenWords(a[..k], d);
  }

  lemma FirstWordSplit(a: string, c: char, b: string)
    requires a != [] && !IsSpace(a[0]) && WordEnd(a) < |a|
    ensures var e := WordEnd(a);
      Words(a + [c] + b) == [a[..e]] + Words(a[e..] + [c] + b)
  {
    var s := a + [c] + b;
    var e := WordEnd(a);
    forall i | 0 <= i < e ensures !IsSpace(s[i]) { assert s[i] == a[i]; }
    assert s[e] == a[e];
    WordEndAt(s, e);
    assert s[..e] == a[..e];
    assert s[e..] == a[e..] + [c] + b;
  }

  lemma WholeWordSplit(a: string, c: char, b: string)
    requires a != [] && IsSpace(c) && forall k | 0 <= k < |a| :: !IsSpace(a[k])
    ensures Words(a + [c] + b) == [a] + Words(b)
  {
    var s := a + [c] + b;
    forall i | 0 <= i < |a| ensures !IsSpace(s[i]) { assert s[i] == a[i]; }
    assert s[|a|] == c;
    WordEndAt(s, |a|);
    assert s[..|a|] == a && s[|a|..] == [c] + b;
    BlanksThenWords([c], b);
  }

  lemma JoinWords(x: seq<string>, y: seq<string>, z: seq<string>)
    ensures x + y + z == x + (y + z)
  {
  }

  // ---------------------------------------------------------------------
  // the item-wise built-ins

  /** `LISTITEMAPPEND` and `LISTITEMPREPEND`: text added to every item. */
  function Affix(xs: seq<string>, prefix: string, suffix: string): (r: seq<string>)
    ensures |r| == |xs|
    ensures forall k | 0 <= k < |xs| :: r[k] == prefix + xs[k] + suffix
  {
    seq(|xs|, k requires 0 <= k < |xs| => prefix + xs[k] + suffix)
  }

  /** Adding text without `;` to every item keeps the list's items: the
      result read back as a list has the same count, each item affixed. */
  lemma AffixItems(s: string, prefix: string, suffix: string)
    requires ';' !in prefix && ';' !in suffix
    ensures Items(Join(Affix(Items(s), prefix, suffix), ";")) == Affix(Items(s), prefix, suffix)
  {
    var xs := Items(s);
    ItemsFree(s);
    var r := Affix(xs, prefix, suffix);
    forall k | 0 <= k < |r| ensures ';' !in r[k] {
      assert r[k] == prefix + xs[k] + suffix;
    }
    SplitOnOfJoin(r, ";");
  }

  /** How `LISTITEMCONTAINS`, `LISTITEMSTARTSWITH` and
      `LISTITEMENDSWITH` test an item. */
  datatype ItemTest = ContainsTest | StartsTest | EndsTest

  predicate Passes(test: ItemTest, item: string, search: string) {
    var lower := ToLower(item);
    match test
    case ContainsTest => Includes(lower, search)
    case StartsTest => StartsWith(lower, search)
    case EndsTest => EndsWith(lower, search)
  }

  /** The items that pass the test against the lower-cased search text. */
  function SelectItems(xs: seq<string>, test: ItemTest, search: string): (r: seq<string>)
    ensures forall x :: x in r <==> x in xs && Passes(test, x, ToLower(search))
    ensures |r| <= |xs|
    ensures r == Filter(xs, x => Passes(test, x, ToLower(search)))
  {
    if xs == [] then []
    else
      (if Passes(test, xs[0], ToLower(search)) then [xs[0]] else [])
      + SelectItems(xs[1..], test, search)
  }

  /** `LISTITEMLEFT`: the first `count` characters of every item. */
  function ItemsLeft(xs: seq<string>, count: int): (r: seq<string>)
    ensures |r| == |xs|
    ensures forall k | 0 <= k < |xs| :: StartsWith(xs[k], r[k]) && |r[k]| == Clamp(count, |xs[k]|)
  {
    seq(|xs|, k requires 0 <= k < |xs| => Substring(xs[k], 0, count))
  }

  /** `LISTITEMRIGHT`: the last `count` characters of every item. */
  function ItemsRight(xs: seq<string>, count: int): (r: seq<string>)
    ensures |r| == |xs|
    ensures forall k | 0 <= k < |xs| :: EndsWith(xs[k], r[k]) && |r[k]| == Clamp(count, |xs[k]|)
  {
    seq(|xs|, k requires 0 <= k < |xs| => SubstringFrom(xs[k], |xs[k]| - count))
  }

  /** `LISTITEMLEFTOF`: `LEFTOF` on every item. */
  function ItemsLeftOf(search: string, xs: seq<string>): (r: seq<string>)
    ensures |r| == |xs|
    ensures forall k | 0 <= k < |xs| :: r[k] == LeftOf(search, xs[k])
  {
    seq(|xs|, k requires 0 <= k < |xs| => LeftOf(search, xs[k]))
  }

  /** `LISTITEMRIGHTOF`: `RIGHTOF` on every item. */
  function ItemsRightOf(search: string, xs: seq<string>): (r: seq<string>)
    ensures |r| == |xs|
    ensures forall k | 0 <= k < |xs| :: r[k] == RightOf(search, xs[k])
  {
    seq(|xs|, k requires 0 <= k < |xs| => RightOf(search, xs[k]))
  }

  /** Item by item, the `LISTITEMLEFTOF` part, the marker and the
      `LISTITEMRIGHTOF` part make up the item wherever the marker occurs. */
  lemma ItemsCutAtMarker(search: string, xs: seq<string>)
    ensures forall k | 0 <= k < |xs| && Includes(xs[k], search) ::
      ItemsLeftOf(search, xs)[k] + search + ItemsRightOf(search, xs)[k] == xs[k]
  {
    forall k | 0 <= k < |xs| && Includes(xs[k], search)
      ensures ItemsLeftOf(search, xs)[k] + search + ItemsRightOf(search, xs)[k] == xs[k]
    {
      MarkerSplit(search, xs[k]);
    }
  }
}
