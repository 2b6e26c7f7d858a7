/** The plugin slug list as the admin page handles it as text: the
    comma-separated list the user saves (wp-packager.php:129-130), the slugs
    of the plugins currently installed (wp-packager.php:194-200) and the
    "Load current Slugs" button that appends them to the textarea
    (wp-packager.php:207-217). */
module SlugList {
  import opened Text

  /** The characters PHP's `trim` strips by default: " \t\n\r\0\x0B". */
  const PhpSpace: set<char> := {' ', '\t', '\n', '\r', '\0', '\U{B}'}

  /** The characters JavaScript's `String.prototype.trim` strips: the
      ECMAScript WhiteSpace and LineTerminator code points. */
  const JsSpace: set<char> :=
    {'\t', '\n', '\U{B}', '\U{C}', '\r', ' ', '\U{A0}', '\U{1680}',
     '\U{2000}', '\U{2001}', '\U{2002}', '\U{2003}', '\U{2004}', '\U{2005}',
     '\U{2006}', '\U{2007}', '\U{2008}', '\U{2009}', '\U{200A}',
     '\U{2028}', '\U{2029}', '\U{202F}', '\U{205F}', '\U{3000}', '\U{FEFF}'}

  /** The directory of WP Packager itself, never offered as a "current" slug. */
  const OwnDirectory := "wp-packager"

  // ---------------------------------------------------------------------
  // Saving the list: array_filter(array_map('trim', explode(',', $text)))
  // ---------------------------------------------------------------------

  /** PHP `explode` with a one-character delimiter. */
  function Split(s: string, sep: char): (r: seq<string>)
    ensures |r| >= 1
    ensures forall k :: 0 <= k < |r| ==> sep !in r[k]
  {
    if s == [] then [""]
    else
      var rest := Split(s[1..], sep);
      if s[0] == sep then [""] + rest else [[s[0]] + rest[0]] + rest[1..]
  }

  /** `implode` undoes `explode`. */
  lemma {:induction false} JoinSplit(s: string, sep: char)
    ensures Join(Split(s, sep), [sep]) == s
  {
    if s != [] {
      JoinSplit(s[1..], sep);
      var rest := Split(s[1..], sep);
      if s[0] == sep {
        assert ([""] + rest)[1..] == rest;
      } else if |rest| > 1 {
        assert ([[s[0]] + rest[0]] + rest[1..])[1..] == rest[1..];
        assert Join(rest, [sep]) == rest[0] + [sep] + Join(rest[1..], [sep]);
      }
    }
  }

  /** A delimiter splits the text into the pieces of its two sides. */
  lemma {:induction false} SplitAppend(a: string, b: string, sep: char)
    ensures Split(a + [sep] + b, sep) == Split(a, sep) + Split(b, sep)
  {
    if a == [] {
      assert a + [sep] + b == [sep] + b;
      assert ([sep] + b)[1..] == b;
    } else {
      assert (a + [sep] + b)[1..] == a[1..] + [sep] + b;
      SplitAppend(a[1..], b, sep);
    }
  }

  lemma {:induction false} SplitWithoutSeparator(s: string, sep: char)
    requires sep !in s
    ensures Split(s, sep) == [s]
  {
    if s != [] {
      SplitWithoutSeparator(s[1..], sep);
      assert [s[0]] + s[1..] == s;
    }
  }

  /** `array_map(f, ...)`. */
  function MapSeq<A, B>(f: A -> B, s: seq<A>): (r: seq<B>)
    ensures |r| == |s|
    ensures forall k :: 0 <= k < |r| ==> r[k] == f(s[k])
  {
    seq(|s|, k requires 0 <= k < |s| => f(s[k]))
  }

  lemma MapSeqAppend<A, B>(f: A -> B, xs: seq<A>, ys: seq<A>)
    ensures MapSeq(f, xs + ys) == MapSeq(f, xs) + MapSeq(f, ys)
  {
    var l, r := MapSeq(f, xs + ys), MapSeq(f, xs) + MapSeq(f, ys);
    forall k | 0 <= k < |l| ensures l[k] == r[k] {
      if k < |xs| {
        assert (xs + ys)[k] == xs[k];
      } else {
        assert (xs + ys)[k] == ys[k - |xs|];
      }
    }
  }

  /** `array_map('trim', ...)` */
  function TrimAll(pieces: seq<string>): (r: seq<string>)
    ensures |r| == |pieces|
    ensures forall k :: 0 <= k < |r| ==> r[k] == Trim(pieces[k], PhpSpace)
  {
    MapSeq(p => Trim(p, PhpSpace), pieces)
  }

  lemma TrimAllAppend(xs: seq<string>, ys: seq<string>)
    ensures TrimAll(xs + ys) == TrimAll(xs) + TrimAll(ys)
  {
    MapSeqAppend(p => Trim(p, PhpSpace), xs, ys);
  }

  /** PHP truthiness of a string: "" and "0" are false. */
  predicate Truthy(s: string)
  {
    s != "" && s != "0"
  }

  /** `array_filter` without a callback, keeping the original order. */
  function KeepTruthy(xs: seq<string>): (r: seq<string>)
    ensures |r| <= |xs|
    ensures forall k :: 0 <= k < |r| ==> Truthy(r[k])
    ensures forall x :: x in r <==> x in xs && Truthy(x)
  {
    if xs == [] then []
    else (if Truthy(xs[0]) then [xs[0]] else []) + KeepTruthy(xs[1..])
  }

  lemma {:induction false} KeepTruthyAppend(xs: seq<string>, ys: seq<string>)
    ensures KeepTruthy(xs + ys) == KeepTruthy(xs) + KeepTruthy(ys)
  {
    if xs == [] {
      assert xs + ys == ys;
    } else {
      assert (xs + ys)[1..] == xs[1..] + ys;
      KeepTruthyAppend(xs[1..], ys);
    }
  }

  /** A slug as the saved list holds it: trimmed, truthy, without a comma. */
  predicate SavedSlug(x: string)
  {
    Truthy(x) && ',' !in x && x[0] !in PhpSpace && x[|x| - 1] !in PhpSpace
  }

  /** The list stored when the user saves the textarea. */
  function ParseSlugList(text: string): seq<string>
  {
    KeepTruthy(TrimAll(Split(text, ',')))
  }

  /** Every stored entry is trimmed, non-empty, not "0" and free of commas,
      and there are at most as many entries as comma-separated pieces. */
  lemma ParsedEntriesAreSlugs(text: string)
    ensures |ParseSlugList(text)| <= |Split(text, ',')|
    ensures forall k :: 0 <= k < |ParseSlugList(text)| ==> SavedSlug(ParseSlugList(text)[k])
  {
    var pieces := Split(text, ',');
    var trimmed := TrimAll(pieces);
    var r := KeepTruthy(trimmed);
    forall k | 0 <= k < |r| ensures SavedSlug(r[k]) {
      var x := r[k];
      assert x in trimmed;
      var j :| 0 <= j < |trimmed| && trimmed[j] == x;
      assert x == Trim(pieces[j], PhpSpace);
    }
  }

  /** Each comma-free piece contributes its trimmed self, unless that is falsy. */
  lemma ParsePiece(piece: string)
    requires ',' !in piece
    ensures var t := Trim(piece, PhpSpace);
            ParseSlugList(piece) == if Truthy(t) then [t] else []
  {
    SplitWithoutSeparator(piece, ',');
  }

  /** The list keeps the comma-split order: the text before a comma gives
      the entries before those of the text after it. */
  lemma ParseAppend(a: string, b: string)
    ensures ParseSlugList(a + "," + b) == ParseSlugList(a) + ParseSlugList(b)
  {
    var sa, sb := Split(a, ','), Split(b, ',');
    assert Split(a + "," + b, ',') == sa + sb by {
      assert a + "," + b == a + [','] + b;
      SplitAppend(a, b, ',');
    }
    TrimAllAppend(sa, sb);
    KeepTruthyAppend(TrimAll(sa), TrimAll(sb));
  }

  /** Text made only of whitespace holds no slug. */
  lemma ParseOfSpace(pad: string)
    requires forall c :: c in pad ==> c in PhpSpace
    ensures ParseSlugList(pad) == []
  {
    ParsePiece(pad);
    TrimEmptyIffAllSpace(pad, PhpSpace);
  }

  /** Whitespace in front of the text changes nothing: the first piece is trimmed. */
  lemma {:induction false} ParsePadded(pad: string, x: string)
    requires forall c :: c in pad ==> c in PhpSpace
    ensures ParseSlugList(pad + x) == ParseSlugList(x)
    decreases |x|
  {
    if ',' in x {
      var i :| 0 <= i < |x| && x[i] == ',';
      var a, b := x[..i], x[i + 1..];
      assert x == a + "," + b;
      assert pad + x == (pad + a) + "," + b;
      ParseAppend(pad + a, b);
      ParseAppend(a, b);
      ParsePadded(pad, a);
    } else {
      assert ',' !in pad + x;
      ParsePiece(pad + x);
      ParsePiece(x);
      TrimPadding(pad, x, PhpSpace);
    }
  }

  /** One slug after some whitespace parses to just that slug. */
  lemma PaddedSlugPiece(pad: string, x: string)
    requires forall c :: c in pad ==> c in PhpSpace
    requires SavedSlug(x)
    ensures ParseSlugList(pad + x) == [x]
  {
    assert ',' !in pad + x;
    ParsePiece(pad + x);
    TrimDropsLeading(pad, x, PhpSpace);
  }

  lemma CommaSpace(pad: string, x: string, rest: string)
    ensures pad + (x + ", " + rest) == (pad + x) + "," + (" " + rest)
  {
    assert ", " == "," + " ";
  }

  /** The first slug of a joined list is split off at its comma. */
  lemma ParseJoinHead(pad: string, slugs: seq<string>)
    requires forall c :: c in pad ==> c in PhpSpace
    requires |slugs| > 1 && SavedSlug(slugs[0])
    ensures ParseSlugList(pad + Join(slugs, ", "))
         == [slugs[0]] + ParseSlugList(" " + Join(slugs[1..], ", "))
  {
    var x, rest := slugs[0], Join(slugs[1..], ", ");
    assert Join(slugs, ", ") == x + ", " + rest;
    CommaSpace(pad, x, rest);
    ParseAppend(pad + x, " " + rest);
    PaddedSlugPiece(pad, x);
  }

  lemma {:induction false} ParsePaddedJoin(pad: string, slugs: seq<string>)
    requires forall c :: c in pad ==> c in PhpSpace
    requires forall k :: 0 <= k < |slugs| ==> SavedSlug(slugs[k])
    ensures ParseSlugList(pad + Join(slugs, ", ")) == slugs
    decreases |slugs|
  {
    if slugs == [] {
      assert pad + Join(slugs, ", ") == pad;
      ParseOfSpace(pad);
    } else if |slugs| == 1 {
      PaddedSlugPiece(pad, slugs[0]);
    } else {
      ParseJoinHead(pad, slugs);
      SingleSpace();
      ParsePaddedJoin(" ", slugs[1..]);
    }
  }

  lemma SingleSpace()
    ensures forall c :: c in " " ==> c in PhpSpace
  {
  }

  /** The textarea shows the saved list joined with ", " (wp-packager.php:122);
      saving it again unchanged stores the same list. */
  lemma SavedListRoundTrip(slugs: seq<string>)
    requires forall k :: 0 <= k < |slugs| ==> SavedSlug(slugs[k])
    ensures ParseSlugList(Join(slugs, ", ")) == slugs
  {
    ParsePaddedJoin("", slugs);
    assert "" + Join(slugs, ", ") == Join(slugs, ", ");
  }

  // ---------------------------------------------------------------------
  // Currently installed plugins
  // ---------------------------------------------------------------------

  /** Index of the last '/' in `p`, or -1. */
  function LastSlash(p: string): (i: int)
    ensures -1 <= i < |p|
    ensures i >= 0 ==> p[i] == '/' && '/' !in p[i + 1..]
    ensures i == -1 ==> '/' !in p
  {
    if p == [] then -1
    else if p[|p| - 1] == '/' then |p| - 1
    else
      var init := p[..|p| - 1];
      var i := LastSlash(init);
      assert p == init + [p[|p| - 1]];
      assert i >= 0 ==> p[i + 1..] == init[i + 1..] + [p[|p| - 1]];
      i
  }

  /** PHP `dirname` of a plugin file path. */
  function Dirname(p: string): string
  {
    var i := LastSlash(p);
    if i < 0 then "." else if i == 0 then "/" else p[..i]
  }

  /** The directory part of `dir/file` is `dir`; a single-file plugin lives in ".". */
  lemma DirnameOfPluginFile(dir: string, file: string)
    requires '/' !in dir && '/' !in file
    ensures dir != "" ==> Dirname(dir + "/" + file) == dir
    ensures Dirname(file) == "."
  {
    if dir != "" {
      var p := dir + "/" + file;
      assert p[|dir| + 1..] == file;
      assert p[..|dir|] == dir;
    }
  }

  predicate Skipped(slug: string)
  {
    slug == "." || slug == OwnDirectory
  }

  /** The slugs the page lists as currently installed, in `get_plugins()` order. */
  function CurrentSlugs(files: seq<string>): (r: seq<string>)
    ensures |r| <= |files|
    ensures forall k :: 0 <= k < |r| ==> !Skipped(r[k])
  {
    if files == [] then []
    else
      var slug := Dirname(files[|files| - 1]);
      CurrentSlugs(files[..|files| - 1]) + (if Skipped(slug) then [] else [slug])
  }

  /** Every plugin outside "." and WP Packager's own directory is listed,
      and every listed slug is the directory of some installed plugin file. */
  lemma {:induction false} CurrentSlugsListed(files: seq<string>)
    ensures forall k :: 0 <= k < |files| && !Skipped(Dirname(files[k])) ==> Dirname(files[k]) in CurrentSlugs(files)
    ensures forall x :: x in CurrentSlugs(files) ==> exists j :: 0 <= j < |files| && Dirname(files[j]) == x
  {
    if files != [] {
      var n := |files| - 1;
      var init := files[..n];
      CurrentSlugsListed(init);
      var slug := Dirname(files[n]);
      var r := CurrentSlugs(files);
      assert r == CurrentSlugs(init) + (if Skipped(slug) then [] else [slug]);
      forall k | 0 <= k < |files| && !Skipped(Dirname(files[k]))
        ensures Dirname(files[k]) in r
      {
        if k < n {
          assert init[k] == files[k];
        }
      }
      forall x | x in r
        ensures exists j :: 0 <= j < |files| && Dirname(files[j]) == x
      {
        if x in CurrentSlugs(init) {
          var j :| 0 <= j < |init| && Dirname(init[j]) == x;
          assert files[j] == init[j];
        } else {
          assert Dirname(files[n]) == x;
        }
      }
    }
  }

  /** Listing follows iteration order: the files of `a` come first. */
  lemma {:induction false} CurrentSlugsAppend(a: seq<string>, b: seq<string>)
    ensures CurrentSlugs(a + b) == CurrentSlugs(a) + CurrentSlugs(b)
  {
    if b == [] {
      assert a + b == a;
    } else {
      var bi, last := b[..|b| - 1], b[|b| - 1];
      var tail := if Skipped(Dirname(last)) then [] else [Dirname(last)];
      assert b == bi + [last];
      assert a + b == (a + bi) + [last];
      CurrentSlugsSnoc(a + bi, last);
      CurrentSlugsSnoc(bi, last);
      CurrentSlugsAppend(a, bi);
      AppendAssoc(CurrentSlugs(a), CurrentSlugs(bi), tail);
    }
  }

  /** One more file contributes its directory at the end, unless skipped. */
  lemma CurrentSlugsSnoc(files: seq<string>, f: string)
    ensures CurrentSlugs(files + [f]) == CurrentSlugs(files) + (if Skipped(Dirname(f)) then [] else [Dirname(f)])
  {
    assert (files + [f])[..|files|] == files;
  }

  lemma AppendAssoc<T>(a: seq<T>, b: seq<T>, c: seq<T>)
    ensures (a + b) + c == a + (b + c)
  {
  }

  /** The `foreach` over `get_plugins()` that fills `$current_slugs`. */
  method CollectCurrentSlugs(files: seq<string>) returns (slugs: seq<string>)
    ensures slugs == CurrentSlugs(files)
  {
    slugs := [];
    for i := 0 to |files|
      invariant slugs == CurrentSlugs(files[..i])
    {
      assert files[..i + 1][..i] == files[..i];
      var slug := Dirname(files[i]);
      if slug == "." || slug == OwnDirectory {
        continue;
      }
      slugs := slugs + [slug];
    }
    assert files[..|files|] == files;
  }

  // ---------------------------------------------------------------------
  // "Load current Slugs into the list"
  // ---------------------------------------------------------------------

  predicate EndsWithComma(s: string)
  {
    s != [] && s[|s| - 1] == ','
  }

  /** The textarea's text after a load the user did not refuse. */
  function LoadedText(before: string, current: seq<string>): string
  {
    var slugs := Join(current, ", ");
    var shown := Trim(before, JsSpace);
    if shown == "" then slugs
    else before + (if EndsWithComma(shown) then " " else ", ") + slugs
  }

  /** No character that JavaScript trims but PHP keeps (such as U+00A0). */
  predicate NoJsOnlySpace(s: string)
  {
    forall c :: c in s && c in JsSpace ==> c in PhpSpace
  }

  /** On a blank textarea the load writes the current slugs alone. */
  lemma LoadedBlank(before: string, current: seq<string>)
    requires NoJsOnlySpace(before)
    requires forall c :: c in before ==> c in JsSpace
    ensures LoadedText(before, current) == Join(current, ", ")
    ensures ParseSlugList(before) == []
    ensures ParseSlugList(LoadedText(before, current)) == ParseSlugList(before) + ParseSlugList(Join(current, ", "))
  {
    TrimEmptyIffAllSpace(before, JsSpace);
    ParseOfSpace(before);
    assert [] + ParseSlugList(Join(current, ", ")) == ParseSlugList(Join(current, ", "));
  }

  lemma CutAtLastComma(s: string, n: nat)
    requires 0 < n <= |s| && s[n - 1] == ','
    ensures s == s[..n - 1] + "," + s[n..]
  {
  }

  /** Text whose JavaScript-trimmed form ends with a comma is some text, that
      comma, and trailing whitespace PHP also trims. */
  lemma CutAfterLastComma(before: string) returns (p: string, u: string)
    requires NoJsOnlySpace(before)
    requires EndsWithComma(Trim(before, JsSpace))
    ensures before == p + "," + u
    ensures forall c :: c in u ==> c in PhpSpace
  {
    var n := |TrimEnd(before, JsSpace)|;
    CommaBeforeTrailing(before);
    p, u := before[..n - 1], before[n..];
    CutAtLastComma(before, n);
    TrailingTrimmed(before, n);
  }

  /** The comma that ends the trimmed text is the last character before the
      trailing whitespace. */
  lemma CommaBeforeTrailing(before: string)
    requires EndsWithComma(Trim(before, JsSpace))
    ensures var n := |TrimEnd(before, JsSpace)|; 0 < n <= |before| && before[n - 1] == ','
  {
    TrimLast(before, JsSpace);
  }

  /** What JavaScript's trim cuts off the end is whitespace PHP trims too. */
  lemma TrailingTrimmed(before: string, n: nat)
    requires NoJsOnlySpace(before)
    requires n == |TrimEnd(before, JsSpace)|
    ensures forall c :: c in before[n..] ==> c in PhpSpace
  {
    forall c | c in before[n..] ensures c in PhpSpace {
      var k :| 0 <= k < |before| - n && before[n..][k] == c;
      assert before[n + k] == c;
    }
  }

  /** A comma followed only by whitespace adds no entry. */
  lemma ParseTrailingComma(p: string, u: string)
    requires forall c :: c in u ==> c in PhpSpace
    ensures ParseSlugList(p + "," + u) == ParseSlugList(p)
  {
    ParseAppend(p, u);
    ParseOfSpace(u);
    assert ParseSlugList(p) + [] == ParseSlugList(p);
  }

  /** Whatever the current slugs are, a confirmed load followed by a save
      stores the old entries followed by the entries the save makes of the
      inserted `implode(', ', $current_slugs)`: the separator the button
      inserts never merges the two lists or adds an entry between them. */
  lemma LoadAppendsParsedList(before: string, current: seq<string>)
    requires NoJsOnlySpace(before)
    ensures ParseSlugList(LoadedText(before, current))
         == ParseSlugList(before) + ParseSlugList(Join(current, ", "))
  {
    var shown := Trim(before, JsSpace);
    if shown == "" {
      TrimEmptyIffAllSpace(before, JsSpace);
      LoadedBlank(before, current);
    } else if !EndsWithComma(shown) {
      LoadAfterEntry(before, current);
    } else {
      LoadAfterTrailingComma(before, current);
    }
  }

  /** For slugs as the saved list holds them, the save stores the old entries
      followed by exactly the current slugs. */
  lemma LoadedTextParses(before: string, current: seq<string>)
    requires forall k :: 0 <= k < |current| ==> SavedSlug(current[k])
    requires NoJsOnlySpace(before)
    ensures ParseSlugList(LoadedText(before, current)) == ParseSlugList(before) + current
  {
    LoadAppendsParsedList(before, current);
    SavedListRoundTrip(current);
  }

  /** The list does not end in a comma: the button inserts ", ". */
  lemma LoadAfterEntry(before: string, current: seq<string>)
    requires Trim(before, JsSpace) != "" && !EndsWithComma(Trim(before, JsSpace))
    ensures ParseSlugList(LoadedText(before, current))
         == ParseSlugList(before) + ParseSlugList(Join(current, ", "))
  {
    var slugs := Join(current, ", ");
    assert LoadedText(before, current) == before + ", " + slugs;
    assert before + ", " + slugs == before + "," + (" " + slugs) by {
      AppendAssoc(before, ",", " ");
      AppendAssoc(before + ",", " ", slugs);
    }
    ParseAppend(before, " " + slugs);
    ParsePadded(" ", slugs);
  }

  /** The list ends in a comma (and perhaps spaces): the button inserts " ". */
  lemma LoadAfterTrailingComma(before: string, current: seq<string>)
    requires NoJsOnlySpace(before)
    requires EndsWithComma(Trim(before, JsSpace))
    ensures ParseSlugList(LoadedText(before, current))
         == ParseSlugList(before) + ParseSlugList(Join(current, ", "))
  {
    var slugs := Join(current, ", ");
    var p, u := CutAfterLastComma(before);
    assert LoadedText(before, current) == before + " " + slugs;
    assert before + " " + slugs == p + "," + ((u + " ") + slugs) by {
      AppendAssoc(p + ",", u, " ");
      AppendAssoc(p + ",", u + " ", slugs);
    }
    ParseAppend(p, (u + " ") + slugs);
    ParsePadded(u + " ", slugs);
    ParseTrailingComma(p, u);
  }

  /** A plugin directory named "0" is listed as a current slug ... */
  lemma ZeroDirectoryListed()
    ensures CurrentSlugs(["0/zero.php"]) == ["0"]
  {
    assert "0/zero.php" == "0" + "/" + "zero.php";
    DirnameOfPluginFile("0", "zero.php");
    assert ["0/zero.php"][..0] == [];
  }

  /** ... but loading it and saving adds no entry: PHP's `array_filter`
      treats "0" as false. */
  lemma ZeroDirectoryDropped(before: string)
    requires NoJsOnlySpace(before)
    ensures ParseSlugList(LoadedText(before, ["0"])) == ParseSlugList(before)
  {
    LoadAppendsParsedList(before, ["0"]);
    assert Join(["0"], ", ") == "0";
    ZeroIsNoEntry();
    assert ParseSlugList(before) + [] == ParseSlugList(before);
  }

  lemma ZeroIsNoEntry()
    ensures ParseSlugList("0") == []
  {
    TrimOfTrimmed("0", PhpSpace);
    ParsePiece("0");
  }

  /** The `wpp_slugs` textarea of the list form. */
  class SlugTextarea {
    var value: string

    /** Rendered with the saved list joined by ", " (wp-packager.php:122). */
    constructor (saved: seq<string>)
      ensures value == Join(saved, ", ")
    {
      value := Join(saved, ", ");
    }

    /** The click handler of `#wpp-copy-current`. `confirmed` is the answer
        the user gives to the confirmation dialog, which is shown only when
        the textarea already holds something; `asked` says whether it was. */
    method LoadCurrentSlugs(current: seq<string>, confirmed: bool) returns (asked: bool)
      modifies this
      ensures asked <==> Trim(old(value), JsSpace) != ""
      ensures value == if asked && !confirmed then old(value) else LoadedText(old(value), current)
    {
      var slugs := Join(current, ", ");
      var shown := Trim(value, JsSpace);
      asked := shown != "";
      if asked {
        if confirmed {
          value := value + (if EndsWithComma(shown) then " " else ", ") + slugs;
        }
      } else {
        value := slugs;
      }
    }
  }
}
