/** String helpers shared by the server-side pieces of WP Packager: PHP's
    `implode`, prefix tests, `trim`/`rtrim` over a character set and the
    conventional `slug/slug.php` main-file path. */
module Text {

  datatype Option<+T> = None | Some(value: T)

  /** `strpos($s, $prefix) === 0` */
  predicate StartsWith(s: string, prefix: string)
  {
    |prefix| <= |s| && s[..|prefix|] == prefix
  }

  /** PHP `implode($sep, $parts)`. */
  function Join(parts: seq<string>, sep: string): string
  {
    if parts == [] then ""
    else if |parts| == 1 then parts[0]
    else parts[0] + sep + Join(parts[1..], sep)
  }

  /** Removes leading characters that belong to `ws`. */
  function TrimStart(s: string, ws: set<char>): (r: string)
    ensures |r| <= |s| && r == s[|s| - |r|..]
    ensures forall k :: 0 <= k < |s| - |r| ==> s[k] in ws
    ensures r != [] ==> r[0] !in ws
  {
    if s != [] && s[0] in ws then TrimStart(s[1..], ws) else s
  }

  /** Removes trailing characters that belong to `ws` (PHP `rtrim($s, $chars)`). */
  function TrimEnd(s: string, ws: set<char>): (r: string)
    ensures |r| <= |s| && r == s[..|r|]
    ensures forall k :: |r| <= k < |s| ==> s[k] in ws
    ensures r != [] ==> r[|r| - 1] !in ws
  {
    if s != [] && s[|s| - 1] in ws then TrimEnd(s[..|s| - 1], ws) else s
  }

  /** Removes characters of `ws` from both ends (PHP `trim`, JavaScript `String.prototype.trim`). */
  function Trim(s: string, ws: set<char>): (r: string)
    ensures r != [] ==> r[0] !in ws && r[|r| - 1] !in ws
    ensures forall c :: c in r ==> c in s
  {
    var e := TrimEnd(s, ws);
    var r := TrimStart(e, ws);
    assert forall c :: c in r ==> c in e;
    r
  }

  /** `Trim(s, ws)` is `s` with a run of `ws` characters cut from each end,
      and it neither starts nor ends with one: exactly PHP's `trim`. */
  lemma TrimInfix(s: string, ws: set<char>)
    ensures var r := Trim(s, ws);
            && (r != [] ==> r[0] !in ws && r[|r| - 1] !in ws)
            && exists i, j :: 0 <= i <= j <= |s| && r == s[i..j]
                 && (forall k :: 0 <= k < i ==> s[k] in ws) && (forall k :: j <= k < |s| ==> s[k] in ws)
  {
    var e := TrimEnd(s, ws);
    var r := TrimStart(e, ws);
    var i, j := |e| - |r|, |e|;
    assert e == s[..j] && r == e[i..];
    assert r == s[i..j];
  }

  /** The last character of a non-empty trimmed string is the last one that
      `rtrim` keeps, at the same index of the original. */
  lemma TrimLast(s: string, ws: set<char>)
    requires Trim(s, ws) != []
    ensures var n := |TrimEnd(s, ws)|;
            0 < n <= |s| && s[n - 1] == Trim(s, ws)[|Trim(s, ws)| - 1]
  {
    var t := TrimEnd(s, ws);
    var r := TrimStart(t, ws);
    assert r == t[|t| - |r|..];
    assert r[|r| - 1] == t[|t| - 1];
    assert t == s[..|t|];
  }

  /** Leading characters of `ws` make no difference to `Trim`. */
  lemma TrimPadding(pad: string, s: string, ws: set<char>)
    requires forall c :: c in pad ==> c in ws
    ensures Trim(pad + s, ws) == Trim(s, ws)
  {
    if forall c :: c in s ==> c in ws {
      TrimEmptyIffAllSpace(s, ws);
      TrimEmptyIffAllSpace(pad + s, ws);
    } else {
      TrimEndPadding(pad, s, ws);
      TrimStartPadding(pad, TrimEnd(s, ws), ws);
    }
  }

  lemma {:induction false} TrimEndPadding(pad: string, s: string, ws: set<char>)
    requires exists c :: c in s && c !in ws
    ensures TrimEnd(pad + s, ws) == pad + TrimEnd(s, ws)
  {
    var n := |s| - 1;
    if s[n] in ws {
      assert (pad + s)[..|pad + s| - 1] == pad + s[..n];
      assert s == s[..n] + [s[n]];
      TrimEndPadding(pad, s[..n], ws);
    }
  }

  /** Trimming a string that has no edge characters of `ws` changes nothing. */
  lemma TrimOfTrimmed(s: string, ws: set<char>)
    requires s != [] ==> s[0] !in ws && s[|s| - 1] !in ws
    ensures Trim(s, ws) == s
  {
  }

  /** Leading characters of `ws` do not survive `Trim`. */
  lemma {:induction false} TrimDropsLeading(pad: string, s: string, ws: set<char>)
    requires forall c :: c in pad ==> c in ws
    requires s != [] ==> s[|s| - 1] !in ws
    ensures Trim(pad + s, ws) == TrimStart(s, ws)
  {
    if s == [] {
      assert pad + s == pad;
      TrimStartOfSpace(pad, ws);
      TrimEndOfSpace(pad, ws);
    } else {
      assert TrimEnd(pad + s, ws) == pad + s;
      TrimStartPadding(pad, s, ws);
    }
  }

  lemma {:induction false} TrimStartPadding(pad: string, s: string, ws: set<char>)
    requires forall c :: c in pad ==> c in ws
    ensures TrimStart(pad + s, ws) == TrimStart(s, ws)
  {
    if pad != [] {
      assert (pad + s)[1..] == pad[1..] + s;
      TrimStartPadding(pad[1..], s, ws);
    } else {
      assert pad + s == s;
    }
  }

  lemma {:induction false} TrimStartOfSpace(s: string, ws: set<char>)
    requires forall c :: c in s ==> c in ws
    ensures TrimStart(s, ws) == ""
  {
    if s != [] {
      TrimStartOfSpace(s[1..], ws);
    }
  }

  lemma {:induction false} TrimEndOfSpace(s: string, ws: set<char>)
    requires forall c :: c in s ==> c in ws
    ensures TrimEnd(s, ws) == ""
  {
    if s != [] {
      TrimEndOfSpace(s[..|s| - 1], ws);
    }
  }

  /** A string trims to nothing exactly when every character of it is in `ws`. */
  lemma TrimEmptyIffAllSpace(s: string, ws: set<char>)
    ensures Trim(s, ws) == "" <==> forall c :: c in s ==> c in ws
  {
    if forall c :: c in s ==> c in ws {
      TrimEndOfSpace(s, ws);
    }
  }

  /** The main file WordPress expects for a plugin directory: `slug/slug.php`. */
  function ConventionalMainFile(slug: string): (path: string)
    ensures StartsWith(path, slug + "/")
    ensures path[|slug| + 1..] == slug + ".php"
    ensures |path| == 2 * |slug| + 5
  {
    slug + "/" + slug + ".php"
  }
}
