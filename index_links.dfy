/** fix_index_links.py: every `href="<folder>/"` of the course index that names a folder
    holding `*.html` pages is pointed at the alphabetically first of them. */
module IndexLinks {
  import opened Text
  import opened Listing
  import opened RelPaths

  // ---------------------------------------------------------------------------
  // `re.sub(r'href="([^"]+/)"', repl, s)`.

  /** The fixed start of every link the pattern matches. */
  function HrefOpen(): string {
    "href=\""
  }

  /** The pattern `href="([^"]+/)"` tried at the start of `s`: the end of the match, or
      none. `[^"]+` cannot pass a quote, so the value runs to the first quote after the
      opening one; the match needs at least two characters there, the last one `/`. */
  function LinkMatch(s: string): (r: Option<nat>)
    ensures r.Some? ==> 8 < r.value <= |s|
  {
    if |s| >= 6 && s[..6] == HrefOpen() then
      var q := IndexOfChar(s, '"', 6);
      if q.Some? && q.value >= 8 && s[q.value - 1] == '/' then Some(q.value + 1) else None
    else None
  }

  /** A match is exactly an opening, a quote-free value of two or more characters ending
      in `/`, and a closing quote. */
  lemma LinkMatchIff(s: string, e: nat)
    ensures LinkMatch(s) == Some(e) <==>
      8 < e <= |s| && s[..6] == HrefOpen() && s[e - 1] == '"' && s[e - 2] == '/'
      && forall k :: 6 <= k < e - 1 ==> s[k] != '"'
  {
    if |s| >= 6 {
      IndexOfCharSpec(s, '"', 6);
    }
    if 8 < e <= |s| && s[..6] == HrefOpen() && s[e - 1] == '"' && s[e - 2] == '/'
      && forall k :: 6 <= k < e - 1 ==> s[k] != '"'
    {
      IndexOfCharIs(s, '"', 6, e - 1);
    }
  }

  /** What replaces a match, given its group `([^"]+/)`. */
  type Replacer = string -> string

  /** `re.sub(pattern, repl, s)`: the matches are found from left to right without
      overlapping; a match is replaced by `repl` of its group and the search goes on after
      it, otherwise one character is kept and the search goes on at the next one. */
  function Sub(repl: Replacer, s: string): string
    decreases |s|
  {
    if |s| == 0 then ""
    else
      match LinkMatch(s)
      case Some(e) => repl(s[6..e - 1]) + Sub(repl, s[e..])
      case None => [s[0]] + Sub(repl, s[1..])
  }

  // ---------------------------------------------------------------------------
  // `replace_link` and `fix_index_html`.

  /** The folders the links may name: the text of a folder path, with its trailing
      slashes removed, mapped to the names of that folder's entries. A path not in the map
      names nothing that exists, or something that is not a folder. */
  type Folders = map<string, seq<string>>

  /** `str.rstrip('/')`. */
  function RStripSlash(v: string): (r: string)
    ensures |r| <= |v| && r == v[..|r|]
    ensures forall k :: |r| <= k < |v| ==> v[k] == '/'
    ensures |r| == 0 || r[|r| - 1] != '/'
  {
    if |v| == 0 || v[|v| - 1] != '/' then v else RStripSlash(v[..|v| - 1])
  }

  /** `replace_link` for a match whose group is `v`. */
  function ReplaceLink(dirs: Folders, v: string): string {
    var folderPath := RStripSlash(v);
    if folderPath in dirs && FirstHtml(dirs[folderPath]).Some? then
      HrefOpen() + folderPath + "/" + FirstHtml(dirs[folderPath]).value + "\""
    else HrefOpen() + v + "\""
  }

  /** `replace_link` as the function `re.sub` is given. */
  function LinkFixer(dirs: Folders): Replacer {
    v => ReplaceLink(dirs, v)
  }

  /** The link keeps its text unless the folder exists and holds a page; then it names the
      folder without its trailing slashes, followed by the smallest page name. */
  lemma ReplaceLinkSpec(dirs: Folders, v: string)
    ensures var fp := RStripSlash(v);
      if fp in dirs && (exists n :: n in dirs[fp] && IsHtmlName(n)) then
        exists h :: h in dirs[fp] && IsHtmlName(h)
          && (forall n :: n in dirs[fp] && IsHtmlName(n) ==> !LexLess(n, h))
          && ReplaceLink(dirs, v) == HrefOpen() + fp + "/" + h + "\""
      else ReplaceLink(dirs, v) == HrefOpen() + v + "\""
  {
    var fp := RStripSlash(v);
    if fp in dirs {
      FirstHtmlIsSmallest(dirs[fp]);
      if FirstHtml(dirs[fp]).Some? {
        var h := FirstHtml(dirs[fp]).value;
        assert ReplaceLink(dirs, v) == HrefOpen() + fp + "/" + h + "\"";
      }
    }
  }

  /** `fix_index_html`: the index page is read, its links are fixed in one `re.sub` pass
      and the page is written back; every other page is left as it was. An index that
      cannot be read, or cannot be opened for writing (`ws` holds the pages that can),
      changes nothing. */
  method FixIndexHtml(ws: set<Path>, files: map<Path, string>, indexFile: Path, dirs: Folders)
    returns (ok: bool, after: map<Path, string>)
    ensures ok <==> indexFile in files && indexFile in ws
    ensures ok ==> after == files[indexFile := Sub(LinkFixer(dirs), files[indexFile])]
    ensures !ok ==> after == files
  {
    if indexFile !in files {
      return false, files;
    }
    var content := files[indexFile];
    var newContent := Sub(LinkFixer(dirs), content);
    if indexFile !in ws {
      return false, files;
    }
    after := files[indexFile := newContent];
    ok := true;
  }

  // ---------------------------------------------------------------------------
  // Running the fix twice.

  predicate NoQuote(s: string) {
    forall k :: 0 <= k < |s| ==> s[k] != '"'
  }

  /** Every replacement starts like a link. */
  ghost predicate StartsLink(repl: Replacer) {
    forall v :: |repl(v)| >= 6 && repl(v)[..6] == HrefOpen()
  }

  /** A link that holds no match at any position, whatever follows it: an opening, a
      quote-free value ending in `.html`, and a closing quote. */
  predicate Inert(x: string) {
    |x| >= 12 && x[..6] == HrefOpen() && x[|x| - 6..] == ".html\"" && NoQuote(x[6..|x| - 1])
  }

  /** Each quote-free group is either written back as it was or turned into an inert link. */
  ghost predicate KeepsOrSettles(repl: Replacer) {
    forall v :: NoQuote(v) ==> repl(v) == HrefOpen() + v + "\"" || Inert(repl(v))
  }

  /** Whether `LinkMatch` finds a match at the start of `a` is decided by the first quote
      after the opening: two texts that agree up to a quote at or after index 6 agree on
      the match. */
  lemma LinkMatchPrefix(a: string, b: string, n: nat)
    requires 6 < n <= |a| && n <= |b| && a[..n] == b[..n] && a[n - 1] == '"'
    ensures LinkMatch(a) == LinkMatch(b)
  {
    assert a[..6] == a[..n][..6] && b[..6] == b[..n][..6];
    IndexOfCharSpec(a, '"', 6);
    var q := IndexOfChar(a, '"', 6);
    assert q.Some? && q.value <= n - 1;
    assert a[q.value] == a[..n][q.value] == b[q.value];
    forall j | 6 <= j < q.value ensures b[j] != '"' {
      assert b[j] == a[..n][j];
    }
    IndexOfCharIs(b, '"', 6, q.value);
    assert a[q.value - 1] == a[..n][q.value - 1] == b[q.value - 1];
  }

  /** A match at the start is replaced by a text that begins with the same opening. */
  lemma SubOpening(repl: Replacer, t: string, e: nat)
    requires StartsLink(repl) && LinkMatch(t) == Some(e)
    ensures 6 <= |t| && 6 <= |Sub(repl, t)| && t[5] == '"' && Sub(repl, t)[..6] == t[..6]
  {
    LinkMatchIff(t, e);
    SubMatch(repl, t, e);
    var r := repl(t[6..e - 1]);
    assert Sub(repl, t)[..6] == r[..6];
  }

  /** Putting the same character in front of two texts that agree on `n` characters. */
  lemma ConsPrefix(c: char, a: string, b: string, n: nat)
    requires n <= |a| && n <= |b| && a[..n] == b[..n]
    ensures ([c] + a)[..n + 1] == ([c] + b)[..n + 1]
  {
    assert ([c] + a)[..n + 1] == [c] + a[..n];
    assert ([c] + b)[..n + 1] == [c] + b[..n];
  }

  /** The result keeps the original up to and including the quote of the first match's
      opening (found at `g`), or is the original when nothing matches. */
  lemma {:induction false} SubPrefix(repl: Replacer, t: string) returns (g: Option<nat>)
    requires StartsLink(repl)
    ensures g.None? ==> Sub(repl, t) == t
    ensures g.Some? ==> g.value + 6 <= |t| && g.value + 6 <= |Sub(repl, t)| && t[g.value + 5] == '"'
                        && Sub(repl, t)[..g.value + 6] == t[..g.value + 6]
    decreases |t|
  {
    if |t| == 0 {
      return None;
    }
    match LinkMatch(t)
    case Some(e) =>
      SubOpening(repl, t, e);
      g := Some(0);
    case None =>
      SubNoMatch(repl, t);
      var h := SubPrefix(repl, t[1..]);
      assert t == [t[0]] + t[1..];
      if h.None? {
        g := None;
      } else {
        ConsPrefix(t[0], Sub(repl, t[1..]), t[1..], h.value + 6);
        g := Some(h.value + 1);
      }
  }

  /** A character kept because no match starts there still starts none once the rest
      has been rewritten. */
  lemma NoMatchKept(repl: Replacer, s: string)
    requires StartsLink(repl)
    requires |s| > 0 && LinkMatch(s).None?
    ensures LinkMatch([s[0]] + Sub(repl, s[1..])).None?
  {
    var t := s[1..];
    var u := [s[0]] + Sub(repl, t);
    var g := SubPrefix(repl, t);
    if g.None? {
      assert u == s;
    } else {
      var n := g.value + 7;
      assert u[..n] == s[..n] by {
        assert s == [s[0]] + t;
        assert u[..n] == [s[0]] + Sub(repl, t)[..n - 1];
        assert s[..n] == [s[0]] + t[..n - 1];
      }
      LinkMatchPrefix(s, u, n);
    }
  }

  /** A match written back as it was is found again, with the same end, whatever follows. */
  lemma KeptMatch(s: string, e: nat, w: string)
    requires LinkMatch(s) == Some(e)
    ensures LinkMatch(s[..e] + w) == Some(e)
  {
    LinkMatchIff(s, e);
    var u := s[..e] + w;
    assert u[..e] == s[..e];
    LinkMatchPrefix(s, u, e);
  }

  /** No match starts inside an inert link, at any position `k`. */
  lemma InertNoMatch(x: string, w: string, k: nat)
    requires Inert(x) && k < |x|
    ensures LinkMatch((x + w)[k..]).None?
  {
    var u := (x + w)[k..];
    var n := |x|;
    assert x[n - 6..][0] == '.' && x[n - 6..][1] == 'h' && x[n - 6..][2] == 't';
    assert forall j :: 6 <= j < n - 1 ==> x[j] == x[6..n - 1][j - 6];
    if k == 0 {
      assert u[..n] == x;
      assert u[n - 1] == '"' && u[n - 2] == x[n - 6..][4];
      assert forall j :: 6 <= j < n - 1 ==> u[j] != '"';
      if LinkMatch(u).Some? {
        LinkMatchIff(u, LinkMatch(u).value);
      }
    } else if k + 5 < n - 1 {
      assert u[5] == x[k + 5];
    } else if k + 5 == n - 1 {
      assert u[0] == x[n - 6];
    } else if k == n - 5 {
      assert u[1] == x[n - 4];
    } else {
      assert u[0] == x[n - 6..][k - (n - 6)];
    }
  }

  /** The scan keeps the first character when no match starts there. */
  lemma SubNoMatch(repl: Replacer, s: string)
    requires |s| > 0 && LinkMatch(s).None?
    ensures Sub(repl, s) == [s[0]] + Sub(repl, s[1..])
  {
  }

  /** No match starts at any index of `[k, n)` of `z`. */
  predicate NoMatchBetween(z: string, k: nat, n: nat)
    requires k <= n <= |z|
    decreases n - k
  {
    k == n || (LinkMatch(z[k..]).None? && NoMatchBetween(z, k + 1, n))
  }

  lemma {:induction false} NoMatchBetweenIntro(z: string, k: nat, n: nat)
    requires k <= n <= |z|
    requires forall j :: k <= j < n ==> LinkMatch(z[j..]).None?
    ensures NoMatchBetween(z, k, n)
    decreases n - k
  {
    if k < n {
      NoMatchBetweenIntro(z, k + 1, n);
    }
  }

  /** Where no match starts at any index of `[k, n)`, the scan copies those characters. */
  lemma {:induction false} SubSkip(repl: Replacer, z: string, k: nat, n: nat)
    requires k <= n <= |z| && NoMatchBetween(z, k, n)
    ensures Sub(repl, z[k..]) == z[k..n] + Sub(repl, z[n..])
    decreases n - k
  {
    if k < n {
      var t := z[k..];
      SubNoMatch(repl, t);
      assert t[1..] == z[k + 1..];
      SubSkip(repl, z, k + 1, n);
      assert z[k..n] == [t[0]] + z[k + 1..n];
    } else {
      assert z[k..n] == [];
    }
  }

  /** A matched link is its opening, its quote-free group and its closing quote. */
  lemma MatchedLink(s: string, e: nat)
    requires LinkMatch(s) == Some(e)
    ensures NoQuote(s[6..e - 1]) && s[..e] == HrefOpen() + s[6..e - 1] + "\""
  {
    LinkMatchIff(s, e);
    assert s[..e] == s[..6] + s[6..e - 1] + [s[e - 1]];
  }

  /** The scan replaces a match starting at the first character. */
  lemma SubMatch(repl: Replacer, s: string, e: nat)
    requires LinkMatch(s) == Some(e)
    ensures Sub(repl, s) == repl(s[6..e - 1]) + Sub(repl, s[e..])
  {
  }

  /** A link written back as it was, followed by a text the substitution keeps, is kept. */
  lemma SubKeptLink(repl: Replacer, s: string, e: nat, w: string)
    requires LinkMatch(s) == Some(e) && repl(s[6..e - 1]) == s[..e] && Sub(repl, w) == w
    ensures Sub(repl, s[..e] + w) == s[..e] + w
  {
    var u := s[..e] + w;
    KeptMatch(s, e, w);
    SubMatch(repl, u, e);
    assert u[6..e - 1] == s[6..e - 1];
    assert u[e..] == w;
  }

  /** An inert link followed by a text the substitution keeps is kept. */
  lemma SubInertLink(repl: Replacer, x: string, w: string)
    requires Inert(x) && Sub(repl, w) == w
    ensures Sub(repl, x + w) == x + w
  {
    var z := x + w;
    forall j | 0 <= j < |x| ensures LinkMatch(z[j..]).None? {
      InertNoMatch(x, w, j);
    }
    NoMatchBetweenIntro(z, 0, |x|);
    SubSkip(repl, z, 0, |x|);
    assert z[0..] == z && z[0..|x|] == x && z[|x|..] == w;
  }

  /** Running the substitution on its own output changes nothing when every group is
      either kept or settled into an inert link. */
  lemma {:induction false} SubIdempotent(repl: Replacer, s: string)
    requires StartsLink(repl) && KeepsOrSettles(repl)
    ensures Sub(repl, Sub(repl, s)) == Sub(repl, s)
    decreases |s|
  {
    if |s| > 0 {
      match LinkMatch(s)
      case None =>
        var rest := Sub(repl, s[1..]);
        SubNoMatch(repl, s);
        NoMatchKept(repl, s);
        var u := [s[0]] + rest;
        SubNoMatch(repl, u);
        assert u[1..] == rest;
        SubIdempotent(repl, s[1..]);
      case Some(e) =>
        var v := s[6..e - 1];
        var rest := Sub(repl, s[e..]);
        SubMatch(repl, s, e);
        SubIdempotent(repl, s[e..]);
        MatchedLink(s, e);
        var r := repl(v);
        assert r == HrefOpen() + v + "\"" || Inert(r);
        if Inert(r) {
          SubInertLink(repl, r, rest);
        } else {
          SubKeptLink(repl, s, e, rest);
        }
    }
  }

  /** No page name (a name ending in `.html`) of a listed folder holds a quote; other
      entries may. */
  predicate QuoteFree(dirs: Folders) {
    forall fp, n :: fp in dirs && n in dirs[fp] && IsHtmlName(n) ==> NoQuote(n)
  }

  /** The link to page `h` of a folder `fp`, neither holding a quote, is inert. */
  lemma JoinedLinkInert(fp: string, h: string)
    requires NoQuote(fp) && NoQuote(h) && IsHtmlName(h)
    ensures Inert(HrefOpen() + fp + "/" + h + "\"")
  {
    var x := HrefOpen() + fp + "/" + h + "\"";
    var g := fp + "/" + h;
    assert x[6..|x| - 1] == g;
    assert NoQuote(g) by {
      forall k | 0 <= k < |g| ensures g[k] != '"' {
        if k < |fp| {
          assert g[k] == fp[k];
        } else if k > |fp| {
          assert g[k] == h[k - |fp| - 1];
        }
      }
    }
    assert x[|x| - 6..] == h[|h| - 5..] + "\"";
  }

  /** A quote-free group is written back as it was, or turned into an inert link. */
  lemma ReplaceLinkSettles(dirs: Folders, v: string)
    requires QuoteFree(dirs) && NoQuote(v)
    ensures ReplaceLink(dirs, v) == HrefOpen() + v + "\"" || Inert(ReplaceLink(dirs, v))
  {
    var fp := RStripSlash(v);
    if fp in dirs && FirstHtml(dirs[fp]).Some? {
      var h := FirstHtml(dirs[fp]).value;
      FirstHtmlIsSmallest(dirs[fp]);
      assert NoQuote(h);
      assert NoQuote(fp) by {
        forall k | 0 <= k < |fp| ensures fp[k] != '"' {
          assert fp[k] == v[k];
        }
      }
      JoinedLinkInert(fp, h);
    }
  }

  /** `replace_link` keeps a quote-free group or settles it into an inert link. */
  lemma LinkFixerSettles(dirs: Folders)
    requires QuoteFree(dirs)
    ensures StartsLink(LinkFixer(dirs)) && KeepsOrSettles(LinkFixer(dirs))
  {
    forall v ensures |LinkFixer(dirs)(v)| >= 6 && LinkFixer(dirs)(v)[..6] == HrefOpen() {
    }
    forall v | NoQuote(v)
      ensures LinkFixer(dirs)(v) == HrefOpen() + v + "\"" || Inert(LinkFixer(dirs)(v))
    {
      ReplaceLinkSettles(dirs, v);
    }
  }

  /** Running the script on the index it has already fixed changes nothing, as long as no
      page name holds a quote: every rewritten link now ends in `.html"`, and every link
      left alone is left alone again. */
  lemma FixIndexIdempotent(dirs: Folders, s: string)
    requires QuoteFree(dirs)
    ensures Sub(LinkFixer(dirs), Sub(LinkFixer(dirs), s)) == Sub(LinkFixer(dirs), s)
  {
    LinkFixerSettles(dirs);
    SubIdempotent(LinkFixer(dirs), s);
  }

  /** Running `fix_index_html` a second time leaves every page as the first run left it. */
  lemma FixIndexTwice(files: map<Path, string>, indexFile: Path, dirs: Folders)
    requires QuoteFree(dirs) && indexFile in files
    ensures var once := files[indexFile := Sub(LinkFixer(dirs), files[indexFile])];
      once[indexFile := Sub(LinkFixer(dirs), once[indexFile])] == once
  {
    FixIndexIdempotent(dirs, files[indexFile]);
  }

  /** A folder `f` whose only page is named `".html`, so its name holds a quote. */
  function QuotedPageFolders(): (dirs: Folders)
    ensures !QuoteFree(dirs)
  {
    var page := "\".html";
    assert "f" in map["f" := [page]] && IsHtmlName(page) && page[0] == '"';
    map["f" := [page]]
  }

  /** With those folders, `replace_link` turns the group `f/` into `href="f/".html"`. */
  lemma QuotedPageLink()
    ensures ReplaceLink(QuotedPageFolders(), "f/") == "href=\"f/\".html\""
  {
    var page := "\".html";
    assert IsHtmlName(page) && HtmlNames([page]) == [page];
    assert FirstHtml(QuotedPageFolders()["f"]) == Some(page);
    assert RStripSlash("f/") == "f";
  }

  /** With those folders, one pass turns `href="f/"` into `href="f/".html"`. */
  lemma QuotedPageFirstPass()
    ensures Sub(LinkFixer(QuotedPageFolders()), "href=\"f/\"") == "href=\"f/\".html\""
  {
    var dirs := QuotedPageFolders();
    var s := "href=\"f/\"";
    QuotedPageLink();
    assert s[..6] == HrefOpen() && IndexOfChar(s, '"', 6) == Some(8);
    assert LinkMatch(s) == Some(9) && s[6..8] == "f/";
    assert Sub(LinkFixer(dirs), s[9..]) == "";
  }

  /** The pattern matches the first nine characters of that link again, so a second pass
      writes more than it read. */
  lemma QuotedPageSecondPass()
    ensures |Sub(LinkFixer(QuotedPageFolders()), "href=\"f/\".html\"")| > 15
  {
    var dirs := QuotedPageFolders();
    var once := "href=\"f/\".html\"";
    var rest := ".html\"";
    assert once[..6] == HrefOpen() && IndexOfChar(once, '"', 6) == Some(8);
    assert LinkMatch(once) == Some(9) && once[6..8] == "f/" && once[9..] == rest;
    QuotedPageLink();
    assert LinkMatch(rest) == None;
    assert |Sub(LinkFixer(dirs), rest)| >= 1;
  }

  /** The condition on page names cannot be dropped: with a page named `".html`, running the
      fix a second time changes the index again. */
  lemma QuotedPageNameUnsettled()
    ensures var dirs := QuotedPageFolders(); var s := "href=\"f/\"";
      !QuoteFree(dirs) && Sub(LinkFixer(dirs), Sub(LinkFixer(dirs), s)) != Sub(LinkFixer(dirs), s)
  {
    QuotedPageFirstPass();
    QuotedPageSecondPass();
  }

  /** A text with no `href="` in it is written back unchanged. */
  lemma {:induction false} SubNoHref(repl: Replacer, s: string)
    requires !Contains(s, HrefOpen())
    ensures Sub(repl, s) == s
    decreases |s|
  {
    if |s| > 0 {
      if LinkMatch(s).Some? {
        assert OccursAt(s, HrefOpen(), 0);
      }
      assert !Contains(s[1..], HrefOpen()) by {
        if Contains(s[1..], HrefOpen()) {
          var i: nat :| i <= |s[1..]| && OccursAt(s[1..], HrefOpen(), i);
          assert s[i + 1..i + 1 + 6] == s[1..][i..i + 6];
          assert OccursAt(s, HrefOpen(), i + 1);
        }
      }
      SubNoHref(repl, s[1..]);
    }
  }
}
