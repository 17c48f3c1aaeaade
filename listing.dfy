/** The course tree as the scripts see it through `Path.iterdir()` and
    `Path.glob("*.html")`, and the choice of a folder's first and last page. */
module Listing {
  import opened Text

  /** A directory entry; a directory keeps its entries in enumeration order. */
  datatype Entry = File(name: string) | Dir(name: string, entries: seq<Entry>)

  function Children(e: Entry): seq<Entry> {
    if e.Dir? then e.entries else []
  }

  /** `[d for d in folder.iterdir() if d.is_dir()]`, in enumeration order. */
  function Subdirs(es: seq<Entry>): (ds: seq<Entry>)
    ensures forall d :: d in ds ==> d in es && d.Dir?
    ensures forall e :: e in es && e.Dir? ==> e in ds
  {
    if |es| == 0 then []
    else Subdirs(es[..|es| - 1]) + (if es[|es| - 1].Dir? then [es[|es| - 1]] else [])
  }

  /** Listing one more entry appends it when it is a folder. */
  lemma SubdirsSnoc(s: seq<Entry>, x: Entry)
    ensures Subdirs(s + [x]) == Subdirs(s) + if x.Dir? then [x] else []
  {
    assert (s + [x])[..|s|] == s;
  }

  /** The listing keeps enumeration order: listing two consecutive runs of entries gives the
      first run's folders followed by the second's. */
  lemma {:induction false} SubdirsAppend(a: seq<Entry>, b: seq<Entry>)
    ensures Subdirs(a + b) == Subdirs(a) + Subdirs(b)
  {
    if |b| == 0 {
      assert a + b == a;
    } else {
      var init, last := b[..|b| - 1], b[|b| - 1];
      assert b == init + [last];
      SubdirsAppend(a, init);
      SubdirsAppendStep(a, init, last);
    }
  }

  lemma SubdirsAppendStep(a: seq<Entry>, init: seq<Entry>, last: Entry)
    requires Subdirs(a + init) == Subdirs(a) + Subdirs(init)
    ensures Subdirs(a + (init + [last])) == Subdirs(a) + Subdirs(init + [last])
  {
    ConcatAssoc(a, init, [last]);
    SubdirsSnoc(a + init, last);
    SubdirsSnoc(init, last);
    ConcatAssoc(Subdirs(a), Subdirs(init), if last.Dir? then [last] else []);
  }

  lemma ConcatAssoc<T>(x: seq<T>, y: seq<T>, z: seq<T>)
    ensures (x + y) + z == x + (y + z)
  {
  }

  /** One entry lists as itself exactly when it is a folder. */
  lemma SubdirsOne(e: Entry)
    ensures Subdirs([e]) == if e.Dir? then [e] else []
  {
    assert [e][..0] == [];
  }

  function Names(es: seq<Entry>): (ns: seq<string>)
    ensures |ns| == |es| && forall i :: 0 <= i < |es| ==> ns[i] == es[i].name
  {
    seq(|es|, i requires 0 <= i < |es| => es[i].name)
  }

  /** The names `*.html` matches: any entry, file or directory, whose name ends in `.html`. */
  predicate IsHtmlName(n: string) {
    |n| >= 5 && n[|n| - 5..] == ".html"
  }

  /** The names `glob("*.html")` yields, in enumeration order. */
  function HtmlNames(ns: seq<string>): (hs: seq<string>)
    ensures |hs| <= |ns|
  {
    if |ns| == 0 then []
    else HtmlNames(ns[..|ns| - 1]) + (if IsHtmlName(ns[|ns| - 1]) then [ns[|ns| - 1]] else [])
  }

  /** `glob("*.html")` yields exactly the names of the folder that end in `.html`. */
  lemma {:induction false} HtmlNamesMembers(ns: seq<string>)
    ensures forall h :: h in HtmlNames(ns) <==> h in ns && IsHtmlName(h)
  {
    if |ns| > 0 {
      var init := ns[..|ns| - 1];
      assert ns == init + [ns[|ns| - 1]];
      HtmlNamesMembers(init);
    }
  }

  /** Smallest name of a non-empty list, in Python's string order. */
  function MinName(ns: seq<string>): string
    requires |ns| > 0
  {
    if |ns| == 1 then ns[0]
    else
      var m := MinName(ns[..|ns| - 1]);
      if LexLess(ns[|ns| - 1], m) then ns[|ns| - 1] else m
  }

  /** Largest name of a non-empty list, in Python's string order. */
  function MaxName(ns: seq<string>): string
    requires |ns| > 0
  {
    if |ns| == 1 then ns[0]
    else
      var m := MaxName(ns[..|ns| - 1]);
      if LexLess(m, ns[|ns| - 1]) then ns[|ns| - 1] else m
  }

  lemma {:induction false} MinNameIsLeast(ns: seq<string>)
    requires |ns| > 0
    ensures MinName(ns) in ns
    ensures forall n :: n in ns ==> !LexLess(n, MinName(ns))
  {
    if |ns| > 1 {
      var init, last := ns[..|ns| - 1], ns[|ns| - 1];
      assert ns == init + [last];
      MinNameIsLeast(init);
      var m := MinName(init);
      if LexLess(last, m) {
        forall n | n in ns ensures !LexLess(n, last) {
          if n == last {
            LexLessIrreflexive(last);
          } else if LexLess(n, last) {
            LexLessTransitive(n, last, m);
          }
        }
      }
    } else {
      LexLessIrreflexive(ns[0]);
    }
  }

  lemma {:induction false} MaxNameIsGreatest(ns: seq<string>)
    requires |ns| > 0
    ensures MaxName(ns) in ns
    ensures forall n :: n in ns ==> !LexLess(MaxName(ns), n)
  {
    if |ns| > 1 {
      var init, last := ns[..|ns| - 1], ns[|ns| - 1];
      assert ns == init + [last];
      MaxNameIsGreatest(init);
      var m := MaxName(init);
      if LexLess(m, last) {
        forall n | n in ns ensures !LexLess(last, n) {
          if n == last {
            LexLessIrreflexive(last);
          } else if LexLess(last, n) {
            LexLessTransitive(m, last, n);
          }
        }
      }
    } else {
      LexLessIrreflexive(ns[0]);
    }
  }

  /** `get_first_html_file`: the smallest `*.html` name of a folder, or none. */
  function FirstHtml(ns: seq<string>): Option<string> {
    var hs := HtmlNames(ns);
    if |hs| == 0 then None else Some(MinName(hs))
  }

  /** `get_last_html_file`: the largest `*.html` name of a folder, or none. */
  function LastHtml(ns: seq<string>): Option<string> {
    var hs := HtmlNames(ns);
    if |hs| == 0 then None else Some(MaxName(hs))
  }

  lemma FirstHtmlIsSmallest(ns: seq<string>)
    ensures FirstHtml(ns).None? <==> forall n :: n in ns ==> !IsHtmlName(n)
    ensures FirstHtml(ns).Some? ==> FirstHtml(ns).value in ns && IsHtmlName(FirstHtml(ns).value)
    ensures FirstHtml(ns).Some? ==>
      forall n :: n in ns && IsHtmlName(n) ==> !LexLess(n, FirstHtml(ns).value)
  {
    var hs := HtmlNames(ns);
    HtmlNamesMembers(ns);
    if |hs| > 0 {
      MinNameIsLeast(hs);
    } else {
      forall n | n in ns ensures !IsHtmlName(n) {
        assert n !in hs;
      }
    }
  }

  lemma LastHtmlIsLargest(ns: seq<string>)
    ensures LastHtml(ns).None? <==> forall n :: n in ns ==> !IsHtmlName(n)
    ensures LastHtml(ns).Some? ==> LastHtml(ns).value in ns && IsHtmlName(LastHtml(ns).value)
    ensures LastHtml(ns).Some? ==>
      forall n :: n in ns && IsHtmlName(n) ==> !LexLess(LastHtml(ns).value, n)
  {
    var hs := HtmlNames(ns);
    HtmlNamesMembers(ns);
    if |hs| > 0 {
      MaxNameIsGreatest(hs);
    } else {
      forall n | n in ns ensures !IsHtmlName(n) {
        assert n !in hs;
      }
    }
  }

  /** `list(folder.glob("*.html"))`: collects the matching names in enumeration order. */
  method GlobHtml(ns: seq<string>) returns (hs: seq<string>)
    ensures hs == HtmlNames(ns)
  {
    hs := [];
    for i := 0 to |ns|
      invariant hs == HtmlNames(ns[..i])
    {
      assert ns[..i + 1][..i] == ns[..i];
      if IsHtmlName(ns[i]) {
        hs := hs + [ns[i]];
      }
    }
    assert ns[..|ns|] == ns;
  }

  /** `get_first_html_file`: the source sorts the matches and takes the first; the
      loop keeps the smallest seen so far, which is the same name. */
  method GetFirstHtmlFile(ns: seq<string>) returns (r: Option<string>)
    ensures r == FirstHtml(ns)
  {
    var hs := GlobHtml(ns);
    if |hs| == 0 {
      return None;
    }
    var best := hs[0];
    for i := 1 to |hs|
      invariant best == MinName(hs[..i])
    {
      assert hs[..i + 1][..i] == hs[..i];
      if LexLess(hs[i], best) {
        best := hs[i];
      }
    }
    assert hs[..|hs|] == hs;
    r := Some(best);
  }

  /** `get_last_html_file`: the largest match, found the same way. */
  method GetLastHtmlFile(ns: seq<string>) returns (r: Option<string>)
    ensures r == LastHtml(ns)
  {
    var hs := GlobHtml(ns);
    if |hs| == 0 {
      return None;
    }
    var best := hs[0];
    for i := 1 to |hs|
      invariant best == MaxName(hs[..i])
    {
      assert hs[..i + 1][..i] == hs[..i];
      if LexLess(best, hs[i]) {
        best := hs[i];
      }
    }
    assert hs[..|hs|] == hs;
    r := Some(best);
  }
}
