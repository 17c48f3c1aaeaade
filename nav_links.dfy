/** The navigation linker of add_navigation.py: which pages each page links to, and the
    run that rewrites every page of every lesson folder of every pattern folder. */
module NavLinks {
  import opened Text
  import opened Listing
  import opened FolderOrder
  import opened RelPaths
  import opened NavBlock

  // ---------------------------------------------------------------------------
  // Where each page links to.

  /** The lesson folders of the pattern folder `p` under the course root `base`. */
  function Lessons(base: string, p: Entry): seq<Entry> {
    SortedSubfolders(base + "/" + p.name, Children(p))
  }

  /** The page `name` of lesson `l` of pattern `p`, if there is one. */
  function PageOf(p: Entry, l: Entry, name: Option<string>): (r: Option<Path>)
    ensures r.Some? <==> name.Some?
    ensures r.Some? ==> r.value == [p.name, l.name, name.value]
  {
    if name.Some? then Some([p.name, l.name, name.value]) else None
  }

  /** The alphabetically first page of lesson `l`. */
  function FirstPage(p: Entry, l: Entry): Option<Path> {
    PageOf(p, l, FirstHtml(Names(Children(l))))
  }

  /** The alphabetically last page of lesson `l`. */
  function LastPage(p: Entry, l: Entry): Option<Path> {
    PageOf(p, l, LastHtml(Names(Children(l))))
  }

  /** The target in an adjacent pattern folder and that folder's display name. */
  datatype Hop = Hop(page: Option<Path>, name: Option<string>)

  /** `next_pattern_html` and `next_pattern_name`: the first page of the first lesson of
      the next pattern folder. The name is set whenever that folder has lessons. */
  function NextHop(base: string, next: Option<Entry>): Hop {
    if next.None? then Hop(None, None)
    else
      var ls := Lessons(base, next.value);
      if |ls| == 0 then Hop(None, None)
      else Hop(FirstPage(next.value, ls[0]), Some(CleanFolderName(next.value.name)))
  }

  /** `prev_pattern_html` and `prev_pattern_name`: the last page of the last lesson of
      the previous pattern folder. */
  function PrevHop(base: string, prev: Option<Entry>): Hop {
    if prev.None? then Hop(None, None)
    else
      var ls := Lessons(base, prev.value);
      if |ls| == 0 then Hop(None, None)
      else Hop(LastPage(prev.value, ls[|ls| - 1]), Some(CleanFolderName(prev.value.name)))
  }

  /** The previous pattern's hop once its lessons `ls` are known. */
  lemma PrevHopOf(base: string, pp: Entry, ls: seq<Entry>, page: Option<Path>)
    requires ls == Lessons(base, pp) && |ls| > 0 && page == LastPage(pp, ls[|ls| - 1])
    ensures PrevHop(base, Some(pp)) == Hop(page, Some(CleanFolderName(pp.name)))
  {
  }

  /** The arguments every page of lesson `ls[i]` of pattern `p` is rewritten with. Both
      neighbours link to their FIRST page; a missing neighbour page, at the edge of the
      pattern or not, gives way to the adjacent pattern's page. */
  function LessonLinks(p: Entry, ls: seq<Entry>, i: nat, nh: Hop, ph: Hop): Links
    requires i < |ls|
  {
    var prevHtml := if i > 0 then FirstPage(p, ls[i - 1]) else None;
    var nextHtml := if i < |ls| - 1 then FirstPage(p, ls[i + 1]) else None;
    var prevName := if i > 0 then Some(CleanFolderName(ls[i - 1].name)) else None;
    var nextName := if i < |ls| - 1 then Some(CleanFolderName(ls[i + 1].name)) else None;
    var useNext := nextHtml.None? && nh.page.Some?;
    var usePrev := prevHtml.None? && ph.page.Some?;
    Links(prevHtml, nextHtml, prevName, nextName,
          if useNext then nh.page else None, if useNext then nh.name else None,
          if usePrev then ph.page else None, if usePrev then ph.name else None)
  }

  /** A lesson's first page is its smallest `*.html` match, and there is none only when
      the lesson has no such match. */
  lemma FirstPageSpec(p: Entry, l: Entry)
    ensures FirstPage(p, l).None? <==> forall n :: n in Names(Children(l)) ==> !IsHtmlName(n)
    ensures FirstPage(p, l).Some? ==>
      var f := FirstPage(p, l).value;
      |f| == 3 && f[0] == p.name && f[1] == l.name && f[2] in Names(Children(l)) && IsHtmlName(f[2])
      && forall n :: n in Names(Children(l)) && IsHtmlName(n) ==> !LexLess(n, f[2])
  {
    FirstHtmlIsSmallest(Names(Children(l)));
  }

  /** A lesson's last page is its largest `*.html` match, and there is none only when the
      lesson has no such match. */
  lemma LastPageSpec(p: Entry, l: Entry)
    ensures LastPage(p, l).None? <==> forall n :: n in Names(Children(l)) ==> !IsHtmlName(n)
    ensures LastPage(p, l).Some? ==>
      var f := LastPage(p, l).value;
      |f| == 3 && f[0] == p.name && f[1] == l.name && f[2] in Names(Children(l)) && IsHtmlName(f[2])
      && forall n :: n in Names(Children(l)) && IsHtmlName(n) ==> !LexLess(f[2], n)
  {
    LastHtmlIsLargest(Names(Children(l)));
  }

  /** The next pattern is entered at the first page of its first lesson, and is named
      whenever it has lessons. */
  lemma NextHopTarget(base: string, q: Entry)
    ensures var ls := Lessons(base, q);
      var h := NextHop(base, Some(q));
      (h.name.Some? <==> |ls| > 0)
      && (h.name.Some? ==> h.name.value == CleanFolderName(q.name))
      && (h.page.Some? ==> |ls| > 0 && h.page == FirstPage(q, ls[0]))
      && (|ls| > 0 && FirstPage(q, ls[0]).Some? ==> h.page.Some?)
  {
  }

  /** The previous pattern is entered at the last page of its last lesson, and is named
      whenever it has lessons. */
  lemma PrevHopTarget(base: string, q: Entry)
    ensures var ls := Lessons(base, q);
      var h := PrevHop(base, Some(q));
      (h.name.Some? <==> |ls| > 0)
      && (h.name.Some? ==> h.name.value == CleanFolderName(q.name))
      && (h.page.Some? ==> |ls| > 0 && h.page == LastPage(q, ls[|ls| - 1]))
      && (|ls| > 0 && LastPage(q, ls[|ls| - 1]).Some? ==> h.page.Some?)
  {
  }

  /** Lesson `i` links to the first page of each neighbouring lesson; a pattern's page
      stands in only for a missing neighbour page, never beside one. */
  lemma LessonLinksSpec(p: Entry, ls: seq<Entry>, i: nat, nh: Hop, ph: Hop)
    requires i < |ls|
    ensures var l := LessonLinks(p, ls, i, nh, ph);
      (i + 1 < |ls| ==> l.next == FirstPage(p, ls[i + 1]) && l.nextName == Some(CleanFolderName(ls[i + 1].name)))
      && (i + 1 == |ls| ==> l.next.None? && l.nextName.None?)
      && (0 < i ==> l.prev == FirstPage(p, ls[i - 1]) && l.prevName == Some(CleanFolderName(ls[i - 1].name)))
      && (i == 0 ==> l.prev.None? && l.prevName.None?)
      && (l.nextPattern.Some? <==> l.next.None? && nh.page.Some?)
      && (l.nextPattern.Some? ==> l.nextPattern == nh.page && l.nextPatternName == nh.name)
      && (l.nextPattern.None? ==> l.nextPatternName.None?)
      && (l.prevPattern.Some? <==> l.prev.None? && ph.page.Some?)
      && (l.prevPattern.Some? ==> l.prevPattern == ph.page && l.prevPatternName == ph.name)
      && (l.prevPattern.None? ==> l.prevPatternName.None?)
  {
  }

  // ---------------------------------------------------------------------------
  // The rewrites of a run, in the order the script performs them.

  /** One call of `add_navigation_buttons`. */
  datatype Step = Step(file: Path, links: Links)

  /** The pages `hs` of lesson `l`, each rewritten with `links`. */
  function PageSteps(p: Entry, l: Entry, hs: seq<string>, links: Links): (r: seq<Step>)
    ensures |r| == |hs|
    ensures forall j :: 0 <= j < |hs| ==> r[j] == Step([p.name, l.name, hs[j]], links)
  {
    if |hs| == 0 then []
    else PageSteps(p, l, hs[..|hs| - 1], links) + [Step([p.name, l.name, hs[|hs| - 1]], links)]
  }

  /** The steps of each lesson `ls[i]` of pattern `p`: its pages, each with the lesson's
      arguments. */
  function LessonBlocks(p: Entry, ls: seq<Entry>, nh: Hop, ph: Hop): (r: seq<seq<Step>>)
    ensures |r| == |ls|
  {
    seq(|ls|, i requires 0 <= i < |ls| => PageSteps(p, ls[i], HtmlNames(Names(Children(ls[i]))), LessonLinks(p, ls, i, nh, ph)))
  }

  /** The blocks `bs[0]`, ..., `bs[n - 1]`, one after the other. */
  function Concat(bs: seq<seq<Step>>, n: nat): seq<Step>
    requires n <= |bs|
  {
    if n == 0 then [] else Concat(bs, n - 1) + bs[n - 1]
  }

  /** `process_pattern_folder(p, next, prev)`. */
  function PatternPlan(base: string, p: Entry, next: Option<Entry>, prev: Option<Entry>): seq<Step> {
    var ls := Lessons(base, p);
    if |ls| == 0 then []
    else Concat(LessonBlocks(p, ls, NextHop(base, next), PrevHop(base, prev)), |ls|)
  }

  function NextOf(ps: seq<Entry>, i: nat): Option<Entry>
    requires i < |ps|
  {
    if i < |ps| - 1 then Some(ps[i + 1]) else None
  }

  function PrevOf(ps: seq<Entry>, i: nat): Option<Entry>
    requires i < |ps|
  {
    if i > 0 then Some(ps[i - 1]) else None
  }

  /** The steps of each pattern folder `ps[i]`, with its neighbours in `ps`. */
  function PatternBlocks(base: string, ps: seq<Entry>): (r: seq<seq<Step>>)
    ensures |r| == |ps|
  {
    seq(|ps|, i requires 0 <= i < |ps| => PatternPlan(base, ps[i], NextOf(ps, i), PrevOf(ps, i)))
  }

  /** `main`: every pattern folder of the course root `root`, in order. */
  function SitePlan(base: string, root: seq<Entry>): seq<Step> {
    var ps := PatternFolders(root);
    Concat(PatternBlocks(base, ps), |ps|)
  }

  // ---------------------------------------------------------------------------
  // What the steps do to the pages.

  /** What one step writes to the page it names, given the page's content before. */
  function Rewrite(content: string, st: Step): string {
    RenderPage(content, NavHtml(st.file, st.links))
  }

  /** A page rewrite: the new content of the page a step names, given its content before. */
  type Rewriter = (string, Step) -> string

  /** The effect of one step on the readable pages `files`, of which those in `ws` can
      also be opened for writing: the page, if it can be read and written, gets rewritten
      by `rw`; nothing else changes. */
  function ApplyStep(rw: Rewriter, ws: set<Path>, files: map<Path, string>, st: Step): (r: map<Path, string>)
    ensures r.Keys == files.Keys
    ensures st.file in files && st.file in ws ==> r[st.file] == rw(files[st.file], st)
    ensures st.file in files && st.file !in ws ==> r[st.file] == files[st.file]
    ensures forall f :: f in files && f != st.file ==> r[f] == files[f]
  {
    if st.file in files && st.file in ws then files[st.file := rw(files[st.file], st)]
    else files
  }

  /** A step on a readable and writable page writes `content`, the page rewritten. */
  lemma ApplyStepWrites(rw: Rewriter, ws: set<Path>, files: map<Path, string>, st: Step, content: string)
    requires st.file in files && st.file in ws && content == rw(files[st.file], st)
    ensures ApplyStep(rw, ws, files, st) == files[st.file := content]
  {
  }

  /** A step on a page that cannot be read, or cannot be written, changes nothing. */
  lemma ApplyStepSkips(rw: Rewriter, ws: set<Path>, files: map<Path, string>, st: Step)
    requires st.file !in files || st.file !in ws
    ensures ApplyStep(rw, ws, files, st) == files
  {
  }

  /** The steps of `plan` performed in order. */
  function ApplyPlan(rw: Rewriter, ws: set<Path>, files: map<Path, string>, plan: seq<Step>): map<Path, string> {
    if |plan| == 0 then files else ApplyStep(rw, ws, ApplyPlan(rw, ws, files, plan[..|plan| - 1]), plan[|plan| - 1])
  }

  /** Running two plans one after the other is running their concatenation. */
  lemma {:induction false} ApplyPlanAppend(rw: Rewriter, ws: set<Path>, files: map<Path, string>, a: seq<Step>, b: seq<Step>)
    ensures ApplyPlan(rw, ws, files, a + b) == ApplyPlan(rw, ws, ApplyPlan(rw, ws, files, a), b)
    decreases |b|
  {
    if |b| == 0 {
      assert a + b == a;
    } else {
      assert (a + b)[..|a + b| - 1] == a + b[..|b| - 1];
      ApplyPlanAppend(rw, ws, files, a, b[..|b| - 1]);
    }
  }

  /** The files named by a plan. */
  function Files(plan: seq<Step>): (fs: seq<Path>)
    ensures |fs| == |plan| && forall j :: 0 <= j < |plan| ==> fs[j] == plan[j].file
  {
    seq(|plan|, j requires 0 <= j < |plan| => plan[j].file)
  }

  /** Running the first `n + 1` blocks is running the first `n`, then block `n`. */
  lemma ApplyConcatNext(rw: Rewriter, ws: set<Path>, files: map<Path, string>, bs: seq<seq<Step>>, n: nat)
    requires n < |bs|
    ensures ApplyPlan(rw, ws, files, Concat(bs, n + 1)) == ApplyPlan(rw, ws, ApplyPlan(rw, ws, files, Concat(bs, n)), bs[n])
  {
    ApplyPlanAppend(rw, ws, files, Concat(bs, n), bs[n]);
  }

  /** A run never creates or deletes a page, and leaves every page it does not name as it was. */
  lemma {:induction false} ApplyPlanFrame(rw: Rewriter, ws: set<Path>, files: map<Path, string>, plan: seq<Step>)
    ensures ApplyPlan(rw, ws, files, plan).Keys == files.Keys
    ensures forall f :: f in files && f !in Files(plan) ==> ApplyPlan(rw, ws, files, plan)[f] == files[f]
  {
    if |plan| > 0 {
      var init := plan[..|plan| - 1];
      ApplyPlanFrame(rw, ws, files, init);
      forall f | f in files && f !in Files(plan) ensures f !in Files(init) {
        forall k | 0 <= k < |init| ensures Files(init)[k] != f {
          assert Files(plan)[k] == Files(init)[k];
        }
      }
    }
  }

  /** No page is named twice. */
  predicate DistinctFiles(plan: seq<Step>) {
    forall i, j :: 0 <= i < j < |plan| ==> plan[i].file != plan[j].file
  }

  /** In a plan that names each page once, every readable and writable page it names ends
      up rewritten exactly once, with its own arguments. */
  lemma {:induction false} ApplyDistinctPlan(rw: Rewriter, ws: set<Path>, files: map<Path, string>, plan: seq<Step>, j: nat)
    requires DistinctFiles(plan) && j < |plan| && plan[j].file in files && plan[j].file in ws
    ensures plan[j].file in ApplyPlan(rw, ws, files, plan)
    ensures ApplyPlan(rw, ws, files, plan)[plan[j].file] == rw(files[plan[j].file], plan[j])
  {
    var n := |plan| - 1;
    var init := plan[..n];
    ApplyPlanFrame(rw, ws, files, init);
    if j < n {
      assert DistinctFiles(init) by {
        forall a, b | 0 <= a < b < |init| ensures init[a].file != init[b].file {
          assert init[a] == plan[a] && init[b] == plan[b];
        }
      }
      assert init[j] == plan[j];
      ApplyDistinctPlan(rw, ws, files, init, j);
      assert plan[j].file != plan[n].file;
    } else {
      forall k | 0 <= k < n ensures Files(init)[k] != plan[n].file {
        assert plan[k].file != plan[n].file;
      }
    }
  }

  // ---------------------------------------------------------------------------
  // Each page is rewritten once.

  /** Every folder of the tree holds entries with distinct names, as in a file system. */
  predicate NamesUnique(es: seq<Entry>)
    decreases es
  {
    UniqueNames(es) && forall i :: 0 <= i < |es| ==> (es[i].Dir? ==> NamesUnique(es[i].entries))
  }

  lemma NamesUniqueChild(es: seq<Entry>, e: Entry)
    requires NamesUnique(es) && e in es
    ensures NamesUnique(Children(e))
  {
    var i :| 0 <= i < |es| && es[i] == e;
  }

  lemma {:induction false} SubdirsUnique(es: seq<Entry>)
    requires UniqueNames(es)
    ensures UniqueNames(Subdirs(es))
  {
    if |es| > 0 {
      var init := es[..|es| - 1];
      SubdirsUnique(init);
      var ds := Subdirs(init);
      forall k | 0 <= k < |ds| ensures ds[k].name != es[|es| - 1].name {
        assert ds[k] in ds;
        var m :| 0 <= m < |init| && init[m] == ds[k];
      }
    }
  }

  lemma {:induction false} WithoutMisplacedUnique(ds: seq<Entry>)
    requires UniqueNames(ds)
    ensures UniqueNames(WithoutMisplaced(ds))
  {
    if |ds| > 0 {
      var init := ds[..|ds| - 1];
      WithoutMisplacedUnique(init);
      var r := WithoutMisplaced(init);
      forall k | 0 <= k < |r| ensures r[k].name != ds[|ds| - 1].name {
        assert r[k] in r;
        var m :| 0 <= m < |init| && init[m] == r[k];
      }
    }
  }

  /** A pattern whose entries have distinct names has lessons with distinct names. */
  lemma LessonsUnique(base: string, p: Entry)
    requires UniqueNames(Children(p))
    ensures UniqueNames(Lessons(base, p))
  {
    var path := base + "/" + p.name;
    SubdirsUnique(Children(p));
    if Contains(path, TwoPointersFolder) {
      WithoutMisplacedUnique(Subdirs(Children(p)));
    }
    SortedSubfoldersSpec(path, Children(p));
    UniqueNamesOfPermutation(Candidates(path, Children(p)), Lessons(base, p));
  }

  predicate DistinctNames(ns: seq<string>) {
    forall i, j :: 0 <= i < j < |ns| ==> ns[i] != ns[j]
  }

  lemma {:induction false} HtmlNamesDistinct(ns: seq<string>)
    requires DistinctNames(ns)
    ensures DistinctNames(HtmlNames(ns))
  {
    if |ns| > 0 {
      var init := ns[..|ns| - 1];
      HtmlNamesDistinct(init);
      HtmlNamesMembers(init);
      var hs := HtmlNames(init);
      forall k | 0 <= k < |hs| ensures hs[k] != ns[|ns| - 1] {
        assert hs[k] in hs;
        var m :| 0 <= m < |init| && init[m] == hs[k];
      }
    }
  }

  /** A lesson whose entries have distinct names has its pages rewritten once each. */
  lemma PageStepsDistinct(p: Entry, l: Entry, links: Links)
    requires UniqueNames(Children(l))
    ensures DistinctFiles(PageSteps(p, l, HtmlNames(Names(Children(l))), links))
  {
    var hs := HtmlNames(Names(Children(l)));
    HtmlNamesDistinct(Names(Children(l)));
    var plan := PageSteps(p, l, hs, links);
    forall i, j | 0 <= i < j < |plan| ensures plan[i].file != plan[j].file {
      assert plan[i].file[2] == hs[i] && plan[j].file[2] == hs[j];
    }
  }

  /** Every step of `plan` names a file whose component `c` is `name`. */
  predicate AllAt(plan: seq<Step>, c: nat, name: string) {
    forall i :: 0 <= i < |plan| ==> c < |plan[i].file| && plan[i].file[c] == name
  }

  /** No step of `plan` names a file whose component `c` is `name`. */
  predicate NoneAt(plan: seq<Step>, c: nat, name: string) {
    forall i :: 0 <= i < |plan| ==> c < |plan[i].file| && plan[i].file[c] != name
  }

  lemma AllAtAppend(a: seq<Step>, b: seq<Step>, c: nat, name: string)
    requires AllAt(a, c, name) && AllAt(b, c, name)
    ensures AllAt(a + b, c, name)
  {
    forall i | 0 <= i < |a + b| ensures c < |(a + b)[i].file| && (a + b)[i].file[c] == name {
      if i < |a| {
        assert (a + b)[i] == a[i];
      } else {
        assert (a + b)[i] == b[i - |a|];
      }
    }
  }

  lemma NoneAtAppend(a: seq<Step>, b: seq<Step>, c: nat, name: string, other: string)
    requires NoneAt(a, c, name) && AllAt(b, c, other) && other != name
    ensures NoneAt(a + b, c, name)
  {
    forall i | 0 <= i < |a + b| ensures c < |(a + b)[i].file| && (a + b)[i].file[c] != name {
      if i < |a| {
        assert (a + b)[i] == a[i];
      } else {
        assert (a + b)[i] == b[i - |a|];
      }
    }
  }

  /** Two plans that name no common file at component `c` go together without repeats. */
  lemma DistinctApart(a: seq<Step>, b: seq<Step>, c: nat, name: string)
    requires DistinctFiles(a) && DistinctFiles(b) && NoneAt(a, c, name) && AllAt(b, c, name)
    ensures DistinctFiles(a + b)
  {
    forall i, j | 0 <= i < j < |a + b| ensures (a + b)[i].file != (a + b)[j].file {
      if j < |a| {
        assert (a + b)[i] == a[i] && (a + b)[j] == a[j];
      } else if i >= |a| {
        assert (a + b)[i] == b[i - |a|] && (a + b)[j] == b[j - |a|];
      } else {
        assert (a + b)[i] == a[i] && (a + b)[j] == b[j - |a|];
        assert a[i].file[c] != b[j - |a|].file[c];
      }
    }
  }

  /** The pages of lesson `l` of pattern `p` lie in that lesson. */
  lemma PageStepsAt(p: Entry, l: Entry, hs: seq<string>, links: Links)
    ensures AllAt(PageSteps(p, l, hs, links), 0, p.name) && AllAt(PageSteps(p, l, hs, links), 1, l.name)
  {
  }

  /** Every block of `bs` lies in the folder `es[k]` of its own index, at component `c`. */
  predicate Placed(bs: seq<seq<Step>>, es: seq<Entry>, c: nat) {
    |bs| == |es| && forall k :: 0 <= k < |bs| ==> AllAt(bs[k], c, es[k].name)
  }

  /** Blocks that all lie under `name` go together under `name`. */
  lemma {:induction false} ConcatAllAt(bs: seq<seq<Step>>, c: nat, name: string, n: nat)
    requires n <= |bs| && forall k :: 0 <= k < |bs| ==> AllAt(bs[k], c, name)
    ensures AllAt(Concat(bs, n), c, name)
  {
    if n > 0 {
      ConcatAllAt(bs, c, name, n - 1);
      AllAtAppend(Concat(bs, n - 1), bs[n - 1], c, name);
    }
  }

  /** No step of the first `n` blocks lies in the folder of a later block `m`. */
  lemma {:induction false} ConcatBefore(bs: seq<seq<Step>>, es: seq<Entry>, c: nat, n: nat, m: nat)
    requires Placed(bs, es, c) && UniqueNames(es) && n <= m < |bs|
    ensures NoneAt(Concat(bs, n), c, es[m].name)
  {
    if n > 0 {
      ConcatBefore(bs, es, c, n - 1, m);
      assert AllAt(bs[n - 1], c, es[n - 1].name);
      NoneAtAppend(Concat(bs, n - 1), bs[n - 1], c, es[m].name, es[n - 1].name);
    }
  }

  /** Blocks in folders with distinct names, each naming its pages once, name every page
      once together. */
  lemma {:induction false} ConcatDistinct(bs: seq<seq<Step>>, es: seq<Entry>, c: nat, n: nat)
    requires Placed(bs, es, c) && UniqueNames(es) && n <= |bs|
    requires forall k :: 0 <= k < |bs| ==> DistinctFiles(bs[k])
    ensures DistinctFiles(Concat(bs, n))
  {
    if n > 0 {
      ConcatDistinct(bs, es, c, n - 1);
      ConcatBefore(bs, es, c, n - 1, n - 1);
      assert AllAt(bs[n - 1], c, es[n - 1].name);
      DistinctApart(Concat(bs, n - 1), bs[n - 1], c, es[n - 1].name);
    }
  }

  /** The lessons' blocks lie in the lessons, and all of them in the pattern `p`. */
  lemma LessonBlocksPlaced(p: Entry, ls: seq<Entry>, nh: Hop, ph: Hop)
    ensures Placed(LessonBlocks(p, ls, nh, ph), ls, 1)
    ensures forall k :: 0 <= k < |ls| ==> AllAt(LessonBlocks(p, ls, nh, ph)[k], 0, p.name)
  {
    var bs := LessonBlocks(p, ls, nh, ph);
    forall k | 0 <= k < |ls| ensures AllAt(bs[k], 1, ls[k].name) && AllAt(bs[k], 0, p.name) {
      PageStepsAt(p, ls[k], HtmlNames(Names(Children(ls[k]))), LessonLinks(p, ls, k, nh, ph));
    }
  }

  /** Every page of the pattern folder `q` lies in `q`. */
  lemma PatternPlanInPattern(base: string, q: Entry, next: Option<Entry>, prev: Option<Entry>)
    ensures AllAt(PatternPlan(base, q, next, prev), 0, q.name)
  {
    var ls := Lessons(base, q);
    if |ls| > 0 {
      var nh, ph := NextHop(base, next), PrevHop(base, prev);
      LessonBlocksPlaced(q, ls, nh, ph);
      ConcatAllAt(LessonBlocks(q, ls, nh, ph), 0, q.name, |ls|);
    }
  }

  /** The pages of one pattern folder are rewritten once each. */
  lemma PatternPlanDistinct(base: string, q: Entry, next: Option<Entry>, prev: Option<Entry>)
    requires NamesUnique(Children(q))
    ensures DistinctFiles(PatternPlan(base, q, next, prev))
  {
    var ls := Lessons(base, q);
    if |ls| > 0 {
      var nh, ph := NextHop(base, next), PrevHop(base, prev);
      var bs := LessonBlocks(q, ls, nh, ph);
      LessonsUnique(base, q);
      SortedSubfoldersSpec(base + "/" + q.name, Children(q));
      forall k | 0 <= k < |ls| ensures DistinctFiles(bs[k]) {
        assert ls[k] in ls;
        NamesUniqueChild(Children(q), ls[k]);
        PageStepsDistinct(q, ls[k], LessonLinks(q, ls, k, nh, ph));
      }
      LessonBlocksPlaced(q, ls, nh, ph);
      ConcatDistinct(bs, ls, 1, |ls|);
    }
  }

  /** In a course tree whose folders hold entries with distinct names, the run names
      every page at most once. */
  lemma SitePlanDistinct(base: string, root: seq<Entry>)
    requires NamesUnique(root)
    ensures DistinctFiles(SitePlan(base, root))
  {
    var ps := PatternFolders(root);
    var bs := PatternBlocks(base, ps);
    PatternFoldersSpec(root);
    forall k | 0 <= k < |ps| ensures AllAt(bs[k], 0, ps[k].name) && DistinctFiles(bs[k]) {
      assert ps[k] in ps;
      NamesUniqueChild(root, ps[k]);
      PatternPlanInPattern(base, ps[k], NextOf(ps, k), PrevOf(ps, k));
      PatternPlanDistinct(base, ps[k], NextOf(ps, k), PrevOf(ps, k));
    }
    ConcatDistinct(bs, ps, 0, |ps|);
  }

  /** After `main`, each readable and writable page the run names holds its content from before the
      run, rewritten once with its own links; every other page is as it was. */
  lemma RunRewritesEachPageOnce(ws: set<Path>, files: map<Path, string>, base: string, root: seq<Entry>, j: nat)
    requires NamesUnique(root)
    requires j < |SitePlan(base, root)| && SitePlan(base, root)[j].file in files && SitePlan(base, root)[j].file in ws
    ensures SitePlan(base, root)[j].file in ApplyPlan(Rewrite, ws, files, SitePlan(base, root))
    ensures ApplyPlan(Rewrite, ws, files, SitePlan(base, root))[SitePlan(base, root)[j].file]
      == Rewrite(files[SitePlan(base, root)[j].file], SitePlan(base, root)[j])
  {
    SitePlanDistinct(base, root);
    ApplyDistinctPlan(Rewrite, ws, files, SitePlan(base, root), j);
  }

  /** Two rewrites of a page that held no navigation block leave the page's block once,
      with one newline at the place where the block goes. */
  lemma RewriteTwice(d: string, st: Step)
    requires !Contains(d, Sig()) && PlainLinks(st.links)
    ensures Rewrite(Rewrite(d, st), st) == Splice(Opened(d, 1), NavHtml(st.file, st.links))
  {
    var x := PrevButton(st.file, st.links) + NextButton(st.file, st.links);
    ButtonsSafe(st.file, st.links);
    RenderTwice(d, x);
  }

  /** Running a plan that names each page once twice rewrites each readable and writable
      page it names twice, with its own arguments. */
  lemma ApplyDistinctPlanTwice(rw: Rewriter, ws: set<Path>, files: map<Path, string>, plan: seq<Step>, j: nat)
    requires DistinctFiles(plan) && j < |plan| && plan[j].file in files && plan[j].file in ws
    ensures plan[j].file in ApplyPlan(rw, ws, ApplyPlan(rw, ws, files, plan), plan)
    ensures ApplyPlan(rw, ws, ApplyPlan(rw, ws, files, plan), plan)[plan[j].file]
      == rw(rw(files[plan[j].file], plan[j]), plan[j])
  {
    ApplyDistinctPlan(rw, ws, files, plan, j);
    ApplyDistinctPlan(rw, ws, ApplyPlan(rw, ws, files, plan), plan, j);
  }

  /** Running `main` twice: a readable and writable page the run names, which held no
      navigation block before, holds after the second run its own block once, preceded
      by one newline, at the last `</html>`. */
  lemma RunTwiceOneBlock(ws: set<Path>, files: map<Path, string>, base: string, root: seq<Entry>, j: nat)
    requires NamesUnique(root)
    requires j < |SitePlan(base, root)| && SitePlan(base, root)[j].file in files && SitePlan(base, root)[j].file in ws
    requires !Contains(files[SitePlan(base, root)[j].file], Sig())
    requires PlainLinks(SitePlan(base, root)[j].links)
    ensures var plan := SitePlan(base, root);
      var f := plan[j].file;
      var d := files[f];
      var twice := ApplyPlan(Rewrite, ws, ApplyPlan(Rewrite, ws, files, plan), plan);
      f in twice && twice[f] == d[..Gap(d)] + "\n" + NavHtml(f, plan[j].links) + d[Gap(d)..]
  {
    var plan := SitePlan(base, root);
    var d := files[plan[j].file];
    SitePlanDistinct(base, root);
    ApplyDistinctPlanTwice(Rewrite, ws, files, plan, j);
    RewriteTwice(d, plan[j]);
    SpliceOpenedOnce(d, NavHtml(plan[j].file, plan[j].links));
  }

  /** One more page of a lesson is one more step of the run. */
  lemma PageStepsNext(rw: Rewriter, ws: set<Path>, files: map<Path, string>, p: Entry, l: Entry, hs: seq<string>, j: nat, links: Links)
    requires j < |hs|
    ensures ApplyPlan(rw, ws, files, PageSteps(p, l, hs[..j + 1], links))
      == ApplyStep(rw, ws, ApplyPlan(rw, ws, files, PageSteps(p, l, hs[..j], links)), Step([p.name, l.name, hs[j]], links))
  {
    assert hs[..j + 1][..j] == hs[..j];
  }

  /** The two ways the block goes in: in front of the last `</html>`, or appended. */
  lemma SpliceCases(content: string, nav: string)
    ensures LastCloseHtml(content).Some? ==> LastCloseHtml(content).value <= |content|
    ensures LastCloseHtml(content).Some? ==>
      Splice(content, nav) == content[..LastCloseHtml(content).value] + nav + content[LastCloseHtml(content).value..]
    ensures LastCloseHtml(content).None? ==> Splice(content, nav) == content + nav
  {
    assert content[..|content|] == content && content[|content|..] == "";
  }

  // ---------------------------------------------------------------------------
  // The script, step by step. The readable pages are a map from path to content; a path
  // not in the map is one that cannot be opened as a text file (a folder whose name ends
  // in `.html`). The set `ws` holds the pages that can be opened for writing. Each
  // operation takes the pages before and returns the pages after.

  /** `add_navigation_buttons`: strips earlier blocks, builds the new one and writes it
    in front of the last `</html>`; reports false, changing nothing, when the page
    cannot be read or cannot be opened for writing. */
  method AddNavigationButtons(ws: set<Path>, files: map<Path, string>, htmlFile: Path, l: Links)
    returns (ok: bool, after: map<Path, string>)
    ensures ok <==> htmlFile in files && htmlFile in ws
    ensures after == ApplyStep(Rewrite, ws, files, Step(htmlFile, l))
  {
    if htmlFile !in files {
      ApplyStepSkips(Rewrite, ws, files, Step(htmlFile, l));
      return false, files;
    }
    var newContent := RewritePage(files[htmlFile], htmlFile, l);
    if htmlFile !in ws {
      ApplyStepSkips(Rewrite, ws, files, Step(htmlFile, l));
      return false, files;
    }
    ApplyStepWrites(Rewrite, ws, files, Step(htmlFile, l), newContent);
    after := files[htmlFile := newContent];
    ok := true;
  }

  /** The new content of the page `htmlFile`, read as `content`. */
  method RewritePage(content: string, htmlFile: Path, l: Links) returns (newContent: string)
    ensures newContent == Rewrite(content, Step(htmlFile, l))
  {
    var stripped := StripNav(content);
    var nav := NavHtml(htmlFile, l);
    newContent := InsertNav(stripped, nav);
  }

  /** The new content of a page: `nav` in front of the last `</html>` of `content` in any
    letter case, or at the end when there is none. */
  method InsertNav(content: string, nav: string) returns (newContent: string)
    ensures newContent == Splice(content, nav)
  {
    SpliceCases(content, nav);
    match LastCloseHtml(content) {
      case Some(pos) =>
        newContent := content[..pos] + nav + content[pos..];
      case None =>
        newContent := content + nav;
    }
  }

  /** `get_first_html_file` on lesson `l` of pattern `p`, as a path. */
  method FindFirstPage(p: Entry, l: Entry) returns (page: Option<Path>)
    ensures page == FirstPage(p, l)
  {
    var name := GetFirstHtmlFile(Names(Children(l)));
    page := if name.Some? then Some([p.name, l.name, name.value]) else None;
  }

  /** `get_last_html_file` on lesson `l` of pattern `p`, as a path. */
  method FindLastPage(p: Entry, l: Entry) returns (page: Option<Path>)
    ensures page == LastPage(p, l)
  {
    var name := GetLastHtmlFile(Names(Children(l)));
    page := if name.Some? then Some([p.name, l.name, name.value]) else None;
  }

  /** The adjacent patterns' targets: the first page of the next pattern's first lesson
    and the last page of the previous pattern's last lesson, with their display names. */
  method PatternHops(base: string, next: Option<Entry>, prev: Option<Entry>) returns (nh: Hop, ph: Hop)
    ensures nh == NextHop(base, next) && ph == PrevHop(base, prev)
  {
    nh := NextPatternHop(base, next);
    ph := PrevPatternHop(base, prev);
  }

  /** `next_pattern_html` and `next_pattern_name`. */
  method NextPatternHop(base: string, next: Option<Entry>) returns (nh: Hop)
    ensures nh == NextHop(base, next)
  {
    nh := Hop(None, None);
    if next.Some? {
      var nextSubfolders := GetSortedSubfolders(base + "/" + next.value.name, Children(next.value));
      if |nextSubfolders| > 0 {
        var nextPatternHtml := FindFirstPage(next.value, nextSubfolders[0]);
        nh := Hop(nextPatternHtml, Some(CleanFolderName(next.value.name)));
      }
    }
  }

  /** `prev_pattern_html` and `prev_pattern_name`. */
  method PrevPatternHop(base: string, prev: Option<Entry>) returns (ph: Hop)
    ensures ph == PrevHop(base, prev)
  {
    ph := Hop(None, None);
    if prev.Some? {
      var prevSubfolders := GetSortedSubfolders(base + "/" + prev.value.name, Children(prev.value));
      if |prevSubfolders| > 0 {
        var prevPatternHtml := FindLastPage(prev.value, prevSubfolders[|prevSubfolders| - 1]);
        ph := Hop(prevPatternHtml, Some(CleanFolderName(prev.value.name)));
        PrevHopOf(base, prev.value, prevSubfolders, prevPatternHtml);
      }
    }
  }

  /** The arguments for the pages of lesson `subfolders[i]`. */
  method LinksFor(p: Entry, subfolders: seq<Entry>, i: nat, nh: Hop, ph: Hop) returns (links: Links)
    requires i < |subfolders|
    ensures links == LessonLinks(p, subfolders, i, nh, ph)
  {
    var prevHtml: Option<Path> := None;
    var nextHtml: Option<Path> := None;
    var prevFolderName: Option<string> := None;
    var nextFolderName: Option<string> := None;
    if i > 0 {
      prevHtml := FindFirstPage(p, subfolders[i - 1]);
      prevFolderName := Some(CleanFolderName(subfolders[i - 1].name));
    }
    if i < |subfolders| - 1 {
      nextHtml := FindFirstPage(p, subfolders[i + 1]);
      nextFolderName := Some(CleanFolderName(subfolders[i + 1].name));
    }
    var useNextPattern := nextHtml.None? && nh.page.Some?;
    var usePrevPattern := prevHtml.None? && ph.page.Some?;
    links := Links(prevHtml, nextHtml, prevFolderName, nextFolderName,
                   if useNextPattern then nh.page else None,
                   if useNextPattern then nh.name else None,
                   if usePrevPattern then ph.page else None,
                   if usePrevPattern then ph.name else None);
  }

  /** Every `*.html` match of lesson `subfolder`, in enumeration order, rewritten with `links`. */
  method ProcessLesson(ws: set<Path>, files: map<Path, string>, p: Entry, subfolder: Entry, links: Links)
    returns (after: map<Path, string>)
    ensures after == ApplyPlan(Rewrite, ws, files, PageSteps(p, subfolder, HtmlNames(Names(Children(subfolder))), links))
  {
    var htmlFiles := GlobHtml(Names(Children(subfolder)));
    after := files;
    for j := 0 to |htmlFiles|
      invariant after == ApplyPlan(Rewrite, ws, files, PageSteps(p, subfolder, htmlFiles[..j], links))
    {
      var _, next := AddNavigationButtons(ws, after, [p.name, subfolder.name, htmlFiles[j]], links);
      PageStepsNext(Rewrite, ws, files, p, subfolder, htmlFiles, j, links);
      after := next;
    }
    assert htmlFiles[..|htmlFiles|] == htmlFiles;
  }

  /** One turn of the lesson loop of `process_pattern_folder`: the arguments for lesson
    `subfolders[i]`, then its pages. `files` holds the pages after the first `i` lessons
    of a run that began on `start`; the result holds them after `i + 1`. */
  method ProcessLessonAt(ws: set<Path>, ghost start: map<Path, string>, files: map<Path, string>, p: Entry, subfolders: seq<Entry>, i: nat, nh: Hop, ph: Hop)
    returns (after: map<Path, string>)
    requires i < |subfolders|
    requires files == ApplyPlan(Rewrite, ws, start, Concat(LessonBlocks(p, subfolders, nh, ph), i))
    ensures after == ApplyPlan(Rewrite, ws, start, Concat(LessonBlocks(p, subfolders, nh, ph), i + 1))
  {
    var links := LinksFor(p, subfolders, i, nh, ph);
    after := ProcessLesson(ws, files, p, subfolders[i], links);
    ApplyConcatNext(Rewrite, ws, start, LessonBlocks(p, subfolders, nh, ph), i);
  }

  /** The lesson loop of `process_pattern_folder`, once the adjacent patterns' targets
    `nh` and `ph` are known. */
  method ProcessLessons(ws: set<Path>, files: map<Path, string>, p: Entry, subfolders: seq<Entry>, nh: Hop, ph: Hop)
    returns (after: map<Path, string>)
    ensures after == ApplyPlan(Rewrite, ws, files, Concat(LessonBlocks(p, subfolders, nh, ph), |subfolders|))
  {
    after := files;
    for i := 0 to |subfolders|
      invariant after == ApplyPlan(Rewrite, ws, files, Concat(LessonBlocks(p, subfolders, nh, ph), i))
    {
      after := ProcessLessonAt(ws, files, after, p, subfolders, i, nh, ph);
    }
  }

  /** `process_pattern_folder(p, next, prev)` under the course root `base`: every page of
    every lesson of `p`, lesson by lesson. */
  method ProcessPatternFolder(ws: set<Path>, files: map<Path, string>, base: string, p: Entry, next: Option<Entry>, prev: Option<Entry>)
    returns (after: map<Path, string>)
    ensures after == ApplyPlan(Rewrite, ws, files, PatternPlan(base, p, next, prev))
  {
    var subfolders := GetSortedSubfolders(base + "/" + p.name, Children(p));
    if |subfolders| == 0 {
      return files;
    }
    var nh, ph := PatternHops(base, next, prev);
    after := ProcessLessons(ws, files, p, subfolders, nh, ph);
  }

  /** `main` on the course root `base` with entries `root`: finds the pattern folders,
    orders them, and processes each with its neighbours in that order. */
  method Run(ws: set<Path>, files: map<Path, string>, base: string, root: seq<Entry>) returns (after: map<Path, string>)
    ensures after == ApplyPlan(Rewrite, ws, files, SitePlan(base, root))
  {
    var patternFolders := DiscoverPatternFolders(root);
    ghost var bs := PatternBlocks(base, patternFolders);
    after := files;
    for i := 0 to |patternFolders|
      invariant after == ApplyPlan(Rewrite, ws, files, Concat(bs, i))
    {
      var nextPattern := if i < |patternFolders| - 1 then Some(patternFolders[i + 1]) else None;
      var prevPattern := if i > 0 then Some(patternFolders[i - 1]) else None;
      var next := ProcessPatternFolder(ws, after, base, patternFolders[i], nextPattern, prevPattern);
      ApplyConcatNext(Rewrite, ws, files, bs, i);
      after := next;
    }
  }
}
