/** Ordering of pattern and lesson folders by the number in front of their
    names (add_navigation.py, `get_sorted_subfolders` and the discovery in `main`). */
module FolderOrder {
  import opened Text
  import opened Listing

  /** Key of a folder whose name has no `<digits>.` prefix: such folders sort last. */
  const NoNumberKey: nat := 9999

  /** The one pattern folder whose children are filtered, and the marker of the child removed. */
  const TwoPointersFolder := "3. Pattern Two Pointers"
  const MisplacedMarker := "Pattern Fast"

  /** The name matches `^(\d+)\.`: a non-empty digit run directly followed by a period. */
  predicate HasNumberPrefix(name: string) {
    var d := LeadingDigits(name);
    0 < d < |name| && name[d] == '.'
  }

  /** `extract_number`: the number in front of the period, or `NoNumberKey`. */
  function ExtractNumber(name: string): nat {
    if HasNumberPrefix(name) then ParseNat(name[..LeadingDigits(name)]) else NoNumberKey
  }

  lemma {:induction false} LeadingDigitsOfNumeral(ds: string, rest: string)
    requires AllDigits(ds)
    requires |rest| > 0 && !IsDigit(rest[0])
    ensures LeadingDigits(ds + rest) == |ds|
  {
    if |ds| > 0 {
      assert (ds + rest)[1..] == ds[1..] + rest;
      LeadingDigitsOfNumeral(ds[1..], rest);
    }
  }

  /** A name `<digits>.<rest>` sorts by the value of its digits (leading zeros allowed). */
  lemma ExtractNumberReadsNumeral(ds: string, rest: string)
    requires |ds| > 0 && AllDigits(ds)
    ensures ExtractNumber(ds + "." + rest) == ParseNat(ds)
  {
    var name := ds + "." + rest;
    assert name == ds + ("." + rest);
    LeadingDigitsOfNumeral(ds, "." + rest);
    assert name[..|ds|] == ds;
  }

  /** Round trip with the decimal numeral: the folder `"<n>. <title>"` has key `n`. */
  lemma ExtractNumberOfNat(n: nat, rest: string)
    ensures ExtractNumber(NatToDigits(n) + "." + rest) == n
  {
    ExtractNumberReadsNumeral(NatToDigits(n), rest);
    ParseNatToDigits(n);
  }

  /** A name that does not start with digits followed by a period gets the sentinel key. */
  lemma ExtractNumberUnnumbered(name: string)
    requires forall k :: 0 < k < |name| && AllDigits(name[..k]) ==> name[k] != '.'
    ensures ExtractNumber(name) == NoNumberKey
  {
    var d := LeadingDigits(name);
    if 0 < d < |name| {
      assert AllDigits(name[..d]);
    }
  }

  function Key(e: Entry): nat {
    ExtractNumber(e.name)
  }

  predicate SortedByKey(s: seq<Entry>) {
    forall i, j :: 0 <= i < j < |s| ==> Key(s[i]) <= Key(s[j])
  }

  /** The elements of `s` whose key is `k`, in their order in `s`. */
  function WithKey(s: seq<Entry>, k: nat): seq<Entry> {
    if |s| == 0 then [] else (if Key(s[0]) == k then [s[0]] else []) + WithKey(s[1..], k)
  }

  lemma {:induction false} WithKeyAppend(a: seq<Entry>, b: seq<Entry>, k: nat)
    ensures WithKey(a + b, k) == WithKey(a, k) + WithKey(b, k)
  {
    if |a| > 0 {
      assert (a + b)[1..] == a[1..] + b;
      WithKeyAppend(a[1..], b, k);
    } else {
      assert a + b == b;
    }
  }

  lemma {:induction false} WithKeyAbove(s: seq<Entry>, k: nat)
    requires forall i :: 0 <= i < |s| ==> Key(s[i]) > k
    ensures WithKey(s, k) == []
  {
    if |s| > 0 {
      WithKeyAbove(s[1..], k);
    }
  }

  /** Places `x` after every element whose key is not larger than its own. */
  function InsertByKey(s: seq<Entry>, x: Entry): seq<Entry> {
    if |s| == 0 then [x]
    else if Key(x) < Key(s[0]) then [x] + s
    else [s[0]] + InsertByKey(s[1..], x)
  }

  /** The stable sort by key that `list.sort(key=...)` performs (Python's sort is stable). */
  function SortByKey(s: seq<Entry>): seq<Entry> {
    if |s| == 0 then [] else InsertByKey(SortByKey(s[..|s| - 1]), s[|s| - 1])
  }

  lemma {:induction false} InsertByKeyMultiset(s: seq<Entry>, x: Entry)
    ensures multiset(InsertByKey(s, x)) == multiset(s) + multiset{x}
  {
    if |s| > 0 && Key(x) >= Key(s[0]) {
      InsertByKeyMultiset(s[1..], x);
      assert s == [s[0]] + s[1..];
    }
  }

  lemma {:induction false} InsertByKeySorted(s: seq<Entry>, x: Entry)
    requires SortedByKey(s)
    ensures SortedByKey(InsertByKey(s, x))
  {
    if |s| > 0 && Key(x) >= Key(s[0]) {
      var t := InsertByKey(s[1..], x);
      InsertByKeySorted(s[1..], x);
      InsertByKeyMultiset(s[1..], x);
      var r := [s[0]] + t;
      forall j | 0 < j < |r| ensures Key(r[0]) <= Key(r[j]) {
        assert r[j] == t[j - 1];
        assert t[j - 1] in multiset(t);
        assert t[j - 1] in multiset(s[1..]) + multiset{x};
        if t[j - 1] != x {
          assert t[j - 1] in s[1..];
        }
      }
    }
  }

  lemma WithKeyCons(e: Entry, t: seq<Entry>, k: nat)
    ensures WithKey([e] + t, k) == (if Key(e) == k then [e] else []) + WithKey(t, k)
  {
    assert ([e] + t)[1..] == t;
  }

  lemma SortedTail(s: seq<Entry>)
    requires SortedByKey(s) && |s| > 0
    ensures SortedByKey(s[1..])
  {
    forall i, j | 0 <= i < j < |s| - 1 ensures Key(s[1..][i]) <= Key(s[1..][j]) {
      assert s[1..][i] == s[i + 1] && s[1..][j] == s[j + 1];
    }
  }

  lemma InsertAtFrontWithKey(s: seq<Entry>, x: Entry, k: nat)
    requires SortedByKey(s) && (|s| == 0 || Key(x) < Key(s[0]))
    ensures WithKey([x] + s, k) == WithKey(s, k) + (if Key(x) == k then [x] else [])
  {
    WithKeyCons(x, s, k);
    if Key(x) == k {
      WithKeyAbove(s, k);
    }
  }

  lemma {:induction false} InsertByKeyWithKey(s: seq<Entry>, x: Entry, k: nat)
    requires SortedByKey(s)
    ensures WithKey(InsertByKey(s, x), k) == WithKey(s, k) + (if Key(x) == k then [x] else [])
  {
    if |s| == 0 || Key(x) < Key(s[0]) {
      assert InsertByKey(s, x) == [x] + s;
      InsertAtFrontWithKey(s, x, k);
    } else {
      var t := InsertByKey(s[1..], x);
      SortedTail(s);
      InsertByKeyWithKey(s[1..], x, k);
      assert InsertByKey(s, x) == [s[0]] + t;
      WithKeyCons(s[0], t, k);
    }
  }

  lemma {:induction false} SortByKeyIsStableSort(s: seq<Entry>)
    ensures SortedByKey(SortByKey(s))
    ensures multiset(SortByKey(s)) == multiset(s)
    ensures forall k :: WithKey(SortByKey(s), k) == WithKey(s, k)
  {
    if |s| > 0 {
      var init, last := s[..|s| - 1], s[|s| - 1];
      assert s == init + [last];
      SortByKeyIsStableSort(init);
      InsertByKeyMultiset(SortByKey(init), last);
      InsertByKeySorted(SortByKey(init), last);
      forall k ensures WithKey(SortByKey(s), k) == WithKey(s, k) {
        InsertByKeyWithKey(SortByKey(init), last, k);
        WithKeyAppend(init, [last], k);
      }
    }
  }

  lemma {:induction false} InsertByKeyAt(s: seq<Entry>, x: Entry, j: nat)
    requires SortedByKey(s) && j <= |s|
    requires j == 0 || Key(s[j - 1]) <= Key(x)
    requires forall m :: j <= m < |s| ==> Key(s[m]) > Key(x)
    ensures InsertByKey(s, x) == s[..j] + [x] + s[j..]
  {
    if |s| > 0 && j > 0 {
      InsertByKeyAt(s[1..], x, j - 1);
      assert s[..j] == [s[0]] + s[1..][..j - 1];
    }
  }

  /** One step of the insertion sort: `x` goes at the first index `j` after which only larger
      keys follow. */
  lemma SortStep(s: seq<Entry>, i: nat, j: nat)
    requires i < |s| && j <= |SortByKey(s[..i])|
    requires j == 0 || Key(SortByKey(s[..i])[j - 1]) <= Key(s[i])
    requires forall m :: j <= m < |SortByKey(s[..i])| ==> Key(SortByKey(s[..i])[m]) > Key(s[i])
    ensures SortByKey(s[..i + 1]) == SortByKey(s[..i])[..j] + [s[i]] + SortByKey(s[..i])[j..]
  {
    assert s[..i + 1][..i] == s[..i];
    SortByKeyIsStableSort(s[..i]);
    InsertByKeyAt(SortByKey(s[..i]), s[i], j);
  }

  /** Scans back from the end of `r` past the entries with a larger key than `x`. */
  method FindSlot(r: seq<Entry>, x: Entry) returns (j: nat)
    ensures j <= |r|
    ensures j == 0 || Key(r[j - 1]) <= Key(x)
    ensures forall m :: j <= m < |r| ==> Key(r[m]) > Key(x)
  {
    j := |r|;
    while j > 0 && Key(r[j - 1]) > Key(x)
      invariant 0 <= j <= |r|
      invariant forall m :: j <= m < |r| ==> Key(r[m]) > Key(x)
    {
      j := j - 1;
    }
  }

  /** `list.sort(key=...)` on the folder list: a stable insertion sort with the same result. */
  method StableSortByKey(s: seq<Entry>) returns (r: seq<Entry>)
    ensures r == SortByKey(s)
  {
    r := [];
    for i := 0 to |s|
      invariant r == SortByKey(s[..i])
    {
      var j := FindSlot(r, s[i]);
      SortStep(s, i, j);
      r := r[..j] + [s[i]] + r[j..];
    }
    assert s[..|s|] == s;
  }

  /** The folder list without children whose name contains the misplaced marker. */
  function WithoutMisplaced(ds: seq<Entry>): (r: seq<Entry>)
    ensures forall d :: d in r <==> d in ds && !Contains(d.name, MisplacedMarker)
  {
    if |ds| == 0 then []
    else
      var init := ds[..|ds| - 1];
      assert ds == init + [ds[|ds| - 1]];
      WithoutMisplaced(init) + (if Contains(ds[|ds| - 1].name, MisplacedMarker) then [] else [ds[|ds| - 1]])
  }

  /** Filtering one more folder appends it when it is kept. */
  lemma WithoutMisplacedSnoc(ds: seq<Entry>, x: Entry)
    ensures WithoutMisplaced(ds + [x]) ==
      WithoutMisplaced(ds) + if Contains(x.name, MisplacedMarker) then [] else [x]
  {
    assert (ds + [x])[..|ds|] == ds;
  }

  /** The exclusion keeps list order: filtering two consecutive runs of folders gives the
      first run's kept folders followed by the second's. */
  lemma {:induction false} WithoutMisplacedAppend(a: seq<Entry>, b: seq<Entry>)
    ensures WithoutMisplaced(a + b) == WithoutMisplaced(a) + WithoutMisplaced(b)
  {
    if |b| == 0 {
      assert a + b == a;
    } else {
      var init, last := b[..|b| - 1], b[|b| - 1];
      assert b == init + [last];
      WithoutMisplacedAppend(a, init);
      ConcatAssoc(a, init, [last]);
      WithoutMisplacedSnoc(a + init, last);
      WithoutMisplacedSnoc(init, last);
      ConcatAssoc(WithoutMisplaced(a), WithoutMisplaced(init),
                  if Contains(last.name, MisplacedMarker) then [] else [last]);
    }
  }

  /** One folder is kept exactly when its name lacks the marker. */
  lemma WithoutMisplacedOne(d: Entry)
    ensures WithoutMisplaced([d]) == if Contains(d.name, MisplacedMarker) then [] else [d]
  {
    assert [d][..0] == [];
  }

  /** The child folders `get_sorted_subfolders` keeps, before sorting. */
  function Candidates(path: string, es: seq<Entry>): seq<Entry> {
    if Contains(path, TwoPointersFolder) then WithoutMisplaced(Subdirs(es)) else Subdirs(es)
  }

  /** `get_sorted_subfolders(folder)`, where `path` is `str(folder)` and `es` its entries. */
  function SortedSubfolders(path: string, es: seq<Entry>): seq<Entry> {
    SortByKey(Candidates(path, es))
  }

  /** The exclusion fires only inside the two-pointers folder and removes exactly the
      misplaced children; the result is the kept folders stably sorted by key. */
  lemma SortedSubfoldersSpec(path: string, es: seq<Entry>)
    ensures !Contains(path, TwoPointersFolder) ==> Candidates(path, es) == Subdirs(es)
    ensures forall e :: e in SortedSubfolders(path, es) <==>
      e in es && e.Dir? && !(Contains(path, TwoPointersFolder) && Contains(e.name, MisplacedMarker))
    ensures multiset(SortedSubfolders(path, es)) == multiset(Candidates(path, es))
    ensures SortedByKey(SortedSubfolders(path, es))
    ensures forall k :: WithKey(SortedSubfolders(path, es), k) == WithKey(Candidates(path, es), k)
  {
    SortByKeyIsStableSort(Candidates(path, es));
    forall e ensures e in SortedSubfolders(path, es) <==> e in Candidates(path, es) {
      assert e in SortedSubfolders(path, es) <==> e in multiset(SortedSubfolders(path, es));
    }
  }

  /** `get_sorted_subfolders`: lists the child folders, applies the exclusion, sorts. */
  method GetSortedSubfolders(path: string, es: seq<Entry>) returns (r: seq<Entry>)
    ensures r == SortedSubfolders(path, es)
  {
    var subfolders := [];
    for i := 0 to |es|
      invariant subfolders == Subdirs(es[..i])
    {
      assert es[..i + 1][..i] == es[..i];
      if es[i].Dir? {
        subfolders := subfolders + [es[i]];
      }
    }
    assert es[..|es|] == es;
    if Contains(path, TwoPointersFolder) {
      var kept := [];
      for i := 0 to |subfolders|
        invariant kept == WithoutMisplaced(subfolders[..i])
      {
        assert subfolders[..i + 1][..i] == subfolders[..i];
        if !Contains(subfolders[i].name, MisplacedMarker) {
          kept := kept + [subfolders[i]];
        }
      }
      assert subfolders[..|subfolders|] == subfolders;
      subfolders := kept;
    }
    r := StableSortByKey(subfolders);
  }

  /** `clean_folder_name`: drops a `<digits>.` prefix and the blanks after it, keeps 50 characters. */
  function CleanFolderName(name: string): (r: string)
    ensures |r| <= 50
    ensures forall c :: c in r ==> c in name
  {
    var s := if HasNumberPrefix(name) then name[SkipSpaces(name, LeadingDigits(name) + 1)..] else name;
    if |s| <= 50 then s else s[..50]
  }

  /** Blanks followed by a title that does not start with a blank: skipping blanks lands on it. */
  lemma BlanksThenTitle(name: string, from: nat, blanks: string, title: string)
    requires from <= |name| && name[from..] == blanks + title
    requires forall i :: 0 <= i < |blanks| ==> IsSpace(blanks[i])
    requires |title| == 0 || !IsSpace(title[0])
    ensures SkipSpaces(name, from) == from + |blanks|
    ensures name[from + |blanks|..] == title
  {
    var u := blanks + title;
    forall k | from <= k < from + |blanks| ensures IsSpace(name[k]) {
      assert name[k] == u[k - from];
    }
    if from + |blanks| < |name| {
      assert name[from + |blanks|] == u[|blanks|];
    }
    SkipSpacesAt(name, from, from + |blanks|);
    assert name[from + |blanks|..] == u[|blanks|..];
  }

  /** A name made of digits and then a period has a number prefix ending at the period. */
  lemma NumeralPrefix(name: string, ds: string, rest: string)
    requires name == ds + rest && |ds| > 0 && AllDigits(ds)
    requires |rest| > 0 && rest[0] == '.'
    ensures HasNumberPrefix(name) && LeadingDigits(name) == |ds|
    ensures name[|ds| + 1..] == rest[1..]
  {
    LeadingDigitsOfNumeral(ds, rest);
    assert name[|ds|] == rest[0];
  }

  /** `<digits>.<blanks><title>` has a number prefix, and after its period come the blanks and the title. */
  lemma NumberedParts(name: string, ds: string, blanks: string, title: string)
    requires name == ds + "." + blanks + title
    requires |ds| > 0 && AllDigits(ds)
    ensures HasNumberPrefix(name) && LeadingDigits(name) == |ds|
    ensures name[|ds| + 1..] == blanks + title
  {
    var rest := "." + blanks + title;
    assert name == ds + rest;
    assert rest[1..] == blanks + title;
    NumeralPrefix(name, ds, rest);
  }

  /** In `<digits>.<blanks><title>` the blanks after the period end where the title starts. */
  lemma NumberedTitleStart(name: string, ds: string, blanks: string, title: string)
    requires name == ds + "." + blanks + title
    requires |ds| > 0 && AllDigits(ds)
    requires forall i :: 0 <= i < |blanks| ==> IsSpace(blanks[i])
    requires |title| == 0 || !IsSpace(title[0])
    ensures HasNumberPrefix(name) && LeadingDigits(name) == |ds|
    ensures SkipSpaces(name, |ds| + 1) == |ds| + 1 + |blanks|
    ensures name[|ds| + 1 + |blanks|..] == title
  {
    NumberedParts(name, ds, blanks, title);
    BlanksThenTitle(name, |ds| + 1, blanks, title);
  }

  /** A numbered name `<digits>.<blanks><title>` is shown as the first 50 characters of its title. */
  lemma CleanFolderNameOfNumbered(ds: string, blanks: string, title: string)
    requires |ds| > 0 && AllDigits(ds)
    requires forall i :: 0 <= i < |blanks| ==> IsSpace(blanks[i])
    requires |title| == 0 || !IsSpace(title[0])
    ensures CleanFolderName(ds + "." + blanks + title) == if |title| <= 50 then title else title[..50]
  {
    NumberedTitleStart(ds + "." + blanks + title, ds, blanks, title);
  }

  /** A name without a `<digits>.` prefix is shown as its first 50 characters. */
  lemma CleanFolderNameOfUnnumbered(name: string)
    requires forall k :: 0 < k < |name| && AllDigits(name[..k]) ==> name[k] != '.'
    ensures CleanFolderName(name) == if |name| <= 50 then name else name[..50]
  {
    var d := LeadingDigits(name);
    if 0 < d < |name| {
      assert AllDigits(name[..d]);
    }
  }

  /** `^\d+\.\s+Pattern`: digits, a period, at least one blank, then `Pattern`. */
  predicate IsPatternName(n: string) {
    HasNumberPrefix(n) &&
    var from := LeadingDigits(n) + 1;
    var e := SkipSpaces(n, from);
    e > from && "Pattern" <= n[e..]
  }

  /** The folder has a child folder whose name matches `^\d+\.`. */
  predicate HasNumberedSubfolder(e: Entry) {
    exists d :: d in Subdirs(Children(e)) && HasNumberPrefix(d.name)
  }

  /** First loop of `main`: root folders named like `<n>. Pattern ...`, in enumeration order. */
  function NamedPatterns(es: seq<Entry>): (r: seq<Entry>)
    ensures forall e :: e in r <==> e in es && e.Dir? && IsPatternName(e.name)
  {
    if |es| == 0 then []
    else
      var init, last := es[..|es| - 1], es[|es| - 1];
      assert es == init + [last];
      NamedPatterns(init) + (if last.Dir? && IsPatternName(last.name) then [last] else [])
  }

  /** Second loop of `main`, over `es`: appends each folder not yet listed by name that has a
      numbered child folder. */
  function AddNumbered(acc: seq<Entry>, es: seq<Entry>): seq<Entry> {
    if |es| == 0 then acc
    else
      var a := AddNumbered(acc, es[..|es| - 1]);
      var last := es[|es| - 1];
      if last.Dir? && last.name !in Names(a) && HasNumberedSubfolder(last) then a + [last] else a
  }

  /** The second loop only appends: what the first loop found stays in front. */
  lemma {:induction false} AddNumberedPrefix(acc: seq<Entry>, es: seq<Entry>)
    ensures |AddNumbered(acc, es)| >= |acc| && AddNumbered(acc, es)[..|acc|] == acc
  {
    if |es| > 0 {
      AddNumberedPrefix(acc, es[..|es| - 1]);
    }
  }

  /** The pattern folders `main` finds, in the order it sorts them. */
  function PatternFolders(es: seq<Entry>): seq<Entry> {
    SortByKey(AddNumbered(NamedPatterns(es), es))
  }

  predicate UniqueNames(es: seq<Entry>) {
    forall i, j :: 0 <= i < j < |es| ==> es[i].name != es[j].name
  }

  lemma {:induction false} AddNumberedGrows(acc: seq<Entry>, es: seq<Entry>)
    ensures forall e :: e in AddNumbered(acc, es) ==> e in acc || (e in es && e.Dir? && HasNumberedSubfolder(e))
    ensures forall e :: e in acc ==> e in AddNumbered(acc, es)
    ensures UniqueNames(acc) ==> UniqueNames(AddNumbered(acc, es))
    ensures forall n :: n in Names(AddNumbered(acc, es)) ==> n in Names(acc) || n in Names(es)
  {
    if |es| > 0 {
      var init, last := es[..|es| - 1], es[|es| - 1];
      AddNumberedGrows(acc, init);
      var a := AddNumbered(acc, init);
      assert forall n :: n in Names(init) ==> n in Names(es) by {
        forall n | n in Names(init) ensures n in Names(es) {
          var i :| 0 <= i < |init| && Names(init)[i] == n;
          assert Names(es)[i] == n;
        }
      }
      if last.Dir? && last.name !in Names(a) && HasNumberedSubfolder(last) {
        var r := a + [last];
        assert Names(es)[|es| - 1] == last.name;
        if UniqueNames(acc) {
          forall i, j | 0 <= i < j < |r| ensures r[i].name != r[j].name {
            if j == |r| - 1 {
              assert Names(a)[i] == r[i].name;
            }
          }
        }
        forall n | n in Names(r) ensures n in Names(acc) || n in Names(es) {
          var i :| 0 <= i < |r| && Names(r)[i] == n;
          if i < |a| {
            assert Names(a)[i] == n;
          }
        }
      }
    }
  }

  lemma UniqueNamesInit(es: seq<Entry>)
    requires UniqueNames(es) && |es| > 0
    ensures UniqueNames(es[..|es| - 1])
  {
  }

  /** The last folder of the listing is added when no folder before it has its name. */
  lemma AddNumberedIncludesLast(acc: seq<Entry>, es: seq<Entry>)
    requires |es| > 0 && es[|es| - 1].Dir? && HasNumberedSubfolder(es[|es| - 1])
    requires es[|es| - 1].name !in Names(acc)
    requires UniqueNames(es)
    ensures es[|es| - 1] in AddNumbered(acc, es)
  {
    var init, last := es[..|es| - 1], es[|es| - 1];
    AddNumberedGrows(acc, init);
    forall j | 0 <= j < |init| ensures Names(init)[j] != last.name {
      assert es[j].name != es[|es| - 1].name;
    }
  }

  lemma {:induction false} AddNumberedIncludes(acc: seq<Entry>, es: seq<Entry>, i: nat)
    requires i < |es| && es[i].Dir? && HasNumberedSubfolder(es[i])
    requires es[i].name !in Names(acc)
    requires UniqueNames(es)
    ensures es[i] in AddNumbered(acc, es)
  {
    if i == |es| - 1 {
      AddNumberedIncludesLast(acc, es);
    } else {
      var init := es[..|es| - 1];
      assert init[i] == es[i];
      UniqueNamesInit(es);
      AddNumberedIncludes(acc, init, i);
    }
  }

  /** Every root folder with a numbered child folder and no pattern name is added by the second loop. */
  lemma NumberedFoldersAdded(es: seq<Entry>, i: nat)
    requires UniqueNames(es) && i < |es|
    requires es[i].Dir? && HasNumberedSubfolder(es[i]) && !IsPatternName(es[i].name)
    ensures es[i] in AddNumbered(NamedPatterns(es), es)
  {
    var named := NamedPatterns(es);
    forall j | 0 <= j < |named| ensures Names(named)[j] != es[i].name {
      var n := named[j];
      assert n in named;
      assert n in es && IsPatternName(n.name);
      var k :| 0 <= k < |es| && es[k] == n;
      assert k != i;
    }
    assert es[i].name !in Names(named);
    AddNumberedIncludes(named, es, i);
  }

  /** Among equal keys, the folders found by name come first, then those the second loop
      added. */
  lemma PatternFoldersTies(es: seq<Entry>)
    ensures |AddNumbered(NamedPatterns(es), es)| >= |NamedPatterns(es)|
    ensures forall k ::
              WithKey(PatternFolders(es), k) == WithKey(NamedPatterns(es), k)
                + WithKey(AddNumbered(NamedPatterns(es), es)[|NamedPatterns(es)|..], k)
  {
    var named := NamedPatterns(es);
    var cands := AddNumbered(named, es);
    SortByKeyIsStableSort(cands);
    AddNumberedPrefix(named, es);
    assert cands == named + cands[|named|..];
    forall k ensures WithKey(cands, k) == WithKey(named, k) + WithKey(cands[|named|..], k) {
      WithKeyAppend(named, cands[|named|..], k);
    }
  }

  /** With unique names in the root, `main` keeps exactly the folders named like a pattern and
      the folders holding a numbered child folder, each once, sorted stably by key. */
  lemma PatternFoldersSpec(es: seq<Entry>)
    requires UniqueNames(es)
    ensures forall e :: e in PatternFolders(es) <==>
      e in es && e.Dir? && (IsPatternName(e.name) || HasNumberedSubfolder(e))
    ensures UniqueNames(PatternFolders(es))
    ensures SortedByKey(PatternFolders(es))
    ensures |AddNumbered(NamedPatterns(es), es)| >= |NamedPatterns(es)|
    ensures forall k ::
              WithKey(PatternFolders(es), k) == WithKey(NamedPatterns(es), k)
                + WithKey(AddNumbered(NamedPatterns(es), es)[|NamedPatterns(es)|..], k)
  {
    var named := NamedPatterns(es);
    var cands := AddNumbered(named, es);
    SortByKeyIsStableSort(cands);
    PatternFoldersTies(es);
    AddNumberedGrows(named, es);
    forall e ensures e in PatternFolders(es) <==> e in cands {
      assert e in PatternFolders(es) <==> e in multiset(PatternFolders(es));
    }
    forall e | e in es && e.Dir? && HasNumberedSubfolder(e) && !IsPatternName(e.name)
      ensures e in cands
    {
      var i :| 0 <= i < |es| && es[i] == e;
      NumberedFoldersAdded(es, i);
    }
    NamedPatternsUnique(es);
    UniqueNamesOfPermutation(cands, SortByKey(cands));
  }

  lemma {:induction false} NamedPatternsUnique(es: seq<Entry>)
    requires UniqueNames(es)
    ensures UniqueNames(NamedPatterns(es))
  {
    if |es| > 0 {
      var init, last := es[..|es| - 1], es[|es| - 1];
      NamedPatternsUnique(init);
      var a := NamedPatterns(init);
      if last.Dir? && IsPatternName(last.name) {
        var r := a + [last];
        forall i | 0 <= i < |a| ensures a[i].name != last.name {
          var k :| 0 <= k < |init| && init[k] == a[i];
        }
      }
    }
  }

  predicate Distinct(s: seq<Entry>) {
    forall i, j :: 0 <= i < j < |s| ==> s[i] != s[j]
  }

  lemma {:induction false} DistinctFromMultiset(s: seq<Entry>)
    requires forall x :: multiset(s)[x] <= 1
    ensures Distinct(s)
  {
    if |s| > 0 {
      var t := s[1..];
      assert s == [s[0]] + t;
      assert forall x :: multiset(t)[x] <= multiset(s)[x];
      DistinctFromMultiset(t);
      assert multiset(t)[s[0]] == 0;
      forall j | 0 < j < |s| ensures s[0] != s[j] {
        assert s[j] == t[j - 1] && s[j] in multiset(t);
      }
    }
  }

  lemma {:induction false} MultisetAtMostOne(a: seq<Entry>)
    requires UniqueNames(a)
    ensures forall x :: multiset(a)[x] <= 1
  {
    if |a| > 0 {
      var t := a[1..];
      assert a == [a[0]] + t;
      assert UniqueNames(t);
      MultisetAtMostOne(t);
      forall j | 0 <= j < |t| ensures t[j] != a[0] {
        assert t[j] == a[j + 1];
      }
      assert multiset(t)[a[0]] == 0;
    }
  }

  /** Reordering a list of folders with distinct names keeps the names distinct. */
  lemma UniqueNamesOfPermutation(a: seq<Entry>, b: seq<Entry>)
    requires UniqueNames(a) && multiset(a) == multiset(b)
    ensures UniqueNames(b)
  {
    MultisetAtMostOne(a);
    DistinctFromMultiset(b);
    forall i, j | 0 <= i < j < |b| ensures b[i].name != b[j].name {
      assert b[i] in multiset(a) && b[j] in multiset(a);
      var p :| 0 <= p < |a| && a[p] == b[i];
      var q :| 0 <= q < |a| && a[q] == b[j];
      assert p != q;
    }
  }

  /** The `if subfolders:` test of `main`'s second loop. */
  method HasNumberedChild(item: Entry) returns (b: bool)
    requires item.Dir?
    ensures b == HasNumberedSubfolder(item)
  {
    b := false;
    var subs := Subdirs(item.entries);
    for j := 0 to |subs|
      invariant b <==> exists d :: d in subs[..j] && HasNumberPrefix(d.name)
    {
      assert subs[..j + 1] == subs[..j] + [subs[j]];
      b := b || HasNumberPrefix(subs[j].name);
    }
    assert subs[..|subs|] == subs;
  }

  /** Second loop of `main`: appends to `acc` the folders of `es` that it does not name yet and
      that hold a numbered child folder. */
  lemma AddNumberedStep(acc: seq<Entry>, es: seq<Entry>, i: nat)
    requires i < |es|
    ensures AddNumbered(acc, es[..i + 1]) ==
      var a := AddNumbered(acc, es[..i]);
      if es[i].Dir? && es[i].name !in Names(a) && HasNumberedSubfolder(es[i]) then a + [es[i]] else a
  {
    assert es[..i + 1][..i] == es[..i];
  }

  method AddNumberedFolders(acc: seq<Entry>, es: seq<Entry>) returns (found: seq<Entry>)
    ensures found == AddNumbered(acc, es)
  {
    found := acc;
    for i := 0 to |es|
      invariant found == AddNumbered(acc, es[..i])
    {
      var item := es[i];
      AddNumberedStep(acc, es, i);
      if item.Dir? && item.name !in Names(found) {
        var numbered := HasNumberedChild(item);
        if numbered {
          found := found + [item];
        }
      }
    }
    assert es[..|es|] == es;
  }

  /** `main`: collects the pattern folders in two passes over the root, then sorts them. */
  method DiscoverPatternFolders(es: seq<Entry>) returns (ps: seq<Entry>)
    ensures ps == PatternFolders(es)
  {
    var found := [];
    for i := 0 to |es|
      invariant found == NamedPatterns(es[..i])
    {
      assert es[..i + 1][..i] == es[..i];
      if es[i].Dir? && IsPatternName(es[i].name) {
        found := found + [es[i]];
      }
    }
    assert es[..|es|] == es;
    found := AddNumberedFolders(found, es);
    ps := StableSortByKey(found);
  }
}
