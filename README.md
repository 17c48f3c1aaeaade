# Course navigation scripts, modelled in Dafny

Two scripts maintain a static HTML course. The course root holds *pattern folders*. Each pattern folder holds *lesson folders*. Each lesson folder holds `*.html` pages.

- `add_navigation.py` orders the pattern folders and, inside each, the lesson folders, by the number in front of their names. It then rewrites every page of every lesson. Each rewrite strips any navigation block an earlier run left and puts a fixed-position block with two buttons in front of the page's last `</html>`:
  - the left button links to the first page of the previous lesson, or else to the last page of the previous pattern's last lesson, or else is a grey placeholder;
  - the right button links to the first page of the next lesson, or else to the first page of the next pattern's first lesson, or else is a grey placeholder.
- `fix_index_links.py` rewrites the course index. Every link `href="<folder>/"` that names a folder holding pages is pointed at the alphabetically first page of that folder, in one regular-expression substitution pass.

The model has seven modules:

- `Text` (text.dfy): character classes, decimal numerals, substring search, Python's string order and ASCII case folding.
- `Listing` (listing.dfy): the folder tree as values (`Entry`), the `*.html` glob, and the first and last page of a folder.
- `FolderOrder` (folder_order.dfy): `extract_number`, the stable sort by that key, `get_sorted_subfolders`, `clean_folder_name`, and the discovery and ordering of pattern folders in `main`.
- `RelPaths` (paths.dfy): `os.path.relpath` on slash-separated paths.
- `NavBlock` (nav_block.dfy): the navigation markup, the `re.sub` that removes earlier blocks, and the insertion before the last `</html>`.
- `NavLinks` (nav_links.dfy): the targets of each lesson's buttons and the page rewrites of a whole run, in the order the script performs them.
- `IndexLinks` (index_links.dfy): `replace_link` and the `re.sub` pass of `fix_index_html`.

The file system is a value. The tree of folders and files is a sequence of `Entry` values in enumeration order. The readable pages are a map from path to content; a path missing from the map cannot be opened as a text file. A set of paths holds the pages that can also be opened for writing. Each script operation takes the pages before and returns the pages after.

A run of `main` is specified by a *plan*: the sequence of `(page, links)` steps it performs. Applying the plan page by page gives the run's effect.

What is proved about a run:

- Each method equals its specification function.
- In a tree whose folders hold distinct names, the plan names every page at most once. So each page ends up as its old content rewritten once, with its own links.
- A re-run of `add_navigation_buttons` replaces the previous block rather than adding a second one. Each re-run leaves one more newline in front of the block, because the block opens with a newline that the removal pattern does not consume (`NavBlock.RepeatedRunsShape`).
- Running `main` twice over the whole course leaves each page it names with exactly one block, its own, in front of the last `</html>`, after one extra newline (`NavLinks.RunTwiceOneBlock`).
- Running `fix_index_html` a second time changes nothing, provided no page name holds a double quote.

In two places the code does more than its comments suggest. The model follows the code:

- An interior lesson whose neighbour lesson has no page falls back to the adjacent pattern's page. The fallback is not limited to the first and last lesson.
- Every block matching the removal pattern is removed, not just the first.

## Model

| member | source | states |
|---|---|---|
| Text.LeadingDigits | add_navigation.py:22 | the greedy `\d+` run: every character before the returned index is a digit, and the character after it is not |
| Text.ParseNatToDigits | add_navigation.py:23 | `int()` reads back the decimal numeral of any natural number |
| Text.SkipSpacesSpec | add_navigation.py:130 | the greedy `\s*` run passes only blanks and stops at a non-blank or at the end |
| Text.LexLessTotal | add_navigation.py:32 | for any two distinct strings, one precedes the other in Python's code-point order, so the first and the last page of a folder are well defined |
| Listing.Subdirs | add_navigation.py:14 | keeps exactly the folder entries of the listing |
| Listing.SubdirsAppend | add_navigation.py:14 | the folders keep enumeration order: two consecutive runs of entries list as the first run's folders followed by the second's |
| Listing.SubdirsOne | add_navigation.py:14 | one entry lists as itself exactly when it is a folder |
| Listing.HtmlNamesMembers | add_navigation.py:30 | the `*.html` glob keeps exactly the names that end in `.html`, folders included |
| Listing.GlobHtml | add_navigation.py:155 | the loop collects the `*.html` names in enumeration order |
| Listing.FirstHtmlIsSmallest | add_navigation.py:28-34 | none exactly when no name ends in `.html`; otherwise an `.html` name of the folder that no other `.html` name precedes |
| Listing.LastHtmlIsLargest | add_navigation.py:110-116 | none exactly when no name ends in `.html`; otherwise an `.html` name of the folder that no other `.html` name follows |
| Listing.GetFirstHtmlFile | fix_index_links.py:9-15 | returns the first page name, as the sorted glob's head |
| Listing.GetLastHtmlFile | add_navigation.py:110-116 | returns the last page name, as the sorted glob's tail |
| FolderOrder.ExtractNumberReadsNumeral | add_navigation.py:20-23 | a name `<digits>.<rest>` gets the value of its digits, leading zeros allowed |
| FolderOrder.ExtractNumberOfNat | add_navigation.py:20-23 | the folder `"<n>.<rest>"` gets key `n` (round trip with the numeral) |
| FolderOrder.ExtractNumberUnnumbered | add_navigation.py:20-23 | a name without digits directly followed by a period gets the key 9999 |
| FolderOrder.SortByKeyIsStableSort | add_navigation.py:25 | the sorted list is ordered by key, is a permutation of the input, and keeps the input order among equal keys |
| FolderOrder.StableSortByKey | add_navigation.py:25 | the insertion-sort loop yields that stable sort |
| FolderOrder.WithoutMisplaced | add_navigation.py:18 | keeps exactly the folders whose name does not contain `Pattern Fast` |
| FolderOrder.WithoutMisplacedAppend | add_navigation.py:18 | the exclusion keeps list order: two consecutive runs of folders filter to the first run's kept folders followed by the second's |
| FolderOrder.WithoutMisplacedOne | add_navigation.py:18 | one folder is kept exactly when its name lacks `Pattern Fast` |
| FolderOrder.SortedSubfoldersSpec | add_navigation.py:12-26 | outside `3. Pattern Two Pointers` nothing is excluded; the result holds exactly the child folders not excluded, is a permutation of them, sorted by key and stable |
| FolderOrder.GetSortedSubfolders | add_navigation.py:12-26 | the listing, exclusion and sort loops yield `SortedSubfolders` |
| FolderOrder.CleanFolderName | add_navigation.py:129-131 | at most 50 characters, all taken from the name |
| FolderOrder.CleanFolderNameOfNumbered | add_navigation.py:129-131 | `<digits>.<blanks><title>` is shown as the first 50 characters of the title |
| FolderOrder.CleanFolderNameOfUnnumbered | add_navigation.py:129-131 | a name without the numeric prefix is shown as its first 50 characters |
| FolderOrder.NamedPatterns | add_navigation.py:195-198 | keeps exactly the root folders named `<digits>.<blanks>Pattern...` with at least one blank |
| FolderOrder.HasNumberedChild | add_navigation.py:204-205 | true exactly when the folder has a child folder named `<digits>.` |
| FolderOrder.AddNumberedFolders | add_navigation.py:201-206 | the second discovery loop appends each folder not yet listed by name that has a numbered child folder |
| FolderOrder.AddNumberedPrefix | add_navigation.py:201-206 | the second discovery loop only appends, so the folders found by name stay in front |
| FolderOrder.PatternFoldersTies | add_navigation.py:195-213 | among equal keys the sorted pattern folders are those found by name, in enumeration order, followed by those the second loop added, in the order it added them |
| FolderOrder.PatternFoldersSpec | add_navigation.py:195-213 | with distinct root names, the pattern folders are exactly the root folders named like a pattern or holding a numbered child, each once, sorted by key; among equal keys the folders found by name come first in enumeration order, then those the second loop added, in the order it added them |
| FolderOrder.DiscoverPatternFolders | add_navigation.py:195-213 | the two discovery loops and the sort yield `PatternFolders` |
| RelPaths.CommonPrefix | add_navigation.py:39 | the longest common leading run of two paths |
| RelPaths.RelPartsResolve | add_navigation.py:36-43 | the relative path from the page's folder, followed from there, reaches the target |
| RelPaths.RelPathToSibling | add_navigation.py:39-40 | a page of a sibling lesson is reached by `../<lesson>/<page>` |
| RelPaths.RelPathToOtherPattern | add_navigation.py:39-40 | a page of another pattern is reached by `../../<pattern>/<lesson>/<page>` |
| NavBlock.PrevButtonSafe | add_navigation.py:63-71 | with `<`-free names the left button, in each of its three forms, holds no `</d` |
| NavBlock.NextButtonSafe | add_navigation.py:73-81 | with `<`-free names the right button, in each of its three forms, holds no `</d` |
| NavBlock.PrevButtonCases | add_navigation.py:63-71 | the left button links to the previous lesson's page when it exists, else to the previous pattern's page when that exists, else is the grey placeholder; it is a link exactly when one of the two pages exists |
| NavBlock.NextButtonCases | add_navigation.py:73-81 | the right button links to the next lesson's page when it exists, else to the next pattern's page when that exists, else is the grey placeholder; it is a link exactly when one of the two pages exists |
| NavBlock.SpanNotLink | add_navigation.py:70-71 | the grey placeholder is a `<span>`, not a link |
| NavBlock.ButtonsSafe | add_navigation.py:60-83 | the two buttons together hold no `</d`, so the lazy `.*?` of the removal pattern stops at the block's own end |
| NavBlock.MatchOf | add_navigation.py:56-57 | a block followed by a non-blank is exactly one match of the removal pattern, its trailing newline included |
| NavBlock.Strip | add_navigation.py:56-57 | the substitution never lengthens the page; what it removes is stated by `StripNavIdentity`, `StripBlock` and `StripSplice` |
| NavBlock.StripNavIdentity | add_navigation.py:56-57 | a page without the block's signature is left unchanged |
| NavBlock.StripBlock | add_navigation.py:56-57 | a block in front of a page without matches is removed completely |
| NavBlock.LastCi | add_navigation.py:86-92 | the last case-insensitive `</html>` match; none exactly when there is no match |
| NavBlock.StripSplice | add_navigation.py:56-99 | removing a block that was just inserted gives the page back with one newline where the block was |
| NavBlock.RunOnce | add_navigation.py:45-103 | the first run on a page without a block inserts the block at the last `</html>` |
| NavBlock.RunAgain | add_navigation.py:45-103 | one more run replaces the previous block by the new one and adds one newline before it |
| NavBlock.RepeatedRuns | add_navigation.py:45-103 | after any number of runs the page holds only the last block, at the last `</html>`, after one newline per earlier run |
| NavBlock.RepeatedRunsShape | add_navigation.py:45-103 | the same page written out: original text, newlines, last block, rest of the original text |
| NavBlock.RenderTwice | add_navigation.py:45-103 | two runs with the same block on a page without a block leave that block once, after one newline |
| NavLinks.FirstPageSpec | add_navigation.py:28-34 | a lesson's first page is its smallest `.html` name under that lesson; none exactly when it has none |
| NavLinks.LastPageSpec | add_navigation.py:110-116 | a lesson's last page is its largest `.html` name under that lesson; none exactly when it has none |
| NavLinks.NextHopTarget | add_navigation.py:134-141 | the next pattern is entered at the first page of its first lesson, and is named exactly when it has lessons |
| NavLinks.PrevHopTarget | add_navigation.py:144-151 | the previous pattern is entered at the last page of its last lesson, and is named exactly when it has lessons |
| NavLinks.LessonLinksSpec | add_navigation.py:157-186 | neighbours link to their first page and display name; a pattern target is passed exactly when the neighbour page is missing and the pattern target exists |
| NavLinks.ApplyStep | add_navigation.py:45-108 | a page that can be read and written gets rewritten; one that cannot stays as it was; no page is created, and every other page stays as it was |
| NavLinks.ApplyStepSkips | add_navigation.py:106-108 | a step on a page that cannot be read or cannot be written changes nothing |
| NavLinks.ApplyPlanFrame | add_navigation.py:218-223 | a run never creates or deletes a page and leaves every page it does not name unchanged |
| NavLinks.PatternPlanDistinct | add_navigation.py:118-188 | one pattern folder's rewrites name each page once |
| NavLinks.SitePlanDistinct | add_navigation.py:190-223 | a whole run names each page once |
| NavLinks.RunRewritesEachPageOnce | add_navigation.py:190-223 | after `main`, each page the run names that can be read and written holds its old content rewritten exactly once, with its own links |
| NavLinks.RewriteTwice | add_navigation.py:45-103 | rewriting a page without a block twice with the same links leaves the page's own block once, after one newline |
| NavLinks.ApplyDistinctPlanTwice | add_navigation.py:218-223 | applying a plan that names each page once, twice, rewrites each named page exactly twice |
| NavLinks.RunTwiceOneBlock | add_navigation.py:190-223 | after two runs of `main`, each named page holds its original text with one newline and its own block in front of the last `</html>` |
| NavLinks.SpliceCases | add_navigation.py:85-99 | the block goes in front of the last `</html>` in any letter case, or at the end when there is none |
| NavLinks.InsertNav | add_navigation.py:85-99 | computes that insertion |
| NavLinks.RewritePage | add_navigation.py:56-99 | strips earlier blocks, builds the block for the page's links, inserts it |
| NavLinks.AddNavigationButtons | add_navigation.py:45-108 | reports success exactly when the page can be read and opened for writing; the pages after are those of one rewrite step |
| NavLinks.FindFirstPage | add_navigation.py:28-34 | returns the lesson's first page |
| NavLinks.FindLastPage | add_navigation.py:110-116 | returns the lesson's last page |
| NavLinks.NextPatternHop | add_navigation.py:134-141 | computes the next pattern's target and name |
| NavLinks.PrevPatternHop | add_navigation.py:144-151 | computes the previous pattern's target and name |
| NavLinks.PatternHops | add_navigation.py:133-151 | computes both adjacent patterns' targets |
| NavLinks.LinksFor | add_navigation.py:157-172 | computes the arguments every page of lesson `i` is rewritten with |
| NavLinks.ProcessLesson | add_navigation.py:174-186 | the page loop performs the lesson's rewrites in glob order |
| NavLinks.ProcessLessonAt | add_navigation.py:154-186 | one turn of the lesson loop performs one more lesson's rewrites |
| NavLinks.ProcessLessons | add_navigation.py:153-188 | the lesson loop performs every lesson's rewrites in lesson order |
| NavLinks.ProcessPatternFolder | add_navigation.py:118-188 | performs the pattern's plan; a pattern without lessons changes nothing |
| NavLinks.Run | add_navigation.py:190-223 | performs the site plan: each pattern in sorted order, with its neighbours |
| IndexLinks.LinkMatchIff | fix_index_links.py:27 | a match is exactly `href="`, a quote-free value of two or more characters ending in `/`, and a closing quote |
| IndexLinks.RStripSlash | fix_index_links.py:32 | removes exactly the trailing slashes |
| IndexLinks.ReplaceLinkSpec | fix_index_links.py:29-42 | a link to an existing folder that holds a page becomes `href="<folder>/<smallest page>"`; any other link is kept as it was |
| IndexLinks.SubNoHref | fix_index_links.py:45 | a text without `href="` is written back unchanged |
| IndexLinks.FixIndexHtml | fix_index_links.py:17-49 | reports success exactly when the index can be read and opened for writing; then only the index changes, to its links fixed in one pass; otherwise nothing changes |
| IndexLinks.ReplaceLinkSettles | fix_index_links.py:29-42 | when no page name of a listed folder holds a double quote, a quote-free link is kept or becomes a link that the pattern no longer matches |
| IndexLinks.SubIdempotent | fix_index_links.py:45 | a replacement that keeps or settles every link makes the pass idempotent |
| IndexLinks.FixIndexIdempotent | fix_index_links.py:45 | when no page name of a listed folder holds a double quote, fixing an already fixed index changes nothing |
| IndexLinks.FixIndexTwice | fix_index_links.py:17-49 | when no page name of a listed folder holds a double quote, a second run of `fix_index_html` leaves every page as the first run left it |
| IndexLinks.QuotedPageFirstPass | fix_index_links.py:29-45 | with a single page named `".html` in folder `f`, one pass turns `href="f/"` into `href="f/".html"` |
| IndexLinks.QuotedPageSecondPass | fix_index_links.py:27-45 | the pattern matches that link again, so a second pass lengthens it |
| IndexLinks.QuotedPageNameUnsettled | fix_index_links.py:27-45 | the condition is needed: with a page named `".html`, `href="f/"` becomes `href="f/".html"`, which a second pass rewrites again |

## Left out

- Reading and writing files are modelled as a map from path to content. Decoding is not modelled. This covers `errors='ignore'` in add_navigation.py and a strict read that can fail in fix_index_links.py.
- The console messages are left out. A page that cannot be read, or cannot be opened for writing, is modelled: `add_navigation_buttons` reports false and the page is left unchanged (add_navigation.py:106-108); in fix_index_links.py the script stops with the index unchanged. Other exceptions are not modelled:
  - a write that fails after the file was opened, for example on a full disk or on a name that cannot be encoded as UTF-8; `open(html_file, 'w')` has already truncated the page, so the page is left empty and `add_navigation_buttons` reports false (add_navigation.py:101-108);
  - a folder listing or glob that fails inside `process_pattern_folder` (add_navigation.py:120, 137, 147, 155), which `main` catches per pattern folder (add_navigation.py:225-227), so that pattern's remaining pages are skipped.
- `FolderOrder.DiscoverPatternFolders`: always succeeds. In the source the discovery listings of `main` (add_navigation.py:196, 201 and 204: the root twice, then every root folder not found by name) are outside any `try`, so an unreadable root, or an unreadable folder under it, stops `main` before any page is rewritten. That failure is not modelled.
- Page contents are the text after Python's universal-newline translation: both scripts open files in text mode, so `\r\n` and a lone `\r` are read as `\n` and written back as `\n` (add_navigation.py:51 and 102, fix_index_links.py:22 and 48). `NavLinks.RunRewritesEachPageOnce`, `NavBlock.RepeatedRunsShape` and `NavLinks.RunTwiceOneBlock` describe that translated text, not the bytes on disk.
- `pathlib` path normalisation is left out. In fix_index_links.py, a link's folder is looked up by its text with the trailing slashes removed. A folder reached through `..`, `.` or doubled slashes is found only if that text is a key of the lookup.
- The Windows fallback of `get_relative_path`, for files on different drives, is left out. Paths are relative to one root.
- `\d` is modelled as ASCII digits only. Python also accepts other Unicode decimal digits.
- Case-insensitive matching of `</html>` folds ASCII letters only.
- `Listing.GetFirstHtmlFile`: scans for the smallest name instead of sorting the list. The result is the same.
- `Listing.GetLastHtmlFile`: scans for the largest name instead of sorting the list. The result is the same.
- `re.sub` is modelled as the recursive functions `NavBlock.Strip` and `IndexLinks.Sub`, which scan left to right without overlap as Python's engine does. The engine itself is not modelled.
- `IndexLinks.FixIndexIdempotent`: stated only when no page name (a name ending in `.html`) of a listed folder holds a double quote. Such a name produces a link that the pattern matches again (`IndexLinks.QuotedPageNameUnsettled`); other entry names may hold quotes.
- `IndexLinks.FixIndexTwice`: stated under the same condition on page names, for the same reason.
- `NavBlock.RepeatedRuns`, `NavBlock.RepeatedRunsShape`, `NavBlock.RenderTwice`, `NavLinks.RewriteTwice` and `NavLinks.RunTwiceOneBlock`: stated only for a page that held no navigation block before the first run and for folder and page names without `<`. A `<` in a name could end the removal pattern's lazy match early.
- `NavLinks.RunRewritesEachPageOnce` and `NavLinks.RunTwiceOneBlock`: stated for a tree in which each folder holds entries with distinct names, as a file system guarantees.
- The order in which `iterdir` and `glob` enumerate entries is an input: the order of each folder's `Entry` sequence.
