/** The navigation block of add_navigation.py (`add_navigation_buttons`): its
    markup, the removal of earlier blocks with the `nav_pattern` substitution,
    and its insertion before the last `</html>`. */
module NavBlock {
  import opened Text
  import opened RelPaths

  /** No occurrence of `c` in `s`. */
  predicate NoChar(s: string, c: char) {
    forall i :: 0 <= i < |s| ==> s[i] != c
  }

  /** Text that cannot open a tag. */
  predicate Plain(s: string) {
    NoChar(s, '<')
  }

  /** `s[k]` is not a `<` that could start `</d`: one is followed, inside `s`, by another
      character than `/`, or by `/` and another character than `d`. */
  predicate SafeAt(s: string, k: nat)
    requires k < |s|
  {
    s[k] == '<' ==> k + 1 < |s| && (s[k + 1] != '/' || (k + 2 < |s| && s[k + 2] != 'd'))
  }

  /** No `</div></div>` can start in `s`, whatever follows it. */
  predicate SafeLt(s: string) {
    forall k: nat :: k < |s| ==> SafeAt(s, k)
  }

  lemma NoCharAppend(a: string, b: string, c: char)
    requires NoChar(a, c) && NoChar(b, c)
    ensures NoChar(a + b, c)
  {
  }

  lemma NoCharAppend3(a: string, b: string, d: string, e: string, c: char)
    requires NoChar(a, c) && NoChar(b, c) && NoChar(d, c) && NoChar(e, c)
    ensures NoChar(a + b + d + e, c)
  {
    NoCharAppend(a, b, c);
    NoCharAppend(a + b, d, c);
    NoCharAppend(a + b + d, e, c);
  }

  lemma SafeLtAppend(a: string, b: string)
    requires SafeLt(a) && SafeLt(b)
    ensures SafeLt(a + b)
  {
    var s := a + b;
    forall k: nat | k < |s| ensures SafeAt(s, k) {
      if k < |a| {
        assert SafeAt(a, k);
        if k + 1 < |a| { assert s[k + 1] == a[k + 1]; }
        if k + 2 < |a| { assert s[k + 2] == a[k + 2]; }
      } else {
        var j := k - |a|;
        assert SafeAt(b, j);
        if j + 1 < |b| { assert s[k + 1] == b[j + 1]; }
        if j + 2 < |b| { assert s[k + 2] == b[j + 2]; }
      }
    }
  }

  lemma SafeAppendPlain(a: string, b: string)
    requires SafeLt(a) && Plain(b)
    ensures SafeLt(a + b)
  {
    PlainSafeLt(b);
    SafeLtAppend(a, b);
  }

  lemma SafeAppendPlain3(a: string, b: string, d: string, e: string)
    requires SafeLt(a) && Plain(b) && Plain(d) && Plain(e)
    ensures SafeLt(a + b + d + e)
  {
    SafeAppendPlain(a, b);
    SafeAppendPlain(a + b, d);
    SafeAppendPlain(a + b + d, e);
  }

  lemma PlainSafeLt(s: string)
    requires Plain(s)
    ensures SafeLt(s)
  {
  }

  /** A `<`-free middle between two safe ends is safe. */
  lemma SafeAround(a: string, m: string, c: string)
    requires SafeLt(a) && Plain(m) && SafeLt(c)
    ensures SafeLt(a + m + c)
  {
    SafeAppendPlain(a, m);
    SafeLtAppend(a + m, c);
  }

  // ---------------------------------------------------------------------------
  // The markup. Long literals are written in short pieces; the text is their
  // concatenation, character for character.

  /** The literal start of `nav_pattern`, which is also how `nav_html` opens. */
  function Sig(): string {
    "<div style=" + "\"position:" + " fixed;" + " bottom: 20px;" + " right: 20px"
  }

  /** The rest of the outer `div`'s opening tag, without its closing `>`. */
  function OpenBody(): string {
    "; z-index:" + " 10000;" + " background:" + " white;" + " padding:" + " 15px;"
    + " border-radius:" + " 8px;" + " box-shadow:" + " 0 4px 12px" + " rgba(0,0,0,0.3);"
    + " font-family:" + " Arial," + " sans-serif;" + " border:" + " 2px solid" + " #ddd;\""
  }

  /** The inner flex `div`. */
  function Inner(): string {
    "<div style=" + "\"display:" + " flex;" + " gap: 10px;" + " align-items:" + " center;"
    + " flex-wrap:" + " wrap;\">"
  }

  /** The end of the block, and of every `nav_pattern` match before its trailing blanks. */
  function Close(): string { "</div>" + "</div>" }

  /** Everything of `nav_html` before the two buttons. */
  function Head(): string { Sig() + OpenBody() + ">" + Inner() }

  function PrevBg(): string { "#007bff" }
  function PrevHover(): string { "#0056b3" }
  function NextBg(): string { "#28a745" }
  function NextHover(): string { "#218838" }
  function PatternBg(): string { "#6f42c1" }
  function PatternHover(): string { "#5a32a3" }

  function PrevLabel(): string { "\U{2190} Previous: " }
  function PrevPatternLabel(): string { "\U{2190} Previous" + " Pattern: " }
  function NextLabel(): string { "Next: " }
  function NextPatternLabel(): string { "Next Pattern: " }
  function RightArrow(): string { " \U{2192}" }
  function PrevDisabled(): string { "\U{2190} Previous" }
  function NextDisabled(): string { "Next \U{2192}" }

  function AnchorOpen(): string { "<a href=\"" }
  function AnchorStyle(): string { "\" style=" + "\"padding:" + " 12px 20px;" + " background: " }
  function AnchorRest(): string {
    "; color:" + " white;" + " text-decoration:" + " none;" + " border-radius:" + " 5px;"
    + " font-weight:" + " bold;" + " white-space:" + " nowrap;" + " transition:" + " background"
    + " 0.3s;\"" + " onmouseover=" + "\"this.style" + ".background='"
  }
  function AnchorOut(): string { "'\"" + " onmouseout=" + "\"this.style" + ".background='" }
  function AnchorEnd(): string { "'\">" }
  function AnchorClose(): string { "</a>" }

  function SpanOpen(): string {
    "<span style=" + "\"padding:" + " 12px 20px;" + " background:" + " #ccc;" + " color: #666;"
    + " border-radius:" + " 5px;" + " font-weight:" + " bold;" + " cursor:" + " not-allowed;"
    + " white-space:" + " nowrap;\">"
  }
  function SpanClose(): string { "</span>" }

  /** The attributes of a link button after `<a href="`, up to its closing `>`. */
  function AnchorAttrs(href: string, bg: string, hover: string): string {
    href + AnchorStyle() + bg + AnchorRest() + hover + AnchorOut() + bg + AnchorEnd()
  }

  /** A coloured link button. */
  function Anchor(href: string, bg: string, hover: string, text: string): string {
    AnchorOpen() + (AnchorAttrs(href, bg, hover) + text) + AnchorClose()
  }

  /** A grey button that links nowhere. */
  function DisabledSpan(text: string): string {
    SpanOpen() + text + SpanClose()
  }

  /** The block around the two buttons `buttons`, as `nav_html` ends up. */
  function Block(buttons: string): string {
    "\n" + Head() + buttons + Close() + "\n"
  }

  lemma SigFacts()
    ensures |Sig()| > 0 && Sig()[0] == '<' && NoChar(Sig(), '\n')
  {
    NoCharAppend3("<div style=", "\"position:", " fixed;", " bottom: 20px;", '\n');
    NoCharAppend("<div style=" + "\"position:" + " fixed;" + " bottom: 20px;", " right: 20px", '\n');
  }

  lemma OpenBodyFacts()
    ensures NoChar(OpenBody(), '>')
  {
    NoCharAppend3("; z-index:", " 10000;", " background:", " white;", '>');
    NoCharAppend3("; z-index:" + " 10000;" + " background:" + " white;", " padding:", " 15px;", " border-radius:", '>');
    NoCharAppend3("; z-index:" + " 10000;" + " background:" + " white;" + " padding:" + " 15px;" + " border-radius:", " 8px;", " box-shadow:", " 0 4px 12px", '>');
    NoCharAppend3("; z-index:" + " 10000;" + " background:" + " white;" + " padding:" + " 15px;" + " border-radius:" + " 8px;" + " box-shadow:" + " 0 4px 12px", " rgba(0,0,0,0.3);", " font-family:", " Arial,", '>');
    NoCharAppend3("; z-index:" + " 10000;" + " background:" + " white;" + " padding:" + " 15px;" + " border-radius:" + " 8px;" + " box-shadow:" + " 0 4px 12px" + " rgba(0,0,0,0.3);" + " font-family:" + " Arial,", " sans-serif;", " border:", " 2px solid", '>');
    NoCharAppend("; z-index:" + " 10000;" + " background:" + " white;" + " padding:" + " 15px;" + " border-radius:" + " 8px;" + " box-shadow:" + " 0 4px 12px" + " rgba(0,0,0,0.3);" + " font-family:" + " Arial," + " sans-serif;" + " border:" + " 2px solid", " #ddd;\"", '>');
  }

  lemma InnerSafe()
    ensures SafeLt(Inner())
  {
    assert SafeLt("<div style=") by {}
    SafeAppendPlain3("<div style=", "\"display:", " flex;", " gap: 10px;");
    SafeAppendPlain3("<div style=" + "\"display:" + " flex;" + " gap: 10px;", " align-items:", " center;", " flex-wrap:");
    SafeAppendPlain("<div style=" + "\"display:" + " flex;" + " gap: 10px;" + " align-items:" + " center;" + " flex-wrap:", " wrap;\">");
  }

  lemma AnchorStylePlain()
    ensures Plain(AnchorStyle())
  {
    NoCharAppend3("\" style=", "\"padding:", " 12px 20px;", " background: ", '<');
  }

  lemma AnchorRestPlain()
    ensures Plain(AnchorRest())
  {
    NoCharAppend3("; color:", " white;", " text-decoration:", " none;", '<');
    NoCharAppend3("; color:" + " white;" + " text-decoration:" + " none;", " border-radius:", " 5px;", " font-weight:", '<');
    NoCharAppend3("; color:" + " white;" + " text-decoration:" + " none;" + " border-radius:" + " 5px;" + " font-weight:", " bold;", " white-space:", " nowrap;", '<');
    NoCharAppend3("; color:" + " white;" + " text-decoration:" + " none;" + " border-radius:" + " 5px;" + " font-weight:" + " bold;" + " white-space:" + " nowrap;", " transition:", " background", " 0.3s;\"", '<');
    NoCharAppend3("; color:" + " white;" + " text-decoration:" + " none;" + " border-radius:" + " 5px;" + " font-weight:" + " bold;" + " white-space:" + " nowrap;" + " transition:" + " background" + " 0.3s;\"", " onmouseover=", "\"this.style", ".background='", '<');
  }

  lemma AnchorTagsFacts()
    ensures Plain(AnchorOut()) && Plain(AnchorEnd())
    ensures SafeLt(AnchorOpen()) && SafeLt(AnchorClose())
  {
    assert Plain(AnchorOut()) by {}
    assert Plain(AnchorEnd()) by {}
    assert SafeLt(AnchorOpen()) by {}
    assert SafeLt(AnchorClose()) by {}
  }

  lemma SpanOpenSafe()
    ensures SafeLt(SpanOpen())
  {
    assert SafeLt("<span style=") by {}
    SafeAppendPlain3("<span style=", "\"padding:", " 12px 20px;", " background:");
    SafeAppendPlain3("<span style=" + "\"padding:" + " 12px 20px;" + " background:", " #ccc;", " color: #666;", " border-radius:");
    SafeAppendPlain3("<span style=" + "\"padding:" + " 12px 20px;" + " background:" + " #ccc;" + " color: #666;" + " border-radius:", " 5px;", " font-weight:", " bold;");
    SafeAppendPlain3("<span style=" + "\"padding:" + " 12px 20px;" + " background:" + " #ccc;" + " color: #666;" + " border-radius:" + " 5px;" + " font-weight:" + " bold;", " cursor:", " not-allowed;", " white-space:");
    SafeAppendPlain("<span style=" + "\"padding:" + " 12px 20px;" + " background:" + " #ccc;" + " color: #666;" + " border-radius:" + " 5px;" + " font-weight:" + " bold;" + " cursor:" + " not-allowed;" + " white-space:", " nowrap;\">");
  }

  lemma ColorsPlain()
    ensures Plain(PrevBg()) && Plain(PrevHover()) && Plain(NextBg()) && Plain(NextHover())
    ensures Plain(PatternBg()) && Plain(PatternHover())
  {
    assert Plain(PrevBg()) && Plain(PrevHover()) by {}
    assert Plain(NextBg()) && Plain(NextHover()) by {}
    assert Plain(PatternBg()) && Plain(PatternHover()) by {}
  }

  lemma LabelsPlain()
    ensures Plain(PrevLabel()) && Plain(PrevPatternLabel()) && Plain(NextLabel())
    ensures Plain(NextPatternLabel()) && Plain(RightArrow()) && Plain(PrevDisabled()) && Plain(NextDisabled())
  {
    assert Plain(PrevLabel()) && Plain(PrevPatternLabel()) by {}
    assert Plain(NextLabel()) && Plain(NextPatternLabel()) by {}
    assert Plain(RightArrow()) by {}
    assert Plain(PrevDisabled()) && Plain(NextDisabled()) by {}
  }

  lemma AnchorAttrsPlain(href: string, bg: string, hover: string)
    requires Plain(href) && Plain(bg) && Plain(hover)
    ensures Plain(AnchorAttrs(href, bg, hover))
  {
    AnchorStylePlain();
    AnchorRestPlain();
    AnchorTagsFacts();
    var m1 := href + AnchorStyle() + bg + AnchorRest() + hover;
    NoCharAppend(href, AnchorStyle(), '<');
    NoCharAppend(href + AnchorStyle(), bg, '<');
    NoCharAppend(href + AnchorStyle() + bg, AnchorRest(), '<');
    NoCharAppend(href + AnchorStyle() + bg + AnchorRest(), hover, '<');
    NoCharAppend(m1, AnchorOut(), '<');
    NoCharAppend(m1 + AnchorOut(), bg, '<');
    NoCharAppend(m1 + AnchorOut() + bg, AnchorEnd(), '<');
  }

  /** A link button with a `<`-free target and text cannot end the block early. */
  lemma AnchorSafe(href: string, bg: string, hover: string, text: string)
    requires Plain(href) && Plain(bg) && Plain(hover) && Plain(text)
    ensures SafeLt(Anchor(href, bg, hover, text))
  {
    AnchorAttrsPlain(href, bg, hover);
    NoCharAppend(AnchorAttrs(href, bg, hover), text, '<');
    AnchorTagsFacts();
    SafeAround(AnchorOpen(), AnchorAttrs(href, bg, hover) + text, AnchorClose());
  }

  lemma DisabledSpanSafe(text: string)
    requires Plain(text)
    ensures SafeLt(DisabledSpan(text))
  {
    SpanOpenSafe();
    assert SafeLt(SpanClose()) by {}
    SafeAround(SpanOpen(), text, SpanClose());
  }

  // ---------------------------------------------------------------------------
  // The two buttons.

  /** The arguments of `add_navigation_buttons` after the page itself: the direct
      neighbours with their folder names, and the pages of the adjacent pattern folders. */
  datatype Links = Links(
    prev: Option<Path>, next: Option<Path>,
    prevName: Option<string>, nextName: Option<string>,
    nextPattern: Option<Path>, nextPatternName: Option<string>,
    prevPattern: Option<Path>, prevPatternName: Option<string>)

  /** How a formatted string shows an optional name: an absent one prints as `None`. */
  function Show(o: Option<string>): string {
    if o.Some? then o.value else "None"
  }

  /** The left button: the previous folder's page, else the previous pattern's, else grey. */
  function PrevButton(page: Path, l: Links): string {
    if l.prev.Some? then
      Anchor(RelPath(page, l.prev.value), PrevBg(), PrevHover(), PrevLabel() + Show(l.prevName))
    else if l.prevPattern.Some? then
      Anchor(RelPath(page, l.prevPattern.value), PatternBg(), PatternHover(),
             PrevPatternLabel() + Show(l.prevPatternName))
    else DisabledSpan(PrevDisabled())
  }

  /** The right button: the next folder's page, else the next pattern's, else grey. */
  function NextButton(page: Path, l: Links): string {
    if l.next.Some? then
      Anchor(RelPath(page, l.next.value), NextBg(), NextHover(), NextLabel() + Show(l.nextName) + RightArrow())
    else if l.nextPattern.Some? then
      Anchor(RelPath(page, l.nextPattern.value), PatternBg(), PatternHover(),
             NextPatternLabel() + Show(l.nextPatternName) + RightArrow())
    else DisabledSpan(NextDisabled())
  }

  /** Which rendering the left button gets: the previous lesson's link when that page exists,
      else the previous pattern's link when that page exists, else the grey placeholder; so
      it is a link (it opens with `<a href="`) exactly when one of the two pages exists. */
  lemma PrevButtonCases(page: Path, l: Links)
    ensures l.prev.Some? ==>
              PrevButton(page, l)
              == Anchor(RelPath(page, l.prev.value), PrevBg(), PrevHover(), PrevLabel() + Show(l.prevName))
    ensures l.prev.None? && l.prevPattern.Some? ==>
              PrevButton(page, l)
              == Anchor(RelPath(page, l.prevPattern.value), PatternBg(), PatternHover(),
                        PrevPatternLabel() + Show(l.prevPatternName))
    ensures l.prev.None? && l.prevPattern.None? ==> PrevButton(page, l) == DisabledSpan(PrevDisabled())
    ensures IsLink(PrevButton(page, l)) <==> l.prev.Some? || l.prevPattern.Some?
  {
    if l.prev.Some? {
      AnchorIsLink(RelPath(page, l.prev.value), PrevBg(), PrevHover(), PrevLabel() + Show(l.prevName));
    } else if l.prevPattern.Some? {
      AnchorIsLink(RelPath(page, l.prevPattern.value), PatternBg(), PatternHover(),
                   PrevPatternLabel() + Show(l.prevPatternName));
    } else {
      SpanNotLink(PrevDisabled());
    }
  }

  /** Which rendering the right button gets, in the same order on the following side. */
  lemma NextButtonCases(page: Path, l: Links)
    ensures l.next.Some? ==>
              NextButton(page, l)
              == Anchor(RelPath(page, l.next.value), NextBg(), NextHover(),
                        NextLabel() + Show(l.nextName) + RightArrow())
    ensures l.next.None? && l.nextPattern.Some? ==>
              NextButton(page, l)
              == Anchor(RelPath(page, l.nextPattern.value), PatternBg(), PatternHover(),
                        NextPatternLabel() + Show(l.nextPatternName) + RightArrow())
    ensures l.next.None? && l.nextPattern.None? ==> NextButton(page, l) == DisabledSpan(NextDisabled())
    ensures IsLink(NextButton(page, l)) <==> l.next.Some? || l.nextPattern.Some?
  {
    if l.next.Some? {
      AnchorIsLink(RelPath(page, l.next.value), NextBg(), NextHover(),
                   NextLabel() + Show(l.nextName) + RightArrow());
    } else if l.nextPattern.Some? {
      AnchorIsLink(RelPath(page, l.nextPattern.value), PatternBg(), PatternHover(),
                   NextPatternLabel() + Show(l.nextPatternName) + RightArrow());
    } else {
      SpanNotLink(NextDisabled());
    }
  }

  /** A coloured button opens like a link. */
  lemma AnchorIsLink(href: string, bg: string, hover: string, text: string)
    ensures IsLink(Anchor(href, bg, hover, text))
  {
    var rest := AnchorAttrs(href, bg, hover) + text;
    assert Anchor(href, bg, hover, text) == AnchorOpen() + (rest + AnchorClose());
  }

  /** A button that opens like a link. */
  predicate IsLink(b: string) {
    |b| >= |AnchorOpen()| && b[..|AnchorOpen()|] == AnchorOpen()
  }

  /** The grey placeholder does not open like a link. */
  lemma SpanNotLink(text: string)
    ensures !IsLink(DisabledSpan(text))
  {
    var b := DisabledSpan(text);
    assert b[1] == 's' && AnchorOpen()[1] == 'a';
  }

  /** `nav_html` for the page `page`. */
  function NavHtml(page: Path, l: Links): string {
    Block(PrevButton(page, l) + NextButton(page, l))
  }

  predicate PlainPath(p: Path) {
    forall i :: 0 <= i < |p| ==> Plain(p[i])
  }

  predicate PlainName(o: Option<string>) {
    o.Some? ==> Plain(o.value)
  }

  predicate PlainTarget(o: Option<Path>) {
    o.Some? ==> PlainPath(o.value)
  }

  /** Folder and file names without `<`, which is all the block needs to be found again. */
  predicate PlainLinks(l: Links) {
    PlainTarget(l.prev) && PlainTarget(l.next) && PlainTarget(l.nextPattern) && PlainTarget(l.prevPattern)
    && PlainName(l.prevName) && PlainName(l.nextName)
    && PlainName(l.nextPatternName) && PlainName(l.prevPatternName)
  }

  lemma {:induction false} JoinPlain(parts: Path)
    requires PlainPath(parts)
    ensures Plain(Join(parts))
  {
    if |parts| > 1 {
      JoinPlain(parts[1..]);
      assert Plain("/") by {}
      NoCharAppend(parts[0], "/", '<');
      NoCharAppend(parts[0] + "/", Join(parts[1..]), '<');
    }
  }

  lemma RelPathPlain(page: Path, to: Path)
    requires PlainPath(to)
    ensures Plain(RelPath(page, to))
  {
    var start := Parent(page);
    var c := CommonPrefix(start, to);
    assert Plain("..") by {}
    assert Plain(".") by {}
    assert PlainPath(Ups(|start| - c) + to[c..]);
    JoinPlain(RelParts(start, to));
  }

  lemma ShowPlain(o: Option<string>, before: string)
    requires PlainName(o) && Plain(before)
    ensures Plain(before + Show(o))
  {
    assert Plain("None") by {}
    NoCharAppend(before, Show(o), '<');
  }

  /** A link button to `to` labelled `label` then the optional name: safe with plain parts. */
  lemma LinkButtonSafe(page: Path, to: Path, bg: string, hover: string, text: string)
    requires PlainPath(to) && Plain(bg) && Plain(hover) && Plain(text)
    ensures SafeLt(Anchor(RelPath(page, to), bg, hover, text))
  {
    RelPathPlain(page, to);
    AnchorSafe(RelPath(page, to), bg, hover, text);
  }

  lemma PrevButtonSafe(page: Path, l: Links)
    requires PlainLinks(l)
    ensures SafeLt(PrevButton(page, l))
  {
    ColorsPlain();
    LabelsPlain();
    if l.prev.Some? {
      ShowPlain(l.prevName, PrevLabel());
      LinkButtonSafe(page, l.prev.value, PrevBg(), PrevHover(), PrevLabel() + Show(l.prevName));
    } else if l.prevPattern.Some? {
      ShowPlain(l.prevPatternName, PrevPatternLabel());
      LinkButtonSafe(page, l.prevPattern.value, PatternBg(), PatternHover(), PrevPatternLabel() + Show(l.prevPatternName));
    } else {
      DisabledSpanSafe(PrevDisabled());
    }
  }

  lemma NextButtonSafe(page: Path, l: Links)
    requires PlainLinks(l)
    ensures SafeLt(NextButton(page, l))
  {
    ColorsPlain();
    LabelsPlain();
    if l.next.Some? {
      ShowPlain(l.nextName, NextLabel());
      NoCharAppend(NextLabel() + Show(l.nextName), RightArrow(), '<');
      LinkButtonSafe(page, l.next.value, NextBg(), NextHover(), NextLabel() + Show(l.nextName) + RightArrow());
    } else if l.nextPattern.Some? {
      ShowPlain(l.nextPatternName, NextPatternLabel());
      NoCharAppend(NextPatternLabel() + Show(l.nextPatternName), RightArrow(), '<');
      LinkButtonSafe(page, l.nextPattern.value, PatternBg(), PatternHover(),
                     NextPatternLabel() + Show(l.nextPatternName) + RightArrow());
    } else {
      DisabledSpanSafe(NextDisabled());
    }
  }

  /** With `<`-free names the buttons cannot contain the end of the block. */
  lemma ButtonsSafe(page: Path, l: Links)
    requires PlainLinks(l)
    ensures SafeLt(PrevButton(page, l) + NextButton(page, l))
  {
    PrevButtonSafe(page, l);
    NextButtonSafe(page, l);
    SafeLtAppend(PrevButton(page, l), NextButton(page, l));
  }

  // ---------------------------------------------------------------------------
  // Removing earlier blocks: `re.sub(nav_pattern, '', content, flags=re.DOTALL)`.
  // The pattern is `<sig>[^>]*>.*?<close>\s*` for a literal start `sig` and a literal
  // end `close`; `nav_pattern` is the one with `Sig()` and `Close()`.

  /** Where a match starting at the front of `s` ends, if there is one: `sig`, up to the
      first `>`, the shortest run up to `close`, then every blank after it. */
  function MatchAt(s: string, sig: string, close: string): (r: Option<nat>)
    ensures r.Some? ==> OccursAt(s, sig, 0) && |sig| < r.value <= |s|
  {
    if !OccursAt(s, sig, 0) then None
    else match IndexOfChar(s, '>', |sig|)
      case None => None
      case Some(g) =>
        match IndexOf(s, close, g + 1)
        case None => None
        case Some(c) => Some(SkipSpaces(s, c + |close|))
  }

  /** The substitution: scanning left to right, each match is dropped and scanning
      resumes after it; any other character is kept. */
  function Strip(s: string, sig: string, close: string): (r: string)
    ensures |r| <= |s|
    decreases |s|
  {
    if |s| == 0 then ""
    else match MatchAt(s, sig, close)
      case Some(e) => Strip(s[e..], sig, close)
      case None => [s[0]] + Strip(s[1..], sig, close)
  }

  /** `re.sub(nav_pattern, '', s, flags=re.DOTALL)`. */
  function StripNav(s: string): string {
    Strip(s, Sig(), Close())
  }

  /** A match in the tail of `s` is a match in `s`, one index further. */
  lemma OccursInTail(s: string, sig: string, k: nat)
    requires |s| > 0 && !OccursAt(s, sig, k + 1)
    ensures !OccursAt(s[1..], sig, k)
  {
    if k + |sig| <= |s[1..]| {
      assert s[1..][k..k + |sig|] == s[k + 1..k + 1 + |sig|];
    }
  }

  /** A prefix in which no match can start is kept as it is. */
  lemma {:induction false} StripKeepsPrefix(a: string, b: string, sig: string, close: string)
    requires forall k :: 0 <= k < |a| ==> !OccursAt(a + b, sig, k)
    ensures Strip(a + b, sig, close) == a + Strip(b, sig, close)
  {
    if |a| > 0 {
      var s := a + b;
      assert !OccursAt(s, sig, 0);
      assert s[1..] == a[1..] + b;
      forall k | 0 <= k < |a| - 1 ensures !OccursAt(a[1..] + b, sig, k) {
        OccursInTail(s, sig, k);
      }
      StripKeepsPrefix(a[1..], b, sig, close);
      StripFirst(s, sig, close);
      var rest := Strip(b, sig, close);
      assert [a[0]] + (a[1..] + rest) == ([a[0]] + a[1..]) + rest;
      assert a == [a[0]] + a[1..];
    } else {
      assert a + b == b;
    }
  }

  /** Where no match starts at the front, the first character is kept. */
  lemma StripFirst(s: string, sig: string, close: string)
    requires |s| > 0 && !OccursAt(s, sig, 0)
    ensures Strip(s, sig, close) == [s[0]] + Strip(s[1..], sig, close)
  {
  }

  lemma StripIdentity(d: string, sig: string, close: string)
    requires !Contains(d, sig)
    ensures Strip(d, sig, close) == d
  {
    assert d + "" == d;
    forall k | 0 <= k < |d| ensures !OccursAt(d + "", sig, k) {
      assert !(k <= |d| && OccursAt(d, sig, k));
    }
    StripKeepsPrefix(d, "", sig, close);
  }

  /** A page without a navigation signature is left unchanged by the substitution. */
  lemma StripNavIdentity(d: string)
    requires !Contains(d, Sig())
    ensures StripNav(d) == d
  {
    StripIdentity(d, Sig(), Close());
  }

  lemma NoSigSuffix(d: string, g: nat, sig: string)
    requires !Contains(d, sig) && g <= |d|
    ensures !Contains(d[g..], sig)
  {
    forall k: nat | k <= |d[g..]| ensures !OccursAt(d[g..], sig, k) {
      assert !(g + k <= |d| && OccursAt(d, sig, g + k));
      if k + |sig| <= |d[g..]| {
        assert d[g..][k..k + |sig|] == d[g + k..g + k + |sig|];
      }
    }
  }

  /** An end that starts with `</d`, which no safe stretch can hold. */
  predicate CloseLike(close: string) {
    |close| >= 3 && close[0] == '<' && close[1] == '/' && close[2] == 'd'
  }

  lemma CloseFacts()
    ensures CloseLike(Close())
  {
    assert Close()[0] == '<' && Close()[1] == '/' && Close()[2] == 'd' by {}
  }

  /** No `close` starts at index `k` of `t` when `k` is inside a safe stretch. */
  lemma NoCloseAt(t: string, lo: nat, hi: nat, close: string, k: nat)
    requires CloseLike(close) && lo <= k < hi <= |t| && SafeLt(t[lo..hi])
    ensures !OccursAt(t, close, k)
  {
    if k + |close| <= |t| {
      var w := t[k..k + |close|];
      assert w[0] == t[k] && w[1] == t[k + 1] && w[2] == t[k + 2];
      var u, j := t[lo..hi], k - lo;
      assert SafeAt(u, j) && u[j] == t[k];
      if j + 1 < |u| { assert u[j + 1] == t[k + 1]; }
      if j + 2 < |u| { assert u[j + 2] == t[k + 2]; }
      assert w != close;
    }
  }

  /** The first `close` after `pre` is the one after the safe stretch `y`. */
  lemma FirstClose(pre: string, y: string, rest: string, close: string)
    requires CloseLike(close) && SafeLt(y)
    ensures IndexOf(pre + y + close + rest, close, |pre|) == Some(|pre| + |y|)
  {
    var t := pre + y + close + rest;
    assert t[|pre|..|pre| + |y|] == y;
    forall k | |pre| <= k < |pre| + |y| ensures !OccursAt(t, close, k) {
      NoCloseAt(t, |pre|, |pre| + |y|, close, k);
    }
    assert t[|pre| + |y|..|pre| + |y| + |close|] == close;
    IndexOfIs(t, close, |pre|, |pre| + |y|);
  }

  /** `MatchAt` once its three searches are known. */
  lemma MatchAtFound(t: string, sig: string, close: string, g: nat, c: nat)
    requires OccursAt(t, sig, 0)
    requires IndexOfChar(t, '>', |sig|) == Some(g)
    requires IndexOf(t, close, g + 1) == Some(c)
    ensures MatchAt(t, sig, close) == Some(SkipSpaces(t, c + |close|))
  {
  }

  /** What the matching needs of the text in front of the buttons: it starts with `sig`,
      its first `>` after `sig` is at `g`, and after that `>` it cannot end the match early. */
  predicate HeadShape(h: string, g: nat, sig: string) {
    OccursAt(h, sig, 0) && |sig| <= g < |h| && h[g] == '>'
    && (forall k :: |sig| <= k < g ==> h[k] != '>')
    && SafeLt(h[g + 1..])
  }

  lemma ShapeOf(sig: string, body: string, inner: string)
    requires NoChar(body, '>') && SafeLt(inner)
    ensures HeadShape(sig + body + ">" + inner, |sig| + |body|, sig)
  {
    var h := sig + body + ">" + inner;
    assert h[..|sig|] == sig;
    forall k | |sig| <= k < |sig| + |body| ensures h[k] != '>' {
      assert h[k] == body[k - |sig|];
    }
    assert h[|sig| + |body| + 1..] == inner;
  }

  lemma HeadFacts()
    ensures HeadShape(Head(), |Sig()| + |OpenBody()|, Sig())
  {
    OpenBodyFacts();
    InnerSafe();
    ShapeOf(Sig(), OpenBody(), Inner());
  }

  lemma MatchStart(h: string, g: nat, t: string, sig: string)
    requires HeadShape(h, g, sig) && |h| <= |t| && t[..|h|] == h
    ensures OccursAt(t, sig, 0) && IndexOfChar(t, '>', |sig|) == Some(g)
  {
    assert t[..|sig|] == h[..|sig|];
    forall k | |sig| <= k <= g ensures t[k] == h[k] {
      assert t[k] == t[..|h|][k];
    }
    IndexOfCharIs(t, '>', |sig|, g);
  }

  lemma MatchClose(h: string, g: nat, x: string, r: string, sig: string, close: string)
    requires HeadShape(h, g, sig) && SafeLt(x) && CloseLike(close)
    ensures IndexOf(h + x + close + r, close, g + 1) == Some(|h| + |x|)
  {
    SafeLtAppend(h[g + 1..], x);
    Resplit(h, g + 1, x, close, r);
    FirstClose(h[..g + 1], h[g + 1..] + x, r, close);
  }

  lemma Resplit(h: string, i: nat, x: string, c: string, r: string)
    requires i <= |h|
    ensures h + x + c + r == h[..i] + (h[i..] + x) + c + r
  {
    assert h == h[..i] + h[i..];
  }

  lemma NewlineThenRest(u: string, rest: string)
    requires |rest| == 0 || !IsSpace(rest[0])
    ensures SkipSpaces(u + "\n" + rest, |u|) == |u| + 1
  {
    var t := u + "\n" + rest;
    assert t[|u|] == '\n';
    NewlineIsSpace();
    if |rest| > 0 {
      assert t[|u| + 1] == rest[0];
    }
    SkipSpacesAt(t, |u|, |u| + 1);
  }

  /** `MatchAt` once its three searches and the blanks after the end are known. */
  lemma MatchAtIs(t: string, sig: string, close: string, g: nat, c: nat, e: nat)
    requires OccursAt(t, sig, 0)
    requires IndexOfChar(t, '>', |sig|) == Some(g)
    requires IndexOf(t, close, g + 1) == Some(c)
    requires SkipSpaces(t, c + |close|) == e
    ensures MatchAt(t, sig, close) == Some(e)
  {
    MatchAtFound(t, sig, close, g, c);
  }

  /** In a block the signature starts the text and its first `>` is the head's. */
  lemma BlockStart(h: string, g: nat, x: string, rest: string, sig: string, close: string, t: string)
    requires HeadShape(h, g, sig) && t == h + x + close + "\n" + rest
    ensures OccursAt(t, sig, 0) && IndexOfChar(t, '>', |sig|) == Some(g)
  {
    assert t == h + (x + close + "\n" + rest);
    MatchStart(h, g, t, sig);
  }

  /** In a block the first end after the head's `>` is the one after the buttons. */
  lemma BlockEnd(h: string, g: nat, x: string, rest: string, sig: string, close: string, t: string)
    requires HeadShape(h, g, sig) && SafeLt(x) && CloseLike(close)
    requires t == h + x + close + "\n" + rest
    ensures IndexOf(t, close, g + 1) == Some(|h| + |x|)
  {
    assert t == h + x + close + ("\n" + rest);
    MatchClose(h, g, x, "\n" + rest, sig, close);
  }

  /** A head followed by safe buttons, the end and a newline is exactly one match,
      together with that newline, when what follows does not start with a blank. */
  lemma MatchOf(h: string, g: nat, x: string, rest: string, sig: string, close: string)
    requires HeadShape(h, g, sig) && SafeLt(x) && CloseLike(close)
    requires |rest| == 0 || !IsSpace(rest[0])
    ensures MatchAt(h + x + close + "\n" + rest, sig, close) == Some(|h| + |x| + |close| + 1)
  {
    var t := h + x + close + "\n" + rest;
    BlockStart(h, g, x, rest, sig, close, t);
    BlockEnd(h, g, x, rest, sig, close, t);
    NewlineThenRest(h + x + close, rest);
    MatchAtIs(t, sig, close, g, |h| + |x|, |h| + |x| + |close| + 1);
  }

  /** A block followed by a page without matches strips down to that page. */
  lemma StripBlock(h: string, g: nat, x: string, rest: string, sig: string, close: string)
    requires HeadShape(h, g, sig) && SafeLt(x) && CloseLike(close) && !Contains(rest, sig)
    requires |rest| == 0 || !IsSpace(rest[0])
    ensures Strip(h + x + close + "\n" + rest, sig, close) == rest
  {
    var t := h + x + close + "\n" + rest;
    MatchOf(h, g, x, rest, sig, close);
    assert t[|h| + |x| + |close| + 1..] == rest;
    StripIdentity(rest, sig, close);
  }

  // ---------------------------------------------------------------------------
  // Inserting the block: before the last `</html>`, in any letter case, or at the end.

  /** The last index below `n` where `pat` starts, ignoring case. */
  function LastCiBelow(s: string, pat: string, n: nat): (r: Option<nat>)
    ensures r.Some? ==> r.value < n && CiOccursAt(s, pat, r.value)
    ensures r.Some? ==> forall k: nat :: r.value < k < n ==> !CiOccursAt(s, pat, k)
    ensures r.None? ==> forall k: nat :: k < n ==> !CiOccursAt(s, pat, k)
  {
    if n == 0 then None
    else if CiOccursAt(s, pat, n - 1) then Some(n - 1)
    else LastCiBelow(s, pat, n - 1)
  }

  /** Start of the last match of `pat`, ignoring case (the last `finditer` match), if any. */
  function LastCi(s: string, pat: string): (r: Option<nat>)
    ensures r.Some? ==> CiOccursAt(s, pat, r.value)
    ensures r.Some? ==> forall k: nat :: r.value < k ==> !CiOccursAt(s, pat, k)
    ensures r.None? ==> forall k: nat :: !CiOccursAt(s, pat, k)
  {
    LastCiBelow(s, pat, |s| + 1)
  }

  /** Where a block goes: at the last match of `pat`, else at the end. */
  function InsertPoint(d: string, pat: string): (g: nat)
    ensures g <= |d|
  {
    match LastCi(d, pat)
    case Some(p) => p
    case None => |d|
  }

  function Newlines(n: nat): (r: string)
    ensures |r| == n && forall i :: 0 <= i < n ==> r[i] == '\n'
  {
    if n == 0 then "" else Newlines(n - 1) + "\n"
  }

  /** `d` with `n` newlines at `g`. */
  function OpenAt(d: string, g: nat, n: nat): (e: string)
    requires g <= |d|
    ensures |e| == |d| + n
    ensures forall i :: 0 <= i < g ==> e[i] == d[i]
    ensures forall i :: g <= i < g + n ==> e[i] == '\n'
    ensures forall i :: g + n <= i < |e| ==> e[i] == d[i - n]
  {
    d[..g] + Newlines(n) + d[g..]
  }

  /** The windows of `OpenAt(d, g, n)` that lie after the newlines are windows of `d`. */
  lemma OpenAtWindow(d: string, g: nat, n: nat, k: nat, w: nat)
    requires g <= |d| && g + n <= k && k + w <= |d| + n
    ensures OpenAt(d, g, n)[k..k + w] == d[k - n..k - n + w]
  {
  }

  /** `LastCi` is the match after which no other starts. */
  lemma LastCiIs(s: string, pat: string, p: nat)
    requires CiOccursAt(s, pat, p)
    requires forall k: nat :: p < k ==> !CiOccursAt(s, pat, k)
    ensures LastCi(s, pat) == Some(p)
  {
  }

  /** `LastCi` finds nothing when nothing matches. */
  lemma LastCiNone(s: string, pat: string)
    requires forall k: nat :: !CiOccursAt(s, pat, k)
    ensures LastCi(s, pat) == None
  {
  }

  /** Newlines put at the last match leave it the last one, shifted by their number. */
  lemma ShiftLastMatch(d: string, pat: string, n: nat, p: nat)
    requires LastCi(d, pat) == Some(p)
    ensures LastCi(OpenAt(d, p, n), pat) == Some(p + n)
  {
    var e := OpenAt(d, p, n);
    var w := |pat|;
    OpenAtWindow(d, p, n, p + n, w);
    forall k: nat | p + n < k ensures !CiOccursAt(e, pat, k) {
      if k + w <= |e| {
        OpenAtWindow(d, p, n, k, w);
        assert !CiOccursAt(d, pat, k - n);
      }
    }
    LastCiIs(e, pat, p + n);
  }

  /** Newlines appended to a text without matches add none, when the pattern does not end
      in a newline. */
  lemma ShiftNoMatch(d: string, pat: string, n: nat)
    requires |pat| > 0 && pat[|pat| - 1] != '\n'
    requires LastCi(d, pat) == None
    ensures LastCi(OpenAt(d, |d|, n), pat) == None
  {
    var e := OpenAt(d, |d|, n);
    var w := |pat|;
    forall k: nat ensures !CiOccursAt(e, pat, k) {
      if k + w <= |d| {
        assert e[k..k + w] == d[k..k + w];
        assert !CiOccursAt(d, pat, k);
      } else if k + w <= |e| {
        assert e[k..k + w][w - 1] == e[k + w - 1] == '\n';
        assert LowerAll(e[k..k + w])[w - 1] == '\n';
      }
    }
    LastCiNone(e, pat);
  }

  /** Newlines put at the insertion point leave the last match where it was, shifted by
      their number, provided the pattern does not end in a newline. */
  lemma InsertPointShift(d: string, pat: string, n: nat)
    requires |pat| > 0 && pat[|pat| - 1] != '\n'
    ensures InsertPoint(OpenAt(d, InsertPoint(d, pat), n), pat) == InsertPoint(d, pat) + n
  {
    match LastCi(d, pat)
    case Some(p) =>
      ShiftLastMatch(d, pat, n, p);
    case None =>
      ShiftNoMatch(d, pat, n);
  }

  /** The character at a match of a pattern that starts with `<` is `<`. */
  lemma InsertPointChar(d: string, pat: string)
    requires |pat| > 0 && pat[0] == '<'
    ensures InsertPoint(d, pat) < |d| ==> d[InsertPoint(d, pat)] == '<'
  {
    if LastCi(d, pat).Some? {
      var p := LastCi(d, pat).value;
      assert LowerAll(d[p..p + |pat|])[0] == pat[0];
      assert d[p..p + |pat|][0] == d[p];
    }
  }

  function CloseHtml(): string { "</html>" }

  lemma CloseHtmlFacts()
    ensures |CloseHtml()| == 7 && CloseHtml()[0] == '<' && CloseHtml()[6] == '>'
  {
  }

  /** Start of the last `</html>` in any letter case, if any. */
  function LastCloseHtml(s: string): Option<nat> {
    LastCi(s, CloseHtml())
  }

  /** Where the block goes: at the last `</html>`, else at the end. */
  function Gap(d: string): (g: nat)
    ensures g <= |d|
  {
    InsertPoint(d, CloseHtml())
  }

  /** The page with `block` inserted. */
  function Splice(d: string, block: string): string {
    d[..Gap(d)] + block + d[Gap(d)..]
  }

  /** What a run of `add_navigation_buttons` writes back for the content `content`. */
  function RenderPage(content: string, block: string): string {
    Splice(StripNav(content), block)
  }

  /** `d` with `n` newlines at the place where the block goes. */
  function Opened(d: string, n: nat): string {
    OpenAt(d, Gap(d), n)
  }

  /** A window of `d` that reaches into newlines holds a newline, so it is no match of a
      newline-free `sig`. */
  lemma OpenAtNoSigAt(d: string, g: nat, n: nat, sig: string, k: nat)
    requires g <= |d| && !Contains(d, sig) && |sig| > 0 && NoChar(sig, '\n')
    ensures !OccursAt(OpenAt(d, g, n), sig, k)
  {
    var e := OpenAt(d, g, n);
    if k + |sig| <= |e| {
      var w := e[k..k + |sig|];
      if k + |sig| <= g {
        assert w == d[k..k + |sig|];
        assert !(k <= |d| && OccursAt(d, sig, k));
      } else if k >= g + n {
        OpenAtWindow(d, g, n, k, |sig|);
        assert !(k - n <= |d| && OccursAt(d, sig, k - n));
      } else if n > 0 {
        var i := if k < g then g else k;
        assert w[i - k] == e[i] == '\n';
      } else {
        assert w == d[k..k + |sig|];
        assert !(k <= |d| && OccursAt(d, sig, k));
      }
    }
  }

  /** Newlines at the gap keep the page free of navigation signatures. */
  lemma OpenedNoSig(d: string, n: nat)
    requires !Contains(d, Sig())
    ensures !Contains(Opened(d, n), Sig())
  {
    SigFacts();
    forall k: nat | k <= |Opened(d, n)| ensures !OccursAt(Opened(d, n), Sig(), k) {
      OpenAtNoSigAt(d, Gap(d), n, Sig(), k);
    }
  }

  /** Newlines at the gap move the last `</html>` by their number and nothing else. */
  lemma GapOpened(d: string, n: nat)
    ensures Gap(Opened(d, n)) == Gap(d) + n
  {
    CloseHtmlFacts();
    InsertPointShift(d, CloseHtml(), n);
  }

  /** The character at the gap, if any, is the `<` of `</html>`. */
  lemma GapNotBlank(d: string)
    ensures Gap(d) < |d| ==> d[Gap(d)] == '<' && !IsSpace(d[Gap(d)])
  {
    CloseHtmlFacts();
    InsertPointChar(d, CloseHtml());
    AsciiNotSpace('<');
  }

  /** Stripping a page that holds one block, preceded by a newline, at `g`: what is left is
      the page with that newline. */
  lemma StripInserted(d: string, g: nat, h: string, hg: nat, x: string, sig: string, close: string)
    requires g <= |d| && !Contains(d, sig) && |sig| > 0 && NoChar(sig, '\n')
    requires HeadShape(h, hg, sig) && SafeLt(x) && CloseLike(close)
    requires g < |d| ==> !IsSpace(d[g])
    ensures Strip(d[..g] + "\n" + (h + x + close + "\n" + d[g..]), sig, close) == d[..g] + "\n" + d[g..]
  {
    var b := h + x + close + "\n" + d[g..];
    forall k | 0 <= k < g + 1 ensures !OccursAt(d[..g] + "\n" + b, sig, k) {
      NoSigBeforeNewline(d, g, b, sig, k);
    }
    StripKeepsPrefix(d[..g] + "\n", b, sig, close);
    NoSigSuffix(d, g, sig);
    StripBlock(h, hg, x, d[g..], sig, close);
  }

  /** No match starts before the newline at `g`, nor at it. */
  lemma NoSigBeforeNewline(d: string, g: nat, b: string, sig: string, k: nat)
    requires !Contains(d, sig) && g <= |d| && |sig| > 0 && NoChar(sig, '\n') && k < g + 1
    ensures !OccursAt(d[..g] + "\n" + b, sig, k)
  {
    var s := d[..g] + "\n" + b;
    if k + |sig| <= |s| {
      var w := s[k..k + |sig|];
      if k + |sig| <= g {
        assert w == d[k..k + |sig|];
        assert !(k <= |d| && OccursAt(d, sig, k));
      } else {
        assert w[g - k] == s[g] == '\n';
      }
    }
  }

  /** One run on a page without a block: the block goes in at the gap, and stripping it
      again leaves the page with one newline at the gap. */
  lemma StripSplice(d: string, x: string)
    requires !Contains(d, Sig()) && SafeLt(x)
    ensures StripNav(Splice(d, Block(x))) == Opened(d, 1)
  {
    var g := Gap(d);
    SigFacts();
    HeadFacts();
    CloseFacts();
    GapNotBlank(d);
    StripInserted(d, g, Head(), |Sig()| + |OpenBody()|, x, Sig(), Close());
    SpliceBlock(d, x);
    OpenedOne(d);
  }

  lemma Regroup(a: string, h: string, x: string, c: string, b: string)
    ensures a + ("\n" + h + x + c + "\n") + b == a + "\n" + (h + x + c + "\n" + b)
  {
  }

  /** The page with a block, cut at the newline that opens the block. */
  lemma SpliceBlock(d: string, x: string)
    ensures Splice(d, Block(x)) == d[..Gap(d)] + "\n" + (Head() + x + Close() + "\n" + d[Gap(d)..])
  {
    Regroup(d[..Gap(d)], Head(), x, Close(), d[Gap(d)..]);
  }

  lemma OpenedNone(d: string)
    ensures Opened(d, 0) == d
  {
    assert Newlines(0) == "";
    assert d[..Gap(d)] + d[Gap(d)..] == d;
  }

  lemma OpenedOne(d: string)
    ensures Opened(d, 1) == d[..Gap(d)] + "\n" + d[Gap(d)..]
  {
    assert Newlines(1) == "\n";
  }

  /** The page after running the script once for each button pair in `xs`. */
  function Runs(d: string, xs: seq<string>): string {
    if |xs| == 0 then d else RenderPage(Runs(d, xs[..|xs| - 1]), Block(xs[|xs| - 1]))
  }

  lemma SpliceOpened(d: string, n: nat, block: string)
    ensures Splice(Opened(d, n), block) == d[..Gap(d)] + Newlines(n) + block + d[Gap(d)..]
  {
    var g := Gap(d);
    var e := Opened(d, n);
    GapOpened(d, n);
    assert e[..g + n] == d[..g] + Newlines(n);
    assert e[g + n..] == d[g..];
  }

  lemma OpenedTwice(d: string, n: nat)
    ensures Opened(Opened(d, n), 1) == Opened(d, n + 1)
  {
    var g := Gap(d);
    var e := Opened(d, n);
    GapOpened(d, n);
    assert e[..g + n] == d[..g] + Newlines(n);
    assert e[g + n..] == d[g..];
    assert Newlines(n) + Newlines(1) == Newlines(n + 1);
  }

  /** One more run: a page opened `m` times around the block `Block(x)` becomes the page
      opened `m + 1` times around the new block. */
  lemma RunAgain(d: string, m: nat, x: string, y: string)
    requires !Contains(d, Sig()) && SafeLt(x)
    ensures RenderPage(Splice(Opened(d, m), Block(x)), Block(y)) == Splice(Opened(d, m + 1), Block(y))
  {
    OpenedNoSig(d, m);
    StripSplice(Opened(d, m), x);
    OpenedTwice(d, m);
  }

  /** Every button pair of `xs` is safe, stated run by run. */
  predicate AllSafe(xs: seq<string>) {
    |xs| == 0 || (AllSafe(xs[..|xs| - 1]) && SafeLt(xs[|xs| - 1]))
  }

  lemma {:induction false} AllSafeIff(xs: seq<string>)
    ensures AllSafe(xs) <==> forall i :: 0 <= i < |xs| ==> SafeLt(xs[i])
  {
    if |xs| > 0 {
      var init := xs[..|xs| - 1];
      AllSafeIff(init);
      assert forall i :: 0 <= i < |init| ==> init[i] == xs[i];
    }
  }

  /** Running the script again on a page replaces its block by the new one, and each run
      after the first leaves one more newline in front of it: after `|xs|` runs the page is
      the original with `|xs| - 1` newlines and the last block at the gap. */
  lemma {:induction false} RepeatedRuns(d: string, xs: seq<string>)
    requires !Contains(d, Sig())
    requires |xs| > 0 && AllSafe(xs)
    ensures Runs(d, xs) == Splice(Opened(d, |xs| - 1), Block(xs[|xs| - 1]))
  {
    var n := |xs| - 1;
    if n == 0 {
      RunOnce(d, xs);
    } else {
      var init := xs[..n];
      assert init[|init| - 1] == xs[n - 1];
      RepeatedRuns(d, init);
      RunAgain(d, n - 1, xs[n - 1], xs[n]);
    }
  }

  /** Two runs with the same buttons on a page without a block: the block once, after one
      newline at the gap. */
  lemma RenderTwice(d: string, x: string)
    requires !Contains(d, Sig()) && SafeLt(x)
    ensures RenderPage(RenderPage(d, Block(x)), Block(x)) == Splice(Opened(d, 1), Block(x))
  {
    StripNavIdentity(d);
    OpenedNone(d);
    RunAgain(d, 0, x, x);
  }

  /** The page opened once around `block`, spelled out. */
  lemma SpliceOpenedOnce(d: string, block: string)
    ensures Splice(Opened(d, 1), block) == d[..Gap(d)] + "\n" + block + d[Gap(d)..]
  {
    SpliceOpened(d, 1, block);
    assert Newlines(1) == "\n";
  }

  /** The first run on a page without a block puts the block at the gap. */
  lemma RunOnce(d: string, xs: seq<string>)
    requires !Contains(d, Sig()) && |xs| == 1
    ensures Runs(d, xs) == Splice(Opened(d, 0), Block(xs[0]))
  {
    assert Runs(d, xs[..0]) == d;
    StripNavIdentity(d);
    assert Opened(d, 0) == d;
  }

  /** The shape of the page after repeated runs, spelled out. */
  lemma RepeatedRunsShape(d: string, xs: seq<string>)
    requires !Contains(d, Sig())
    requires |xs| > 0 && AllSafe(xs)
    ensures Runs(d, xs) == d[..Gap(d)] + Newlines(|xs| - 1) + Block(xs[|xs| - 1]) + d[Gap(d)..]
  {
    RepeatedRuns(d, xs);
    SpliceOpened(d, |xs| - 1, Block(xs[|xs| - 1]));
  }
}
