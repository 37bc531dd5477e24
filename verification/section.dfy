/** `getItemsInSection` of superagents/hooks/hooks.ts: the two regular
    expressions that pull the first bold slug out of a `## <name>` section of
    the queue document, modelled as the leftmost match a backtracking regex
    engine reports.

    The heading pattern is `## <name>\s*\n([\s\S]*?)(?=\n## |$)` without
    flags: it is not anchored to a line start, its `\s*` is greedy (so it
    swallows blank lines, including the newline that would end an empty
    section), its body is lazy and stops at the first `\n## ` or at the very
    end of the text. The item pattern is `^- \*\*([^*]+)\*\*` with the `m`
    flag: at a line start, `- **`, then a run of non-`*` characters that may
    span lines, then `**`. */
module Section {
  import opened Wrappers
  import opened Text

  /** The literal text the heading pattern begins with */
  function HeadingText(name: string): string {
    "## " + name
  }

  /** The lookahead text that ends a section body */
  const BodyStop: string := "\n## "

  const ItemOpen: string := "- **"
  const ItemClose: string := "**"

  /** Where the heading pattern matched and where its captured body lies */
  datatype Span = Span(start: nat, bodyStart: nat, bodyEnd: nat)

  // ---------------------------------------------------------------------
  // Declarative semantics of the two patterns
  // ---------------------------------------------------------------------

  /** `s[p..b]` is matched by `## <name>\s*\n`: the heading text at `p`,
      whitespace only, then the newline at `b - 1` */
  ghost predicate HeadingLineAt(s: string, name: string, p: int, b: int) {
    && MatchesAt(s, p, HeadingText(name))
    && p + |HeadingText(name)| < b <= |s|
    && s[b - 1] == '\n'
    && forall k :: p + |HeadingText(name)| <= k < b - 1 ==> IsSpace(s[k])
  }

  /** The lookahead `(?=\n## |$)` holds at `e` (`$` without `m` is the end
      of the whole text) */
  ghost predicate IsBodyStop(s: string, e: int) {
    e == |s| || MatchesAt(s, e, BodyStop)
  }

  /** The match the engine reports: the leftmost heading start, the longest
      `\s*` that still leaves a newline, and the shortest body */
  ghost predicate IsSectionMatch(s: string, name: string, p: int, b: int, e: int) {
    && HeadingLineAt(s, name, p, b)
    && (forall p', b' :: HeadingLineAt(s, name, p', b') ==> p <= p')
    && (forall b' :: HeadingLineAt(s, name, p, b') ==> b' <= b)
    && b <= e <= |s|
    && IsBodyStop(s, e)
    && (forall e' :: b <= e' < e ==> !IsBodyStop(s, e'))
  }

  /** `^` under the `m` flag */
  predicate IsLineStart(t: string, i: int) {
    i == 0 || (0 < i <= |t| && IsLineTerminator(t[i - 1]))
  }

  /** `^- \*\*([^*]+)\*\*` matches at `i`, its capture being `t[i + 4..j]` */
  ghost predicate ItemLineAt(t: string, i: int, j: int) {
    && IsLineStart(t, i)
    && MatchesAt(t, i, ItemOpen)
    && i + |ItemOpen| < j
    && MatchesAt(t, j, ItemClose)
    && forall k :: i + |ItemOpen| <= k < j ==> t[k] != '*'
  }

  /** The leftmost item match in `t` */
  ghost predicate IsFirstItem(t: string, i: int, j: int) {
    ItemLineAt(t, i, j) && forall i', j' :: ItemLineAt(t, i', j') ==> i <= i'
  }

  /** The section match the engine reports, chosen by its defining property */
  ghost function ReportedSection(s: string, name: string): (r: Option<Span>)
    ensures r.Some? ==> IsSectionMatch(s, name, r.value.start, r.value.bodyStart, r.value.bodyEnd)
    ensures r.None? ==> forall p, b, e :: !IsSectionMatch(s, name, p, b, e)
  {
    if exists p, b, e :: IsSectionMatch(s, name, p, b, e) then
      var p, b, e :| IsSectionMatch(s, name, p, b, e);
      Some(Span(p, b, e))
    else None
  }

  /** The item match the engine reports in `t`, chosen by its defining property */
  ghost function ReportedItem(t: string): (r: Option<(nat, nat)>)
    ensures r.Some? ==> IsFirstItem(t, r.value.0, r.value.1)
    ensures r.None? ==> forall i, j :: !IsFirstItem(t, i, j)
  {
    if exists i, j :: IsFirstItem(t, i, j) then
      var i, j :| IsFirstItem(t, i, j);
      Some((i, j))
    else None
  }

  /** Reference meaning of `getItemsInSection(s, name)`: the trimmed capture
      of the first item line inside the body of the reported section match */
  ghost function SectionSlugSpec(s: string, name: string): Option<string> {
    match ReportedSection(s, name)
    case None => None
    case Some(sp) =>
      var body := s[sp.bodyStart..sp.bodyEnd];
      match ReportedItem(body)
      case None => None
      case Some((i, j)) => Some(Trim(body[i + |ItemOpen|..j]))
  }

  /** At most one section match: the engine's choice is determined */
  lemma SectionMatchUnique(s: string, name: string, p: int, b: int, e: int, p': int, b': int, e': int)
    requires IsSectionMatch(s, name, p, b, e) && IsSectionMatch(s, name, p', b', e')
    ensures p == p' && b == b' && e == e'
  {
  }

  /** The `[^*]+` capture can only end at the first `*` */
  lemma ItemCloseUnique(t: string, i: int, j: int, j': int)
    requires ItemLineAt(t, i, j) && ItemLineAt(t, i, j')
    ensures j == j'
  {
    assert t[j] == t[j..j + 2][0];
    assert t[j'] == t[j'..j' + 2][0];
  }

  /** At most one first item */
  lemma FirstItemUnique(t: string, i: int, j: int, i': int, j': int)
    requires IsFirstItem(t, i, j) && IsFirstItem(t, i', j')
    ensures i == i' && j == j'
  {
    assert i <= i' && i' <= i;
    ItemCloseUnique(t, i, j, j');
  }

  // ---------------------------------------------------------------------
  // The search the engine performs
  // ---------------------------------------------------------------------

  /** End of the maximal whitespace run starting at `q` */
  function SpaceRunEnd(s: string, q: nat): (j: nat)
    requires q <= |s|
    ensures q <= j <= |s|
    ensures forall k :: q <= k < j ==> IsSpace(s[k])
    ensures j < |s| ==> !IsSpace(s[j])
    decreases |s| - q
  {
    if q < |s| && IsSpace(s[q]) then SpaceRunEnd(s, q + 1) else q
  }

  /** The last newline in `s[q..j]` */
  function LastNewline(s: string, q: nat, j: nat): (r: Option<nat>)
    requires q <= j <= |s|
    ensures r.Some? ==> q <= r.value < j && s[r.value] == '\n'
    ensures r.Some? ==> forall k :: r.value < k < j ==> s[k] != '\n'
    ensures r.None? ==> forall k :: q <= k < j ==> s[k] != '\n'
    decreases j - q
  {
    if j == q then None
    else if s[j - 1] == '\n' then Some(j - 1)
    else LastNewline(s, q, j - 1)
  }

  /** Where the greedy `\s*\n` ends when the heading text occurs at `p` */
  function HeadingLineEnd(s: string, name: string, p: nat): (r: Option<nat>)
    requires MatchesAt(s, p, HeadingText(name))
    ensures r.Some? ==> HeadingLineAt(s, name, p, r.value)
    ensures r.Some? ==> forall b' :: HeadingLineAt(s, name, p, b') ==> b' <= r.value
    ensures r.None? ==> forall b' :: !HeadingLineAt(s, name, p, b')
  {
    var q := p + |HeadingText(name)|;
    var j := SpaceRunEnd(s, q);
    match LastNewline(s, q, j)
    case Some(k) => Some(k + 1)
    case None => None
  }

  /** The leftmost heading match at or after `p` */
  function FindHeadingFrom(s: string, name: string, p: nat): (r: Option<(nat, nat)>)
    requires p <= |s|
    ensures r.None? ==> forall p', b' :: p <= p' && HeadingLineAt(s, name, p', b') ==> false
    ensures r.Some? ==> p <= r.value.0 && HeadingLineAt(s, name, r.value.0, r.value.1)
    ensures r.Some? ==> forall p', b' :: p <= p' && HeadingLineAt(s, name, p', b') ==> r.value.0 <= p'
    ensures r.Some? ==> forall b' :: HeadingLineAt(s, name, r.value.0, b') ==> b' <= r.value.1
    decreases |s| - p
  {
    var found := if MatchesAt(s, p, HeadingText(name)) then HeadingLineEnd(s, name, p) else None;
    match found
    case Some(b) => Some((p, b))
    case None => if p == |s| then None else FindHeadingFrom(s, name, p + 1)
  }

  /** The first position at or after `b` where the body lookahead holds */
  function BodyEnd(s: string, b: nat): (e: nat)
    requires b <= |s|
    ensures b <= e <= |s| && IsBodyStop(s, e)
    ensures forall e' :: b <= e' < e ==> !IsBodyStop(s, e')
    decreases |s| - b
  {
    if b == |s| || MatchesAt(s, b, BodyStop) then b else BodyEnd(s, b + 1)
  }

  /** `content.match(sectionRegex)`: the heading and body the engine reports */
  function FindSection(s: string, name: string): (r: Option<Span>)
    ensures r.None? ==> forall p, b :: !HeadingLineAt(s, name, p, b)
    ensures r.Some? ==> IsSectionMatch(s, name, r.value.start, r.value.bodyStart, r.value.bodyEnd)
  {
    match FindHeadingFrom(s, name, 0)
    case None => None
    case Some((p, b)) => Some(Span(p, b, BodyEnd(s, b)))
  }

  /** The first `*` at or after `i`, or `|t|` */
  function NextStar(t: string, i: nat): (j: nat)
    requires i <= |t|
    ensures i <= j <= |t| && (j < |t| ==> t[j] == '*')
    ensures forall k :: i <= k < j ==> t[k] != '*'
    decreases |t| - i
  {
    if i == |t| || t[i] == '*' then i else NextStar(t, i + 1)
  }

  /** Whether the item pattern matches at `i`, and where its capture ends */
  function ItemAt(t: string, i: nat): (r: Option<nat>)
    requires i <= |t|
    ensures r.Some? ==> ItemLineAt(t, i, r.value)
    ensures r.None? ==> forall j :: !ItemLineAt(t, i, j)
  {
    if IsLineStart(t, i) && MatchesAt(t, i, ItemOpen) then
      var j := NextStar(t, i + |ItemOpen|);
      if j > i + |ItemOpen| && MatchesAt(t, j, ItemClose) then Some(j)
      else
        assert forall j' :: ItemLineAt(t, i, j') ==> j' == j by {
          forall j' | ItemLineAt(t, i, j') ensures j' == j {
            assert t[j'] == t[j'..j' + 2][0];
          }
        }
        None
    else None
  }

  /** The `[^*]+` capture holds no `*` */
  lemma CaptureHasNoStar(t: string, i: int, j: int)
    requires ItemLineAt(t, i, j)
    ensures '*' !in t[i + |ItemOpen|..j]
  {
    var capture := t[i + |ItemOpen|..j];
    forall k | 0 <= k < |capture| ensures capture[k] != '*' {
      assert capture[k] == t[i + |ItemOpen| + k];
    }
  }

  /** The leftmost item match at or after `i` */
  function FindItemFrom(t: string, i: nat): (r: Option<(nat, nat)>)
    requires i <= |t|
    ensures r.None? ==> forall i', j' :: i <= i' && ItemLineAt(t, i', j') ==> false
    ensures r.Some? ==> i <= r.value.0 && ItemLineAt(t, r.value.0, r.value.1)
    ensures r.Some? ==> forall i', j' :: i <= i' && ItemLineAt(t, i', j') ==> r.value.0 <= i'
    decreases |t| - i
  {
    match ItemAt(t, i)
    case Some(j) => Some((i, j))
    case None => if i == |t| then None else FindItemFrom(t, i + 1)
  }

  /** `FindSection` is the engine's section match */
  lemma FindSectionIsReported(s: string, name: string)
    ensures FindSection(s, name) == ReportedSection(s, name)
  {
    match ReportedSection(s, name)
    case None =>
    case Some(sp) =>
      var fs := FindSection(s, name).value;
      SectionMatchUnique(s, name, sp.start, sp.bodyStart, sp.bodyEnd, fs.start, fs.bodyStart, fs.bodyEnd);
  }

  /** `FindItemFrom(t, 0)` is the engine's item match */
  lemma FindItemIsReported(t: string)
    ensures FindItemFrom(t, 0) == ReportedItem(t)
  {
    match FindItemFrom(t, 0)
    case None =>
    case Some((i0, j0)) =>
      assert IsFirstItem(t, i0, j0);
      var ri := ReportedItem(t).value;
      FirstItemUnique(t, i0, j0, ri.0, ri.1);
  }

  /** `getItemsInSection(content, name)`: the trimmed slug of the first
      item line of the section, which may be the empty string when the bold
      text is all whitespace. It computes exactly the reference meaning of
      the two patterns. */
  function GetItemsInSection(content: string, name: string): (r: Option<string>)
    ensures r == SectionSlugSpec(content, name)
    ensures r.Some? ==> '*' !in r.value && Trimmed(r.value)
    ensures (forall p, b :: !HeadingLineAt(content, name, p, b)) ==> r.None?
  {
    FindSectionIsReported(content, name);
    match FindSection(content, name)
    case None => None
    case Some(sp) =>
      var body := content[sp.bodyStart..sp.bodyEnd];
      FindItemIsReported(body);
      match FindItemFrom(body, 0)
      case None => None
      case Some((i, j)) =>
        CaptureHasNoStar(body, i, j);
        TrimKeepsAbsentChar(body[i + |ItemOpen|..j], '*');
        Some(Trim(body[i + |ItemOpen|..j]))
  }

  // ---------------------------------------------------------------------
  // Properties
  // ---------------------------------------------------------------------

  /** A returned slug is the trimmed bold text of the first `- **…**` line
      of the reported section's body, which lies after the heading and
      before the first following `\n## ` or the end of the text */
  lemma SlugFromSectionBody(s: string, name: string)
    ensures GetItemsInSection(s, name).Some? ==> exists p, b, e, i, j ::
      && IsSectionMatch(s, name, p, b, e)
      && IsFirstItem(s[b..e], i, j)
      && GetItemsInSection(s, name).value == Trim(s[b..e][i + |ItemOpen|..j])
  {
    if GetItemsInSection(s, name).Some? {
      var sp := ReportedSection(s, name).value;
      var (i, j) := ReportedItem(s[sp.bodyStart..sp.bodyEnd]).value;
      assert IsSectionMatch(s, name, sp.start, sp.bodyStart, sp.bodyEnd);
    }
  }

  /** A heading whose body holds no item line gives no slug */
  lemma SectionWithoutItemIsNone(s: string, name: string, p: int, b: int, e: int)
    requires IsSectionMatch(s, name, p, b, e)
    requires forall i, j :: !ItemLineAt(s[b..e], i, j)
    ensures GetItemsInSection(s, name).None?
  {
    var sp := ReportedSection(s, name).value;
    SectionMatchUnique(s, name, p, b, e, sp.start, sp.bodyStart, sp.bodyEnd);
    assert ReportedItem(s[b..e]).None?;
    assert SectionSlugSpec(s, name).None?;
  }

  /** The heading must be followed by whitespace and a newline: a text with
      no newline has no section at all */
  lemma NoNewlineNoSection(s: string, name: string)
    requires forall k :: 0 <= k < |s| ==> s[k] != '\n'
    ensures GetItemsInSection(s, name).None?
  {
  }

  /** The heading is not anchored to a line start: `### <name>` contains the
      heading text one character in, and the engine takes it */
  lemma HeadingNotLineAnchored(name: string, rest: string)
    requires |rest| == 0 || !IsSpace(rest[0])
    ensures var s := "#" + HeadingText(name) + "\n" + rest;
      FindSection(s, name).Some? && FindSection(s, name).value.start == 1
      && FindSection(s, name).value.bodyStart == |HeadingText(name)| + 2
  {
    var s := "#" + HeadingText(name) + "\n" + rest;
    var h := HeadingText(name);
    assert s[1..1 + |h|] == h;
    assert HeadingLineAt(s, name, 1, |h| + 2);
    assert s[2] == '#' && h[2] == ' ';
    assert s[|h| + 2..] == rest;
  }

  /** An empty section does not end at the next heading. The heading's
      newline, together with any blank lines the greedy `\s*` swallows, is
      consumed before the body starts, so the `\n## ` that would close the
      section lies before the body. After `<heading><whitespace>\n` the body
      therefore starts at whatever follows, even another `## ` heading, and
      is not empty. */
  lemma EmptySectionRunsOn(name: string, ws: string, rest: string)
    requires AllSpace(ws)
    requires |rest| == 0 || !IsSpace(rest[0])
    ensures var s := HeadingText(name) + ws + "\n" + rest;
      FindSection(s, name).Some? && FindSection(s, name).value.start == 0
      && FindSection(s, name).value.bodyStart == |HeadingText(name)| + |ws| + 1
      && s[FindSection(s, name).value.bodyStart..] == rest
      && (|rest| > 0 ==> FindSection(s, name).value.bodyEnd > FindSection(s, name).value.bodyStart)
  {
    var h := HeadingText(name);
    var s := h + ws + "\n" + rest;
    assert s[..|h|] == h;
    forall k | |h| <= k < |h| + |ws| ensures IsSpace(s[k]) {
      assert s[k] == ws[k - |h|];
    }
    assert HeadingLineAt(s, name, 0, |h| + |ws| + 1);
    assert s[|h| + |ws| + 1..] == rest;
  }

  /** A text whose only newline is followed by something other than `#`
      holds no `\n## ` */
  lemma NoBodyStopAfterLine(line: string, tail: string)
    requires '\n' !in line && '\n' !in tail
    requires |tail| > 0 && tail[0] != '#'
    ensures var t := line + "\n" + tail;
      forall e :: 0 <= e < |t| ==> !MatchesAt(t, e, BodyStop)
  {
    var t := line + "\n" + tail;
    forall e | 0 <= e < |t| ensures !MatchesAt(t, e, BodyStop) {
      MatchesAtChar(t, e, BodyStop, 0);
      MatchesAtChar(t, e, BodyStop, 1);
      if e < |line| {
        assert t[e] == line[e];
      } else if e == |line| {
        assert t[e + 1] == tail[0];
      } else {
        assert t[e] == tail[e - |line| - 1];
      }
    }
  }

  /** When the text after `<heading>\n` holds no `\n## `, the section body
      is all of it */
  lemma BodyRunsToEnd(name: string, rest: string)
    requires |rest| > 0 && !IsSpace(rest[0])
    requires forall e :: 0 <= e < |rest| ==> !MatchesAt(rest, e, BodyStop)
    ensures var s := HeadingText(name) + "\n" + rest;
      FindSection(s, name) == Some(Span(0, |HeadingText(name)| + 1, |s|))
  {
    var h := HeadingText(name);
    var s := h + "\n" + rest;
    assert s == h + "" + "\n" + rest;
    EmptySectionRunsOn(name, "", rest);
    var b := |h| + 1;
    assert s == (h + "\n") + rest;
    forall e | b <= e < |s| ensures !IsBodyStop(s, e) {
      MatchesAtSuffix(h + "\n", rest, e - b, BodyStop);
    }
  }

  /** An item line right after a first line that is no item line is the
      first item */
  lemma FirstItemAfterLine(line: string, slug: string)
    requires |line| > 0 && line[0] != '-'
    requires forall k :: 0 <= k < |line| ==> !IsLineTerminator(line[k])
    requires slug != "" && '*' !in slug
    ensures var t := line + "\n" + ItemOpen + slug + ItemClose;
      && ReportedItem(t) == Some((|line| + 1, |line| + 1 + |ItemOpen| + |slug|))
      && FindItemFrom(t, 0) == ReportedItem(t)
      && t[|line| + 1 + |ItemOpen|..|line| + 1 + |ItemOpen| + |slug|] == slug
  {
    var t := line + "\n" + ItemOpen + slug + ItemClose;
    var i := |line| + 1;
    var j := i + |ItemOpen| + |slug|;
    assert t[i..i + |ItemOpen|] == ItemOpen;
    assert t[j..j + |ItemClose|] == ItemClose;
    forall k | i + |ItemOpen| <= k < j ensures t[k] != '*' {
      assert t[k] == slug[k - i - |ItemOpen|];
    }
    assert ItemLineAt(t, i, j);
    forall i', j' | 0 <= i' < i ensures !ItemLineAt(t, i', j') {
      MatchesAtChar(t, i', ItemOpen, 0);
      if i' == 0 {
        assert t[0] == line[0];
      } else {
        assert t[i' - 1] == line[i' - 1];
      }
    }
    assert IsFirstItem(t, i, j);
    var ri := ReportedItem(t).value;
    FirstItemUnique(t, i, j, ri.0, ri.1);
    FindItemIsReported(t);
    assert t[i + |ItemOpen|..j] == slug;
  }

  /** An empty section followed by a one-line heading and an item line
      runs on to the end of the text */
  lemma RunOnBodyIsRest(name: string, line: string, slug: string)
    requires |line| > 0 && line[0] == '#' && '\n' !in line && '\n' !in slug
    ensures var rest := line + "\n" + ItemOpen + slug + ItemClose;
      FindSection(HeadingText(name) + "\n" + rest, name) ==
        Some(Span(0, |HeadingText(name)| + 1, |HeadingText(name)| + 1 + |rest|))
  {
    var tail := ItemOpen + slug + ItemClose;
    var rest := line + "\n" + tail;
    assert rest == line + "\n" + ItemOpen + slug + ItemClose;
    assert tail[0] == '-';
    NoBodyStopAfterLine(line, tail);
    BodyRunsToEnd(name, rest);
  }

  /** An empty section followed by a one-line heading and an item line:
      the item is taken as the empty section's own */
  lemma RunOnTakesNextItem(name: string, line: string, slug: string)
    requires |line| > 0 && line[0] == '#' && '\n' !in line
    requires forall k :: 0 <= k < |line| ==> !IsLineTerminator(line[k])
    requires slug != "" && Trimmed(slug) && '*' !in slug && '\n' !in slug
    ensures GetItemsInSection(HeadingText(name) + "\n" + line + "\n" + ItemOpen + slug + ItemClose, name) == Some(slug)
  {
    var rest := line + "\n" + ItemOpen + slug + ItemClose;
    var h := HeadingText(name);
    var s := h + "\n" + rest;
    assert s == h + "\n" + line + "\n" + ItemOpen + slug + ItemClose;
    RunOnBodyIsRest(name, line, slug);
    assert s[|h| + 1..|s|] == rest;
    FirstItemAfterLine(line, slug);
    TrimOfTrimmed(slug);
  }
}
