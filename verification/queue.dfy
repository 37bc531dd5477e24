/** `getNextQueuedItem` of superagents/hooks/hooks.ts: which work item of
    the queue document `.agents/work/queued.md` the agent must still deal
    with. The file read is a parameter: `None` stands for a missing or
    unreadable file. */
module Queue {
  import opened Wrappers
  import opened Text
  import opened Section

  const InProgressSection: string := "In Progress"
  const UpNextSection: string := "Up Next"

  /** `in_progress` or `pending` */
  datatype Status = InProgress | Pending

  datatype QueueItem = QueueItem(slug: string, status: Status)

  /** JavaScript truthiness of a `string | null`: `null` and `""` are falsy */
  predicate IsTruthy(o: Option<string>) {
    o.Some? && o.value != ""
  }

  /** The slug a section yields, as its caller sees it */
  ghost function YieldedSlug(content: string, name: string): Option<string> {
    var r := SectionSlugSpec(content, name);
    if IsTruthy(r) then r else None
  }

  /** `getNextQueuedItem`: an "In Progress" item comes first, then an "Up
      Next" item; no queue file, or neither section yielding a non-empty
      slug, gives none */
  function NextQueuedItem(queue: Option<string>): (r: Option<QueueItem>)
    ensures queue.None? ==> r.None?
    ensures r.Some? ==> r.value.slug != "" && '*' !in r.value.slug && Trimmed(r.value.slug)
    ensures queue.Some? ==>
      match YieldedSlug(queue.value, InProgressSection)
      case Some(x) => r == Some(QueueItem(x, InProgress))
      case None =>
        match YieldedSlug(queue.value, UpNextSection)
        case Some(y) => r == Some(QueueItem(y, Pending))
        case None => r.None?
  {
    match queue
    case None => None
    case Some(content) =>
      var inProgress := GetItemsInSection(content, InProgressSection);
      if IsTruthy(inProgress) then Some(QueueItem(inProgress.value, InProgress))
      else
        var upNext := GetItemsInSection(content, UpNextSection);
        if IsTruthy(upNext) then Some(QueueItem(upNext.value, Pending))
        else None
  }

  /** The "In Progress" item wins whatever "Up Next" holds: two documents
      whose "In Progress" sections yield the same slug give the same item */
  lemma InProgressTakesPriority(c1: string, c2: string)
    ensures YieldedSlug(c1, InProgressSection).Some? && YieldedSlug(c1, InProgressSection) == YieldedSlug(c2, InProgressSection)
      ==> NextQueuedItem(Some(c1)) == NextQueuedItem(Some(c2)) && NextQueuedItem(Some(c1)).value.status == InProgress
  {
  }

  /** The item is `pending` exactly when "In Progress" yields nothing and
      "Up Next" yields a slug */
  lemma PendingOnlyWithoutInProgress(content: string)
    ensures (NextQueuedItem(Some(content)).Some? && NextQueuedItem(Some(content)).value.status == Pending)
      <==> (YieldedSlug(content, InProgressSection).None? && YieldedSlug(content, UpNextSection).Some?)
  {
  }

  /** No queued item exactly when neither section yields a slug */
  lemma NoItemIffNoSlug(queue: Option<string>)
    ensures NextQueuedItem(queue).None? <==>
      (queue.None? || (YieldedSlug(queue.value, InProgressSection).None? && YieldedSlug(queue.value, UpNextSection).None?))
  {
  }

  /** A whitespace-only bold text in "In Progress" trims to `""`, which the
      caller treats as no slug, so the "Up Next" item is reported instead */
  lemma BlankInProgressFallsThrough(content: string)
    ensures GetItemsInSection(content, InProgressSection) == Some("") ==>
      NextQueuedItem(Some(content)) ==
      (var u := GetItemsInSection(content, UpNextSection);
       if IsTruthy(u) then Some(QueueItem(u.value, Pending)) else None)
  {
  }

  /** The "Up Next" heading text is a single line starting with `#` */
  lemma UpNextHeadingIsOneLine()
    ensures var u := HeadingText(UpNextSection);
      |u| > 0 && u[0] == '#' && '\n' !in u
      && forall k :: 0 <= k < |u| ==> !IsLineTerminator(u[k])
  {
    var u := HeadingText(UpNextSection);
    assert u == "## Up Next";
    assert '\n' !in u && '\r' !in u && '\U{2028}' !in u && '\U{2029}' !in u;
    forall k | 0 <= k < |u| ensures !IsLineTerminator(u[k]) {
      assert u[k] in u;
    }
  }

  /** An empty "In Progress" section directly followed by "Up Next" does not
      end at that heading, so the first "Up Next" item is reported as in
      progress */
  lemma EmptyInProgressClaimsUpNextItem(slug: string)
    requires slug != "" && Trimmed(slug) && '*' !in slug && '\n' !in slug
    ensures var content :=
      HeadingText(InProgressSection) + "\n" + HeadingText(UpNextSection) + "\n" + ItemOpen + slug + ItemClose;
      NextQueuedItem(Some(content)) == Some(QueueItem(slug, InProgress))
  {
    UpNextHeadingIsOneLine();
    RunOnTakesNextItem(InProgressSection, HeadingText(UpNextSection), slug);
  }
}
