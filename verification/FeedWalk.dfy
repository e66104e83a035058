/**
 One run's walk down the feed: which cards are captured, stored, merged or skipped, what happens to the
 media captured for them, and why the walk ends.

 What the device does is an input: each dump's cards, and for the one card acted on, what capturing it gave.
 */
module FeedWalk {
  import opened Numbers
  import opened Text
  import opened Timestamps
  import opened PostIdentity
  import opened PostTable
  import Parser = CardParser

  type Post = Parser.Post

  datatype Config = Config(
    maxScrolls: int, permalinkRetries: int, backfillTries: int, emptyLimit: int, stopAfterSeen: int,
    since: string, followed: Option<set<string>>, igVersion: Option<string>, digest: string -> string)
  {
    /** Share sheets a card may cost beyond the first. */
    function Retries(): nat {
      if permalinkRetries < 0 then 0 else permalinkRetries
    }

    function Hash(p: Post): string {
      digest(PostKey(p))
    }
  }

  /** A share sheet's yield: a new link, the same link as the time before, or none. */
  datatype Fetch = Copied(url: string, code: string) | Repeat(url: string, code: string) | Failed

  /** Everything the device contributes to handling one card. */
  datatype Capture = Capture(
    crop: bool, slides: nat, fetch: Fetch, leftFeed: bool, certain: bool, expanded: string,
    postedAt: Option<(DateTime, int)>, now: DateTime)
  {
    predicate Valid() {
      && now.Valid()
      && (fetch.Failed? || fetch.url != "")
      && (postedAt.Some? ==> postedAt.value.0.Valid())
      && (postedAt.Some? ==> Window(PostTable.Card("", None, postedAt.value.0, Some(postedAt.value.1))).Some?)
    }
  }

  datatype Dump = Dump(stop: bool, cards: seq<Post>, capture: Capture)

  datatype LinkCheck = Free | Stale | Stored
  datatype StoreResult = New | Merged | Skipped
  datatype CardResult = NextCard | Redump

  /** Whether handling a card captured its media, the stem it ended under, and the files a row names now. */
  datatype Handled = Handled(captured: bool, named: string, kept: set<File>)

  /** The files the posts and media tables name. */
  ghost function Referenced(posts: Table, slides: map<(string, nat), File>): set<File> {
    Covers(posts) + slides.Values
  }

  ghost function Covers(posts: Table): set<File> {
    set id | id in posts && posts[id].mediaFile.Some? :: posts[id].mediaFile.value
  }

  /** What a run keeps: the posts, the extra slides by post and position, and the files in the media directory. */
  datatype Store = Store(posts: Table, slides: map<(string, nat), File>, files: set<File>)

  /** No row names a file after `stem`, and no slides are recorded for it. */
  ghost predicate NamesFree(s: Store, stem: string) {
    && (forall f | f in Referenced(s.posts, s.slides) :: f.stem != stem)
    && (forall i: nat :: (stem, i) !in s.slides)
  }

  /**
   Where the files captured under `h` have gone, the post being stored under `pid`: `kept` are in the
   directory and, given that no row already used the names, named by a row; the rest are gone, and no other
   file or reference has changed.
   */
  ghost predicate Accounted(s: Store, t: Store, h: string, pid: string, crop: bool, n: nat, kept: set<File>) {
    && kept <= Captured(h, crop, n) + Captured(pid, crop, n)
    && t.files == s.files - Captured(h, crop, n) + kept
    && (NamesFree(s, h) && NamesFree(s, pid) ==>
          Referenced(t.posts, t.slides) == Referenced(s.posts, s.slides) + kept)
  }

  /** The files of one capture, all named after `stem`. */
  function Captured(stem: string, crop: bool, slides: nat): set<File> {
    (if crop then {Cover(stem)} else {}) + SlideSet(stem, slides)
  }

  function SlideSet(stem: string, n: nat): set<File> {
    set i | 1 <= i <= n :: Slide(stem, i)
  }

  function Slides(stem: string, n: nat): (fs: seq<File>)
    ensures |fs| == n && forall i | 0 <= i < n :: fs[i] == Slide(stem, i + 1)
  {
    seq(n, i requires 0 <= i < n => Slide(stem, i + 1))
  }

  lemma {:induction false} SlidesAsSet(stem: string, n: nat)
    ensures (set f | f in Slides(stem, n)) == SlideSet(stem, n)
  {
    var fs := Slides(stem, n);
    forall f | f in SlideSet(stem, n)
      ensures f in fs
    {
      var i :| 1 <= i <= n && f == Slide(stem, i);
      assert fs[i - 1] == f;
    }
  }

  /** A card acted on has used up one of its tries: a failure counted, or the card handled for good. */
  ghost predicate Spent(retries: nat, failures: map<string, nat>, handled: set<string>, failures': map<string, nat>,
                        handled': set<string>, h: string, left: bool) {
    var before := if h in failures then failures[h] else 0;
    || (before < retries && failures' == failures[h := before + 1] && handled' == handled)
    || (failures' == failures && handled <= handled' && (!left ==> h in handled'))
  }

  /** How many more times a card of this hash can be acted on. */
  function TriesLeft(retries: nat, failures: map<string, nat>, handled: set<string>, h: string): nat {
    var failed := if h in failures then failures[h] else 0;
    if h in handled || failed > retries then 0 else 1 + retries - failed
  }

  function AllTriesLeft(retries: nat, failures: map<string, nat>, handled: set<string>, hs: seq<string>): nat {
    if hs == [] then 0
    else TriesLeft(retries, failures, handled, hs[0]) + AllTriesLeft(retries, failures, handled, hs[1..])
  }

  lemma {:induction false} TriesBound(retries: nat, failures: map<string, nat>, handled: set<string>, hs: seq<string>)
    ensures AllTriesLeft(retries, failures, handled, hs) <= |hs| * (retries + 1)
  {
    if hs != [] {
      TriesBound(retries, failures, handled, hs[1..]);
      assert |hs| * (retries + 1) == |hs[1..]| * (retries + 1) + (retries + 1);
    }
  }

  /** Passing cards over never gives tries back. */
  lemma {:induction false} TriesDontGrow(retries: nat, failures: map<string, nat>, handled: set<string>,
                                         handled': set<string>, hs: seq<string>)
    requires handled <= handled'
    ensures AllTriesLeft(retries, failures, handled', hs) <= AllTriesLeft(retries, failures, handled, hs)
  {
    if hs != [] {
      TriesDontGrow(retries, failures, handled, handled', hs[1..]);
    }
  }

  /** Acting on a card uses a try up, unless the feed is left, and never gives one back. */
  lemma {:induction false} TriesShrink(retries: nat, failures: map<string, nat>, handled: set<string>,
                                       failures': map<string, nat>, handled': set<string>, h: string, left: bool,
                                       hs: seq<string>)
    requires Spent(retries, failures, handled, failures', handled', h, left)
    requires h !in handled && (h in failures ==> failures[h] <= retries)
    ensures AllTriesLeft(retries, failures', handled', hs)
         <= AllTriesLeft(retries, failures, handled, hs) - if h in hs && !left then 1 else 0
  {
    if hs != [] {
      TriesShrink(retries, failures, handled, failures', handled', h, left, hs[1..]);
      assert hs == [hs[0]] + hs[1..];
    }
  }

  /** The card once its truncated caption has been expanded in place. */
  function Expand(p: Post, c: Capture): Post {
    if p.captionTruncated then p.(caption := c.expanded) else p
  }

  /** A caption shown whole is left as it is. */
  lemma {:induction false} OnlyTheTruncatedIsExpanded(p: Post, c: Capture)
    ensures Expand(p, c) == p.(caption := if p.captionTruncated then c.expanded else p.caption)
  {
  }

  /** What a card is stored and compared by: its caption, else its media description. */
  function ShownCaption(p: Post): Option<string> {
    Some(if p.caption != "" then p.caption else p.alt)
  }

  /** How many extra slides a capture comes with. */
  function SlideCount(p: Post, c: Capture): nat {
    if c.crop && p.kind == "carousel" then c.slides else 0
  }

  lemma {:induction false} AppendChange(t: Table, cs: seq<Change>, c: Change)
    requires AllowedAll(t, cs) && Allowed(ApplyAll(t, cs), c)
    ensures AllowedAll(t, cs + [c]) && ApplyAll(t, cs + [c]) == Apply(ApplyAll(t, cs), c)
    decreases |cs|
  {
    hide Allowed, Apply;
    if cs == [] {
      assert [c][1..] == [];
      assert ApplyAll(Apply(t, c), []) == Apply(t, c);
    } else {
      assert (cs + [c])[1..] == cs[1..] + [c];
      AppendChange(Apply(t, cs[0]), cs[1..], c);
    }
  }

  lemma {:induction false} Recorded(start: Table, cs: seq<Change>, t: Table, c: Change)
    requires AllowedAll(start, cs) && t == ApplyAll(start, cs) && ValidTable(t) && Allowed(t, c)
    ensures AllowedAll(start, cs + [c]) && Apply(t, c) == ApplyAll(start, cs + [c]) && ValidTable(Apply(t, c))
  {
    hide Allowed, Apply, ValidTable, Improves;
    ChangeImproves(t, c);
    assert ChangeIsSafe(t, c);
    AppendChange(start, cs, c);
  }

  /** A row with its cover named after its id. */
  function Filed(row: Row): Row {
    row.(mediaFile := if row.mediaFile.Some? then Some(Cover(row.id)) else None)
  }

  lemma {:induction false} NewOutcome(t: Table, row: Row)
    requires FreshRow(row) && row.id !in t
    ensures Allowed(t, Change.New(Filed(row))) && Apply(t, Change.New(Filed(row))) == t[row.id := Filed(row)]
  {
  }

  /** What a new post's row and slides add to the files named. */
  lemma {:induction false} InsertedFiles(t: Table, row: Row, before: map<(string, nat), File>,
                                         after: map<(string, nat), File>, n: nat)
    requires row.id !in t && (row.mediaFile.None? ==> n == 0)
    requires forall i: nat :: (row.id, i) !in before
    requires SlidesAdded(before, after, row.id, Slides(row.id, n))
    ensures Referenced(t[row.id := Filed(row)], after)
         == Referenced(t, before) + Captured(row.id, row.mediaFile.Some?, n)
  {
    InsertedCovers(t, Filed(row));
    InsertedSlides(before, after, row.id, Slides(row.id, n));
    hide Covers, SlideSet, SlidesAdded;
  }

  /** The media table once a new post's slides are recorded, in order. */
  ghost predicate SlidesAdded(before: map<(string, nat), File>, after: map<(string, nat), File>, pid: string,
                              others: seq<File>) {
    && (forall k: (string, nat) :: k in after <==> k in before || (k.0 == pid && 1 <= k.1 <= |others|))
    && (forall k: (string, nat) | k in after ::
          after[k] == if k.0 == pid && 1 <= k.1 <= |others| then others[k.1 - 1] else before[k])
  }

  lemma {:induction false} InsertedSlides(before: map<(string, nat), File>, after: map<(string, nat), File>,
                                          pid: string, others: seq<File>)
    requires forall i: nat :: (pid, i) !in before
    requires others == Slides(pid, |others|)
    requires SlidesAdded(before, after, pid, others)
    ensures after.Values == before.Values + SlideSet(pid, |others|)
  {
    forall f | f in before.Values + SlideSet(pid, |others|)
      ensures f in after.Values
    {
      if f in before.Values {
        var k: (string, nat) :| k in before && before[k] == f;
        assert k in after && after[k] == f;
      } else {
        var i :| 1 <= i <= |others| && f == Slide(pid, i);
        assert (pid, i) in after && after[(pid, i)] == f;
      }
    }
    forall f | f in after.Values
      ensures f in before.Values + SlideSet(pid, |others|)
    {
      var k: (string, nat) :| k in after && after[k] == f;
      if k.0 == pid && 1 <= k.1 <= |others| {
        assert f == Slide(pid, k.1);
      } else {
        assert k in before && before[k] == f;
      }
    }
  }

  /** A try changes one row's count, or its link, and no file. */
  lemma {:induction false} TryOutcome(t: Table, id: string, link: Option<(string, string)>, now: DateTime)
    requires id in t && t[id].url.None? && now.Valid() && (link.Some? ==> link.value.0 != "")
    ensures Allowed(t, Try(id, link, now)) && Apply(t, Try(id, link, now)) == Backfill(t, id, link, now)
    ensures Covers(Backfill(t, id, link, now)) == Covers(t) && |Backfill(t, id, link, now)| == |t|
  {
    hide Taken, Covers;
    SameRows(t, Backfill(t, id, link, now));
    SameCovers(t, Backfill(t, id, link, now));
  }

  lemma {:induction false} SameCovers(t: Table, u: Table)
    requires t.Keys == u.Keys && forall id | id in t :: u[id].mediaFile == t[id].mediaFile
    ensures Covers(t) == Covers(u)
  {
  }

  /** What merging a capture does to the table, as the run sees it. */
  lemma {:induction false} MergeOutcome(t: Table, dup: string, row: Row, now: DateTime)
    requires ValidTable(t) && dup in t && FreshRow(row) && now.Valid() && (IsSet(row.url) ==> row.id !in t)
    ensures var m := MergedRow(t[dup], row, now);
            var u := WriteMerged(t, dup, m);
            && Allowed(t, Merge(dup, row, now)) && Apply(t, Merge(dup, row, now)) == u
            && m.id in u && u[m.id] == m && |u| == |t|
            && m.hash == row.hash && (row.altHash.Some? ==> m.altHash == row.altHash)
  {
    var m := MergedRow(t[dup], row, now);
    MergeImproves(t[dup], row, now);
    hide IsWeak, Improves, MergedRow;
    ReplaceRow(t, dup, m);
  }

  /** Inserting a row adds its cover. */
  lemma {:induction false} InsertedCovers(t: Table, row: Row)
    requires row.id !in t
    ensures Covers(t[row.id := row]) == Covers(t) + if row.mediaFile.Some? then {row.mediaFile.value} else {}
  {
    var u := t[row.id := row];
    assert forall id | id in t :: id in u && u[id] == t[id];
    assert u[row.id] == row;
  }

  /** A merge adds the capture's cover, or leaves the covers as they were. */
  lemma {:induction false} MergedCovers(t: Table, dup: string, row: Row, now: DateTime)
    requires ValidTable(t) && dup in t && (IsSet(row.url) ==> row.id !in t)
    ensures Covers(WriteMerged(t, dup, MergedRow(t[dup], row, now)))
         == Covers(t) + if row.mediaFile.Some? && MediaToDrop(t[dup], row).None? then {row.mediaFile.value} else {}
  {
    var m := MergedRow(t[dup], row, now);
    var u := WriteMerged(t, dup, m);
    assert m.id in u && u[m.id] == m;
    assert m.mediaFile == if t[dup].mediaFile.Some? then t[dup].mediaFile else row.mediaFile;
    assert m.id == dup || m.id !in t;
    hide IsWeak, MergedRow;
    assert forall id | id in t && id != dup :: id in u && u[id] == t[id];
    assert forall id | id in u && id != m.id :: id in t && u[id] == t[id];
  }

  lemma {:induction false} SameRows(t: Table, u: Table)
    ensures t.Keys == u.Keys ==> |t| == |u|
  {
    assert |t.Keys| == |t| && |u.Keys| == |u|;
  }

  lemma {:induction false} RowIdIsKey(t: Table, id: string)
    requires ValidTable(t) && id in t
    ensures t[id].id == id && t[id].Valid()
  {
  }

  /** Whether a stored row answers to `h`. */
  ghost predicate Known(posts: Table, h: string) {
    exists id :: id in posts && FoundBy(posts[id], h)
  }

  /** The run has counted exactly the posts it added. */
  predicate Counted(start: Table, posts: Table, newPosts: nat) {
    newPosts == |posts| - |start|
  }

  /** A card's crop and slides, under the names a capture gives them, are there. */
  predicate HasCapture(files: set<File>, p: Post, h: string, c: Capture, media: Option<File>, extra: seq<File>) {
    && media == (if c.crop then Some(Cover(h)) else None) && extra == Slides(h, SlideCount(p, c))
    && Captured(h, c.crop, SlideCount(p, c)) <= files
  }

  function Failures(counts: map<string, nat>, h: string): nat {
    if h in counts then counts[h] else 0
  }

  /** One more share sheet opened to store the card of this hash. */
  function Opened(sheets: map<string, nat>, h: string): map<string, nat> {
    sheets[h := Failures(sheets, h) + 1]
  }

  predicate NeedsPermalink(cfg: Config, stored: Row) {
    stored.url.None? && stored.permalinkAttempts < cfg.backfillTries
  }

  /** `stored` is a row that answers to `h`, as it is in the table or was before the hash was recorded. */
  predicate IsStored(posts: Table, stored: Row, h: string) {
    && stored.id in posts && FoundBy(posts[stored.id], h)
    && posts[stored.id].url == stored.url && posts[stored.id].permalinkAttempts == stored.permalinkAttempts
  }

  /** A stored post answers to `h` and no share sheet is due for it. */
  ghost predicate NothingOwed(cfg: Config, posts: Table, h: string, backfillsLeft: int) {
    exists id :: id in posts && FoundBy(posts[id], h) && !(backfillsLeft > 0 && NeedsPermalink(cfg, posts[id]))
  }

  lemma {:induction false} StoredOwesNothing(cfg: Config, posts: Table, stored: Row, h: string, backfillsLeft: int)
    requires IsStored(posts, stored, h) && !(backfillsLeft > 0 && NeedsPermalink(cfg, stored))
    ensures NothingOwed(cfg, posts, h, backfillsLeft)
  {
    assert !(backfillsLeft > 0 && NeedsPermalink(cfg, posts[stored.id]));
  }

  /** Of the rows with a card's caption, one with a permalink if any has one, and the earliest of those alike. */
  ghost predicate FirstWithCaption(cfg: Config, posts: Table, p: Post, stored: Row)
    requires ValidTable(posts)
  {
    && stored.Valid() && HasCaption(stored, p.username, ShownCaption(p), cfg.since, None)
    && forall id | id in posts && HasCaption(posts[id], p.username, ShownCaption(p), cfg.since, None) ::
         (posts[id].url.Some? ==> stored.url.Some?)
         && (posts[id].url.Some? == stored.url.Some? ==>
               Instant(stored.scrapedAt) <= Instant(posts[id].scrapedAt))
  }

  /** A shortcode's row could be this card: one author, and captions that agree. */
  predicate StoredUnder(posts: Table, code: string, p: Post) {
    && code in posts && posts[code].username == p.username
    && SameCaption(OrEmpty(posts[code].caption), OrEmpty(ShownCaption(p)))
  }

  /** The link of a share sheet with no card to check a repeat against. */
  function CopiedLink(c: Capture): Option<(string, string)> {
    if c.fetch.Copied? then Some((c.fetch.url, c.fetch.code)) else None
  }

  /** Whether a card's share sheet gives its link. */
  predicate Linked(posts: Table, p: Post, c: Capture) {
    c.fetch.Copied? || (c.fetch.Repeat? && StoredUnder(posts, c.fetch.code, p))
  }

  /** A card that won't be tried again answers to its hash from now on, unless nothing could tell it from a post
      already stored; and nothing can tell one with neither link nor date from any post, or from none. */
  ghost predicate Kept(was: Table, posts: Table, p: Post, h: string, c: Capture, linked: bool) {
    && (Known(posts, h) || (p.headless && c.postedAt.None? && posts == was))
    && (was == map[] && !linked && p.headless && c.postedAt.None? ==> posts == was)
  }

  /** A card to be tried again: one more failure counted against its hash, and nothing stored. */
  predicate Retried(was: Table, posts: Table, handled: set<string>, handled': set<string>, failures: map<string, nat>,
                    failures': map<string, nat>, h: string) {
    posts == was && handled' == handled && failures' == failures[h := Failures(failures, h) + 1]
  }

  /** A card kept is handled, unless its sheet left the feed, and so is the hash it has once its caption is expanded,
      unless it is a stored post's. */
  predicate AreNoted(handled: set<string>, handled': set<string>, h: string, expanded: string, leftFeed: bool,
                     stored: bool) {
    handled' == handled + (if leftFeed then {} else {h}) + (if stored then {} else {expanded})
  }

  /** A card's link is that of a stored post, of its account or of whichever once the link is certain. */
  predicate LeadsToStored(posts: Table, p: Post, c: Capture, link: Option<(string, string)>) {
    link.Some? && link.value.1 in posts && (posts[link.value.1].username in ["", p.username] || c.certain)
  }

  /** A card's files end up named after its hash, or after its link's shortcode if that was free. */
  predicate NamedFor(was: Table, h: string, link: Option<(string, string)>, named: string) {
    named == h || (link.Some? && named == link.value.1 && named !in was)
  }

  lemma {:induction false} TakenIsThere(was: Store, now: Store, p: Post, h: string, c: Capture, media: Option<File>,
                                        extra: seq<File>)
    requires TakenFor(was, now, p, h, c, media, extra)
    ensures HasCapture(now.files, p, h, c, media, extra)
    ensures media == (if c.crop then Some(Cover(h)) else None) && extra == Slides(h, SlideCount(p, c))
  {
  }

  lemma {:induction false} CaptureNames(files: set<File>, p: Post, h: string, c: Capture, media: Option<File>,
                                        extra: seq<File>)
    requires HasCapture(files, p, h, c, media, extra)
    ensures media == (if c.crop then Some(Cover(h)) else None) && extra == Slides(h, SlideCount(p, c))
    ensures |extra| == SlideCount(p, c)
  {
  }

  lemma {:induction false} AccountedSince(was: Store, before: Store, after: Store, h: string, pid: string, crop: bool,
                                          n: nat)
    requires Untouched(was, before) && Accounted(before, after, h, pid, crop, n, {})
    ensures Accounted(was, after, h, pid, crop, n, {})
  {
    hide Captured, Covers;
  }

  lemma {:induction false} SettledIsNow(was: Store, now: Store, h: string, link: Option<(string, string)>,
                                        pid: string, url: Option<string>)
    requires Settled(was.posts, now.posts, h, link, false, pid, url) && Untouched(was, now)
    ensures was == now
  {
  }

  lemma {:induction false} StoredIsKept(was: Table, posts: Table, p: Post, h: string, c: Capture, linked: bool,
                                        skipped: bool)
    requires if skipped then p.headless && c.postedAt.None? && posts == was else Known(posts, h)
    requires was == map[] && !linked && p.headless && c.postedAt.None? ==> skipped
    ensures Kept(was, posts, p, h, c, linked)
  {
  }

  lemma {:induction false} CountedAfter(start: Table, was: Table, posts: Table, newPosts: nat, more: nat)
    requires Counted(start, was, newPosts) && |posts| == |was| + more
    ensures Counted(start, posts, newPosts + more)
  {
  }

  /** A truncated, header-less, undated card whose share sheet keeps failing and keeps leaving the feed. */
  predicate Stalls(cfg: Config, handled: set<string>, failures: map<string, nat>, p: Post, c: Capture) {
    var h := cfg.Hash(p);
    && p.complete && p.headless && c.postedAt.None? && c.fetch.Failed? && c.leftFeed
    && h !in handled && Failures(failures, h) >= cfg.permalinkRetries && cfg.Hash(Expand(p, c)) != h
  }

  /** And over an empty table, where no card is known. */
  predicate StallsAfresh(cfg: Config, posts: Table, handled: set<string>, failures: map<string, nat>, p: Post,
                         c: Capture) {
    posts == map[] && Stalls(cfg, handled, failures, p, c)
  }

  /** A card's crop and slides as a capture leaves them, the files added to those of `was`. */
  predicate TakenFor(was: Store, now: Store, p: Post, h: string, c: Capture, media: Option<File>, extra: seq<File>) {
    && media == (if c.crop then Some(Cover(h)) else None) && extra == Slides(h, SlideCount(p, c))
    && now == was.(files := was.files + Captured(h, c.crop, SlideCount(p, c)))
  }

  /** No file, and nothing a row names, has changed. */
  ghost predicate Untouched(was: Store, now: Store) {
    now.files == was.files && now.slides == was.slides && Covers(now.posts) == Covers(was.posts)
  }

  /** What a link has settled: the post is stored, or a free id and the url that goes with it. A free link is used. */
  predicate Settled(was: Table, posts: Table, h: string, link: Option<(string, string)>, stored: bool, pid: string,
                    url: Option<string>) {
    && NamedFor(was, h, link, pid)
    && (if stored then link.Some? && pid == h && url.None? else posts == was && pid !in posts)
    && (url.None? ==> pid == h) && (url.Some? ==> link == Some((url.value, pid)) && url.value != "")
    && (link.Some? && link.value.1 !in was ==> url.Some?)
  }

  lemma {:induction false} SettledNew(was: Table, posts: Table, h: string, link: Option<(string, string)>,
                                      pid: string, url: Option<string>)
    requires Settled(was, posts, h, link, false, pid, url)
    ensures NamedFor(was, h, link, pid) && posts == was && pid !in posts
    ensures (url.None? ==> pid == h) && (url.Some? ==> url.value != "" && link.Some?)
  {
  }

  lemma {:induction false} SettledStored(was: Table, posts: Table, h: string, link: Option<(string, string)>,
                                         pid: string, url: Option<string>)
    requires Settled(was, posts, h, link, true, pid, url)
    ensures NamedFor(was, h, link, pid) && pid == h
  {
  }

  lemma {:induction false} OneMoreOpened(sheets: map<string, nat>, h: string)
    ensures Failures(Opened(sheets, h), h) == Failures(sheets, h) + 1
  {
  }

  class FeedRun {
    const cfg: Config
    var posts: Table
    var slides: map<(string, nat), File>
    var files: set<File>
    var backfillsLeft: int
    var newPosts: nat
    var seenStreak: nat
    var thisRun: set<string>              // what this run is done with, by hash
    var linkFailures: map<string, nat>    // by hash, share sheets that gave no link
    var screens: int
    var emptyStreak: nat
    var feedReopened: bool
    ghost const start: Table              // the posts as the run found them
    ghost const allowance: nat            // the backfills the run may spend
    ghost var changes: seq<Change>        // what the run has done to them
    ghost var sheets: map<string, nat>    // share sheets opened to store a card, by its hash
    ghost var backfills: nat              // share sheets opened to backfill a link
    ghost var left: seq<string>           // the hashes of those of them that left the feed, in turn

    constructor (cfg: Config, posts: Table, slides: map<(string, nat), File>, files: set<File>, perRun: int)
      requires ValidTable(posts) && forall s :: cfg.digest(s) != ""
      ensures Valid() && Counted(start, posts, newPosts) && this.cfg == cfg && this.posts == posts
              && this.slides == slides && this.files == files
      ensures screens == 0 && !feedReopened && thisRun == {} && linkFailures == map[] && left == []
      ensures newPosts == 0 && seenStreak == 0 && emptyStreak == 0 && backfillsLeft == perRun
      ensures start == posts && changes == [] && sheets == map[] && backfills == 0
      ensures allowance == if perRun < 0 then 0 else perRun
    {
      this.cfg, this.posts, this.slides, this.files := cfg, posts, slides, files;
      backfillsLeft := perRun;
      newPosts, seenStreak, thisRun, linkFailures := 0, 0, {}, map[];
      screens, emptyStreak, feedReopened := 0, 0, false;
      start, allowance, changes := posts, if perRun < 0 then 0 else perRun, [];
      sheets, backfills, left := map[], 0, [];
    }

    ghost predicate Valid()
      reads `posts, `changes, `linkFailures, `sheets, `thisRun, `left, `backfills, `backfillsLeft
    {
      && (forall s :: cfg.digest(s) != "")
      && ValidTable(posts)
      && AllowedAll(start, changes) && posts == ApplyAll(start, changes)
      && SheetsBounded()
      && backfills + (if backfillsLeft < 0 then 0 else backfillsLeft) <= allowance
    }

    /** How many of a card's sheets left the feed. */
    ghost function Leaves(h: string): nat
      reads `left
    {
      multiset(left)[h]
    }

    /** Every share sheet opened for a card is a failure counted against its hash, or the last one. */
    ghost predicate SheetsBounded()
      reads `linkFailures, `sheets, `thisRun, `left
    {
      && (forall h | h in linkFailures :: linkFailures[h] <= cfg.Retries())
      && (forall h | h in sheets :: sheets[h] <= Failures(linkFailures, h) + Leaves(h) + if h in thisRun then 1 else 0)
    }

    // --- the tables and the media directory ----------------------------------------------------

    /** Applies a change to the posts table. */
    method Write(ghost c: Change, next: Table)
      requires Valid() && Allowed(posts, c) && next == Apply(posts, c)
      modifies this`posts, this`changes
      ensures Valid() && posts == next && changes == old(changes) + [c]
    {
      hide Allowed, Apply, ValidTable, AllowedAll, ApplyAll, SheetsBounded;
      Recorded(start, changes, posts, c);
      posts := next;
      changes := changes + [c];
    }

    method Remember(id: string, h: string)
      requires Valid() && Counted(start, posts, newPosts)
      modifies this`posts, this`changes
      ensures Valid() && Counted(start, posts, newPosts) && posts == RememberHash(old(posts), id, h)
      ensures Covers(posts) == old(Covers(posts))
    {
      SameRows(posts, RememberHash(posts, id, h));
      Write(Change.Remember(id, h), RememberHash(posts, id, h));
      hide ValidTable, AllowedAll, ApplyAll, SheetsBounded;
      assert forall i | i in posts :: posts[i].mediaFile == old(posts)[i].mediaFile;
    }

    /** Unlinks media files; one that isn't there is no error. */
    method DiscardMedia(discarded: seq<File>)
      modifies this`files
      ensures files == old(files) - (set f | f in discarded)
    {
      for i := 0 to |discarded|
        invariant files == old(files) - (set f | f in discarded[..i])
      {
        files := files - {discarded[i]};
        assert discarded[..i + 1] == discarded[..i] + [discarded[i]];
      }
      assert discarded[..|discarded|] == discarded;
    }

    /** Renames a cover and its slides after `stem`, one file at a time. */
    method RenameMedia(stem: string, media: File, extra: seq<File>) returns (cover: File, others: seq<File>)
      requires media.Cover? && media.stem != stem && extra == Slides(media.stem, |extra|)
      modifies this`files
      ensures cover == Cover(stem) && others == Slides(stem, |extra|)
      ensures files == old(files) - Captured(media.stem, true, |extra|) + Captured(stem, true, |extra|)
    {
      ghost var from := media.stem;
      cover, others := Cover(stem), Slides(stem, |extra|);
      files := files - {media} + {cover};
      for i := 0 to |extra|
        invariant files == old(files) - Captured(from, true, i) + Captured(stem, true, i)
      {
        files := files - {extra[i]} + {others[i]};
        assert SlideSet(from, i + 1) == SlideSet(from, i) + {Slide(from, i + 1)};
        assert SlideSet(stem, i + 1) == SlideSet(stem, i) + {Slide(stem, i + 1)};
      }
    }

    // --- looking a card up --------------------------------------------------------------------

    /** Whether a stored row has a card's caption, for a caption that can be told by. */
    ghost predicate CaptionStored(p: Post)
      requires ValidTable(posts)
      reads this
    {
      && Distinctive(ShownCaption(p))
      && exists id :: id in posts && HasCaption(posts[id], p.username, ShownCaption(p), cfg.since, None)
    }

    /** A card's row, if it has one. The hash finds it at once; failing that an undated card is looked up by its
        caption, and the row found is given the hash. */
    method FindStored(p: Post, h: string) returns (stored: Option<Row>)
      requires Valid() && Counted(start, posts, newPosts)
      modifies this`posts, this`changes
      ensures Valid()
      ensures stored.Some? <==> Known(old(posts), h) || (p.postedDate == "" && old(CaptionStored(p)))
      ensures stored.Some? ==> stored.value.id in old(posts) && stored.value == old(posts)[stored.value.id]
      ensures stored.Some? && Known(old(posts), h) ==> FoundBy(stored.value, h)
      ensures stored.Some? && !Known(old(posts), h) ==> FirstWithCaption(cfg, old(posts), p, stored.value)
      ensures posts == if stored.None? || Known(old(posts), h) then old(posts)
                       else RememberHash(old(posts), stored.value.id, h)
      ensures Counted(start, posts, newPosts)
      ensures stored.Some? ==> IsStored(posts, stored.value, h)
      ensures Covers(posts) == old(Covers(posts))
    {
      hide *;
      stored := FindByHash(h);
      if stored.None? && p.postedDate == "" {
        stored := FindByCaption(p, h);
      }
    }

    method FindByHash(h: string) returns (stored: Option<Row>)
      requires Valid()
      ensures stored.Some? <==> Known(posts, h)
      ensures stored.Some? ==> stored.value.id in posts && stored.value == posts[stored.value.id]
      ensures stored.Some? ==> IsStored(posts, stored.value, h) && FoundBy(stored.value, h)
    {
      hide AllowedAll, ApplyAll, SheetsBounded;
      if id :| id in posts && FoundBy(posts[id], h) {
        RowIdIsKey(posts, id);
        return Some(posts[id]);
      }
      return None;
    }

    method FindByCaption(p: Post, h: string) returns (stored: Option<Row>)
      requires Valid() && Counted(start, posts, newPosts)
      modifies this`posts, this`changes
      ensures Valid() && Counted(start, posts, newPosts)
      ensures stored.Some? <==> old(CaptionStored(p))
      ensures stored.Some? ==> stored.value.id in old(posts) && stored.value == old(posts)[stored.value.id]
      ensures stored.Some? ==> FirstWithCaption(cfg, old(posts), p, stored.value)
      ensures posts == if stored.None? then old(posts) else RememberHash(old(posts), stored.value.id, h)
      ensures stored.Some? ==> IsStored(posts, stored.value, h)
      ensures Covers(posts) == old(Covers(posts))
    {
      hide ValidTable, AllowedAll, ApplyAll, SheetsBounded, FlatCaption, IsWeak, Truncate, Covers, Counted;
      var rows := SelectInOrder(posts);
      stored := FindSameCaption(rows, p.username, ShownCaption(p), cfg.since, None);
      hide HasCaption, Distinctive;
      assert forall id | id in posts :: posts[id] in rows by { forall id | id in posts { RowIdIsKey(posts, id); } }
      if stored.Some? {
        Remember(stored.value.id, h);
        assert FoundBy(posts[stored.value.id], h);
      }
    }

    // --- the share sheet ------------------------------------------------------------------------

    /** A link come again is believed only if the post it is stored for could be the card. */
    method FetchPermalink(c: Capture, card: Option<Post>) returns (link: Option<(string, string)>)
      requires c.Valid()
      ensures link.Some? <==>
              || c.fetch.Copied?
              || (c.fetch.Repeat? && card.Some? && c.fetch.code in posts
                  && posts[c.fetch.code].username == card.value.username
                  && SameCaption(OrEmpty(posts[c.fetch.code].caption), OrEmpty(ShownCaption(card.value))))
      ensures link.Some? ==> link.value == (c.fetch.url, c.fetch.code)
      ensures if card.Some? then link.Some? == Linked(posts, card.value, c) else link == CopiedLink(c)
    {
      if c.fetch.Repeat? && card.Some? && StoredUnder(posts, c.fetch.code, card.value) {
        return Some((c.fetch.url, c.fetch.code));
      }
      return if c.fetch.Copied? then Some((c.fetch.url, c.fetch.code)) else None;
    }

    /** One more Copy link try for a row with no permalink yet. */
    method BackfillPermalink(stored: Row, c: Capture)
      requires Valid() && Counted(start, posts, newPosts) && c.Valid() && stored.id in posts
               && posts[stored.id].url.None?
      requires backfills < allowance - if backfillsLeft < 0 then 0 else backfillsLeft
      modifies this`posts, this`changes, this`backfills
      ensures Valid() && backfills == old(backfills) + 1
      ensures posts == Backfill(old(posts), stored.id, CopiedLink(c), c.now) && Counted(start, posts, newPosts)
      ensures Covers(posts) == old(Covers(posts))
    {
      var link := FetchPermalink(c, None);
      backfills := backfills + 1;
      TryOutcome(posts, stored.id, link, c.now);
      hide ValidTable, AllowedAll, ApplyAll, SheetsBounded, Taken, Allowed, Apply, Backfill, Covers;
      Write(Try(stored.id, link, c.now), Backfill(posts, stored.id, link, c.now));
    }

    /** What holding a link says about its id: nobody has it, a stale guess of it is stored, or the post is. */
    method CheckPermalink(p: Post, h: string, pid: string, c: Capture) returns (check: LinkCheck)
      requires Valid() && Counted(start, posts, newPosts)
      modifies this`posts, this`changes, this`seenStreak
      ensures Valid()
      ensures check.Free? <==> pid !in old(posts)
      ensures check.Stale? <==>
                pid in old(posts) && old(posts)[pid].username !in ["", p.username] && !c.certain
      ensures !check.Stored? ==> posts == old(posts)
      ensures check.Stored? ==> Known(posts, h) && posts == RememberHash(old(posts), pid, h)
      ensures Counted(start, posts, newPosts) && seenStreak == old(seenStreak) + if check.Stored? then 1 else 0
      ensures Covers(posts) == old(Covers(posts))
    {
      hide ValidTable, AllowedAll, ApplyAll, SheetsBounded;
      if pid !in posts {
        return Free;
      }
      var owner := posts[pid].username;
      if owner != "" && owner != p.username && !c.certain {
        return Stale;
      }
      seenStreak := seenStreak + 1;
      Remember(pid, h);
      assert FoundBy(posts[pid], h);
      return Stored;
    }

    // --- storing a card -------------------------------------------------------------------------

    /** The row a captured card would be stored as. */
    function CardRow(p: Post, h: string, pid: string, url: Option<string>, media: Option<File>, c: Capture): (r: Row)
      requires c.Valid() && forall s :: cfg.digest(s) != ""
      requires h != ""
      ensures FreshRow(r) && r.id == pid && r.hash == Some(h) && r.url == url && r.mediaFile == media
      ensures r.altHash == if cfg.Hash(p) != h then Some(cfg.Hash(p)) else None
    {
      var expanded := cfg.Hash(p);
      assert expanded != "";
      Row(pid, p.username, Some(p.kind), Some(p.postedDate), ShownCaption(p), media, c.now, Some(h),
          if expanded != h then Some(expanded) else None, url, Some(p.place),
          if c.postedAt.Some? then Some(c.postedAt.value.0) else None, Some(c.now), cfg.igVersion, 0)
    }

    /** The row a card is stored as has what is on the card: its caption, or else its description, and its time, if it
        shows one that could be read. */
    lemma {:induction false} CardRowShows(p: Post, h: string, pid: string, url: Option<string>, media: Option<File>,
                                          c: Capture)
      requires c.Valid() && (forall s :: cfg.digest(s) != "") && h != ""
      ensures var r := CardRow(p, h, pid, url, media, c);
              && r.username == p.username && r.kind == Some(p.kind) && r.place == Some(p.place)
              && (p.caption != "" ==> r.caption == Some(p.caption)) && (p.caption == "" ==> r.caption == Some(p.alt))
              && r.postedDate == Some(p.postedDate) && (r.postedAt.Some? <==> c.postedAt.Some?)
              && (c.postedAt.Some? ==> r.postedAt.value == c.postedAt.value.0)
              && r.scrapedAt == c.now && r.updatedAt == Some(c.now) && r.permalinkAttempts == 0
              && r.igVersion == cfg.igVersion
    {
    }

    /** Whether a stored row is the post of a captured card: by time and caption, or by caption alone for
        a card without a date. */
    ghost predicate Repeats(r: Row, p: Post, c: Capture)
      requires r.Valid() && c.Valid()
    {
      match c.postedAt
      case None => HasCaption(r, p.username, ShownCaption(p), cfg.since, None)
      case Some(at) => IsDuplicate(r, PostTable.Card(p.username, ShownCaption(p), at.0, Some(at.1)), None)
    }

    ghost predicate HasDuplicate(p: Post, c: Capture)
      requires ValidTable(posts) && c.Valid()
      reads `posts
    {
      && (c.postedAt.None? ==> Distinctive(ShownCaption(p)))
      && exists id :: id in posts && Repeats(posts[id], p, c)
    }

    /** The id of the stored post a captured card is a second sighting of. */
    method FindStoredDuplicate(p: Post, c: Capture) returns (dup: Option<string>)
      requires Valid() && c.Valid()
      ensures dup.Some? <==> HasDuplicate(p, c)
      ensures dup.Some? ==> dup.value in posts && Repeats(posts[dup.value], p, c)
    {
      hide AllowedAll, ApplyAll, SheetsBounded, HasCaption, Distinctive, IsDuplicate;
      var rows := SelectInOrder(posts);
      assert forall id | id in posts :: posts[id] in rows && posts[id].id == id;
      if c.postedAt.None? {
        var same := FindSameCaption(rows, p.username, ShownCaption(p), cfg.since, None);
        return if same.Some? then Some(same.value.id) else None;
      }
      var (at, precision) := c.postedAt.value;
      var found := FindDuplicate(rows, PostTable.Card(p.username, ShownCaption(p), at, Some(precision)), None);
      return if found.Found? then Some(found.id) else None;
    }

    /** The duplicate's row takes what the capture adds; of its files only a cover the row lacked stays. */
    method MergeCard(dup: string, row: Row, extra: seq<File>, now: DateTime) returns (ghost kept: set<File>)
      requires Valid() && dup in posts && FreshRow(row) && now.Valid() && (IsSet(row.url) ==> row.id !in posts)
      requires row.mediaFile.Some? ==> row.mediaFile.value.Cover? && row.mediaFile.value in files
      requires forall f | f in extra :: f.Slide?
      modifies this`posts, this`changes, this`files
      ensures Valid() && |posts| == |old(posts)| && changes == old(changes) + [Merge(dup, row, now)]
      ensures var m := MergedRow(old(posts)[dup], row, now); m.id in posts && posts[m.id] == m
      ensures Known(posts, row.hash.value) && (row.altHash.Some? ==> Known(posts, row.altHash.value))
      ensures kept <= if row.mediaFile.Some? then {row.mediaFile.value} else {}
      ensures files ==
              old(files) - (set f | f in extra) - (if row.mediaFile.Some? then {row.mediaFile.value} else {}) + kept
      ensures Covers(posts) == old(Covers(posts)) + kept
    {
      hide ValidTable, AllowedAll, ApplyAll, SheetsBounded, MergedRow, WriteMerged, Allowed, Apply, Covers;
      var merged := MergedRow(posts[dup], row, now);
      var drop := MediaToDrop(posts[dup], row);
      MergeOutcome(posts, dup, row, now);
      MergedCovers(posts, dup, row, now);
      kept := if row.mediaFile.Some? && drop.None? then {row.mediaFile.value} else {};
      Write(Merge(dup, row, now), WriteMerged(posts, dup, merged));
      DiscardMedia((if drop.Some? then [drop.value] else []) + extra);
    }

    /** Inserts a captured card as a new post, its files named after its id. */
    method InsertCard(row: Row, extra: seq<File>)
      requires Valid() && FreshRow(row) && row.id !in posts
      requires row.mediaFile.Some? ==> row.mediaFile == Some(Cover(row.hash.value))
      requires extra == Slides(row.hash.value, |extra|) && (row.mediaFile.None? ==> extra == [])
      requires Captured(row.hash.value, row.mediaFile.Some?, |extra|) <= files
      modifies this`posts, this`changes, this`slides, this`files
      ensures Valid() && posts == old(posts)[row.id := Filed(row)]
      ensures changes == old(changes) + [Change.New(Filed(row))]
      ensures SlidesAdded(old(slides), slides, row.id, Slides(row.id, |extra|))
      ensures files == old(files) - Captured(row.hash.value, row.mediaFile.Some?, |extra|)
                                  + Captured(row.id, row.mediaFile.Some?, |extra|)
    {
      hide ValidTable, AllowedAll, ApplyAll, SheetsBounded, Allowed, Apply, Covers, SlideSet;
      var media, others := NameFiles(row.id, row.hash.value, row.mediaFile, extra);
      NewOutcome(posts, row);
      Write(Change.New(Filed(row)), posts[row.id := row.(mediaFile := media)]);
      InsertSlides(row.id, others);
    }

    /** Moves a capture's files from the hash's names to the id's, if the two are not the same. */
    method NameFiles(pid: string, h: string, media: Option<File>, extra: seq<File>)
      returns (cover: Option<File>, others: seq<File>)
      requires media.Some? ==> media == Some(Cover(h))
      requires extra == Slides(h, |extra|) && (media.None? ==> extra == [])
      requires Captured(h, media.Some?, |extra|) <= files
      modifies this`files
      ensures cover == if media.Some? then Some(Cover(pid)) else None
      ensures others == Slides(pid, |extra|)
      ensures files == old(files) - Captured(h, media.Some?, |extra|) + Captured(pid, media.Some?, |extra|)
    {
      cover, others := media, extra;
      if media.Some? && pid != h {
        var renamed;
        renamed, others := RenameMedia(pid, media.value, extra);
        cover := Some(renamed);
      }
    }

    /** Records a new post's slides, in order. */
    method InsertSlides(pid: string, others: seq<File>)
      modifies this`slides
      ensures SlidesAdded(old(slides), slides, pid, others)
    {
      for i := 0 to |others|
        invariant SlidesAdded(old(slides), slides, pid, others[..i])
      {
        slides := slides[(pid, i + 1) := others[i]];
      }
      assert others[..|others|] == others;
    }

    method AddPost(row: Row, extra: seq<File>) returns (ghost kept: set<File>)
      requires Valid() && FreshRow(row) && row.id !in posts
      requires row.mediaFile.Some? ==> row.mediaFile == Some(Cover(row.hash.value))
      requires extra == Slides(row.hash.value, |extra|) && (row.mediaFile.None? ==> extra == [])
      requires Captured(row.hash.value, row.mediaFile.Some?, |extra|) <= files
      modifies this`posts, this`changes, this`slides, this`files
      ensures Valid() && posts == old(posts)[row.id := Filed(row)]
      ensures changes == old(changes) + [Change.New(Filed(row))]
      ensures Known(posts, row.hash.value) && (row.altHash.Some? ==> Known(posts, row.altHash.value))
      ensures Accounted(old(Store(posts, slides, files)), Store(posts, slides, files), row.hash.value, row.id,
              row.mediaFile.Some?, |extra|, kept)
    {
      hide ValidTable, AllowedAll, ApplyAll, SheetsBounded, SlideSet, SlidesAdded, Covers;
      InsertCard(row, extra);
      kept := Captured(row.id, row.mediaFile.Some?, |extra|);
      assert FoundBy(posts[row.id], row.hash.value);
      assert row.altHash.Some? ==> FoundBy(posts[row.id], row.altHash.value);
      if NamesFree(old(Store(posts, slides, files)), row.id) {
        InsertedFiles(old(posts), row, old(slides), slides, |extra|);
      }
    }

    method MergeCapture(dup: string, row: Row, extra: seq<File>, now: DateTime) returns (ghost kept: set<File>)
      requires Valid() && dup in posts && FreshRow(row) && now.Valid() && (IsSet(row.url) ==> row.id !in posts)
      requires row.mediaFile.Some? ==> row.mediaFile == Some(Cover(row.hash.value))
      requires extra == Slides(row.hash.value, |extra|)
      requires Captured(row.hash.value, row.mediaFile.Some?, |extra|) <= files
      modifies this`posts, this`changes, this`files
      ensures Valid() && |posts| == |old(posts)| && changes == old(changes) + [Merge(dup, row, now)]
      ensures Known(posts, row.hash.value) && (row.altHash.Some? ==> Known(posts, row.altHash.value))
      ensures Accounted(old(Store(posts, slides, files)), Store(posts, slides, files), row.hash.value, row.id,
              row.mediaFile.Some?, |extra|, kept)
    {
      hide ValidTable, AllowedAll, ApplyAll, SheetsBounded, SlideSet, Covers, MergedRow;
      SlidesAsSet(row.hash.value, |extra|);
      kept := MergeCard(dup, row, extra, now);
    }

    method DiscardCapture(h: string, ghost pid: string, media: Option<File>, extra: seq<File>)
      requires (media.Some? ==> media == Some(Cover(h))) && extra == Slides(h, |extra|)
      modifies this`files
      ensures Accounted(old(Store(posts, slides, files)), Store(posts, slides, files), h, pid, media.Some?, |extra|, {})
    {
      SlidesAsSet(h, |extra|);
      DiscardMedia((if media.Some? then [media.value] else []) + extra);
    }

    /**
     What becomes of a captured card: a row of its own, part of the duplicate's row, or nothing when it has no
     header, no date and no link to be known by.
     */
    method StorePost(p: Post, h: string, pid: string, url: Option<string>, media: Option<File>, extra: seq<File>,
                     c: Capture)
      returns (result: StoreResult, ghost kept: set<File>)
      requires Valid() && c.Valid() && pid !in posts && h != "" && (url.None? ==> pid == h)
               && (url.Some? ==> url.value != "")
      requires HasCapture(files, p, h, c, media, extra)
      modifies this`posts, this`changes, this`slides, this`files
      ensures Valid()
      ensures result.Merged? <==> old(HasDuplicate(Expand(p, c), c))
      ensures result.Skipped? <==>
                !old(HasDuplicate(Expand(p, c), c)) && p.headless && c.postedAt.None? && url.None?
      ensures var row := CardRow(Expand(p, c), h, pid, url, media, c);
              match result
              case Skipped => posts == old(posts) && changes == old(changes)
              case New => |posts| == |old(posts)| + 1 && changes == old(changes) + [Change.New(Filed(row))]
              case Merged => |posts| == |old(posts)| && exists dup | dup in old(posts) ::
                Repeats(old(posts)[dup], Expand(p, c), c) && changes == old(changes) + [Merge(dup, row, c.now)]
      ensures !result.Skipped? ==> Known(posts, h) && Known(posts, cfg.Hash(Expand(p, c)))
      ensures Accounted(old(Store(posts, slides, files)), Store(posts, slides, files), h, pid, c.crop,
              SlideCount(p, c), kept)
    {
      hide ValidTable, AllowedAll, ApplyAll, SheetsBounded, HasDuplicate, Repeats, Accounted, FreshRow, CardRow, Filed,
           Captured, Known;
      var q := Expand(p, c);
      var row := CardRow(q, h, pid, url, media, c);
      var dup := FindStoredDuplicate(q, c);
      if dup.Some? {
        kept := MergeCapture(dup.value, row, extra, c.now);
        return Merged, kept;
      }
      if p.headless && c.postedAt.None? && url.None? {
        DiscardCapture(h, pid, media, extra);
        return Skipped, {};
      }
      kept := AddPost(row, extra);
      return StoreResult.New, kept;
    }

    // --- one card -------------------------------------------------------------------------------

    /** Crops a card's media, and its extra slides if it is a carousel. */
    method TakeCapture(p: Post, h: string, c: Capture) returns (media: Option<File>, extra: seq<File>)
      modifies this`files
      ensures TakenFor(old(Store(posts, slides, files)), Store(posts, slides, files), p, h, c, media, extra)
    {
      media, extra := None, [];
      if c.crop {
        media := Some(Cover(h));
        files := files + {Cover(h)};
      }
      if media.Some? && p.kind == "carousel" {
        extra := Slides(h, c.slides);
        SlidesAsSet(h, c.slides);
        files := files + (set f | f in extra);
      }
    }

    /** A card whose post is stored: it costs a share sheet only to backfill a missing permalink. */
    method HandleStored(stored: Row, h: string, c: Capture) returns (result: CardResult)
      requires Valid() && Counted(start, posts, newPosts) && c.Valid() && IsStored(posts, stored, h)
      modifies this`posts, this`changes, this`thisRun, this`seenStreak, this`backfillsLeft, this`backfills
      ensures Valid() && thisRun == old(thisRun) + {h} && seenStreak == old(seenStreak) + 1
      ensures Covers(posts) == old(Covers(posts)) && Counted(start, posts, newPosts)
      ensures posts == if result.Redump? then Backfill(old(posts), stored.id, CopiedLink(c), c.now) else old(posts)
      ensures result.Redump? <==>
                old(backfillsLeft) > 0 && stored.url.None? && stored.permalinkAttempts < cfg.backfillTries
      ensures result.Redump? <==> old(backfillsLeft) > 0 && NeedsPermalink(cfg, stored)
      ensures backfills == old(backfills) + (if result.Redump? then 1 else 0)
      ensures backfillsLeft == old(backfillsLeft) - (if result.Redump? then 1 else 0)
    {
      thisRun := thisRun + {h};
      seenStreak := seenStreak + 1;
      assert SheetsBounded();
      hide ValidTable, AllowedAll, ApplyAll, SheetsBounded, Covers;
      if backfillsLeft > 0 && NeedsPermalink(cfg, stored) {
        backfillsLeft := backfillsLeft - 1;
        BackfillPermalink(stored, c);
        return Redump;
      }
      return NextCard;
    }

    /** Marks another hash handled, but that of a card whose link led to a stored post. */
    method NoteHandled(h: string, stored: bool)
      requires Valid()
      modifies this`thisRun
      ensures Valid() && thisRun == old(thisRun) + if stored then {} else {h}
    {
      hide ValidTable, AllowedAll, ApplyAll;
      if !stored {
        thisRun := thisRun + {h};
      }
    }

    /** Marks a card handled once its last share sheet is over, unless the sheet left the feed. */
    method CountSheet(h: string, leftFeed: bool)
      requires Valid() && h !in thisRun
      modifies this`thisRun, this`sheets, this`left
      ensures Valid() && left == old(left) + if leftFeed then [h] else []
      ensures thisRun == if leftFeed then old(thisRun) else old(thisRun) + {h}
      ensures sheets == Opened(old(sheets), h)
    {
      hide ValidTable, AllowedAll, ApplyAll;
      thisRun := thisRun + {h};
      sheets := Opened(sheets, h);
      if leftFeed {
        left := left + [h];
        thisRun := thisRun - {h};  // not done with it: the feed starts over
      }
    }

    /** With a link of the card's own account the post may turn out stored; otherwise the link is its id and url,
        or for want of one the hash is its id. */
    method SettleLink(p: Post, h: string, link: Option<(string, string)>, c: Capture)
      returns (stored: bool, pid: string, url: Option<string>)
      requires Valid() && Counted(start, posts, newPosts) && c.Valid() && h !in posts
               && (link.Some? ==> link.value.0 != "")
      modifies this`posts, this`changes, this`seenStreak
      ensures Valid() && Untouched(old(Store(posts, slides, files)), Store(posts, slides, files))
      ensures Counted(start, posts, newPosts) && (stored ==> Kept(old(posts), posts, p, h, c, link.Some?))
      ensures Settled(old(posts), posts, h, link, stored, pid, url) && NamedFor(old(posts), h, link, pid)
      ensures stored <==> LeadsToStored(old(posts), p, c, link)
    {
      hide ValidTable, AllowedAll, ApplyAll, Covers, SheetsBounded;
      stored, pid, url := false, h, None;
      if link.Some? {
        var check := CheckPermalink(p, h, link.value.1, c);
        if check.Stored? {
          stored := true;
        } else if check.Free? {
          pid, url := link.value.1, Some(link.value.0);
        }
      }
    }

    /** Stores a card and counts what became of it. */
    method StoreAndCount(p: Post, h: string, link: Option<(string, string)>, pid: string, url: Option<string>,
                         media: Option<File>, extra: seq<File>, c: Capture, ghost was: Store)
      returns (ghost kept: set<File>)
      requires Valid() && Counted(start, posts, newPosts) && c.Valid() && h != ""
      requires HasCapture(files, p, h, c, media, extra)
      requires Settled(was.posts, posts, h, link, false, pid, url) && Untouched(was, Store(posts, slides, files))
      modifies this`posts, this`changes, this`slides, this`files, this`seenStreak, this`newPosts
      ensures Valid()
      ensures Counted(start, posts, newPosts) && Kept(was.posts, posts, p, h, c, link.Some?)
      // a merge is one more change and no more posts: it is the one that counts towards stopping
      ensures seenStreak == |changes| - |old(changes)| - (|posts| - |old(posts)|)
      ensures Accounted(was, Store(posts, slides, files), h, pid, c.crop, SlideCount(p, c), kept)
    {
      hide *;
      SettledNew(was.posts, posts, h, link, pid, url);
      SettledIsNow(was, Store(posts, slides, files), h, link, pid, url);
      EmptyHasNoDuplicate(Expand(p, c), c);
      seenStreak := 0;
      var result;
      result, kept := StorePost(p, h, pid, url, media, extra, c);
      StoredIsKept(was.posts, posts, p, h, c, link.Some?, result.Skipped?);
      CountedAfter(start, was.posts, posts, newPosts, if result.New? then 1 else 0);
      if result.New? {
        newPosts := newPosts + 1;
      } else if result.Merged? {
        seenStreak := seenStreak + 1;
      }
    }

    lemma {:induction false} EmptyHasNoDuplicate(p: Post, c: Capture)
      requires Valid() && c.Valid()
      ensures ValidTable(posts) && (posts == map[] ==> !HasDuplicate(p, c))
    {
    }

    /** A captured card that won't be tried again: settle what it is stored under, and store it. */
    method KeepCard(p: Post, h: string, link: Option<(string, string)>, media: Option<File>, extra: seq<File>,
                    c: Capture)
      returns (ghost named: string, ghost kept: set<File>)
      requires Valid() && Counted(start, posts, newPosts) && c.Valid() && h == cfg.Hash(p) && h !in thisRun
               && !Known(posts, h)
      requires link.Some? ==> link.value.0 != ""
      requires HasCapture(files, p, h, c, media, extra)
      modifies this`posts, this`changes, this`slides, this`files, this`thisRun, this`sheets, this`left,
               this`seenStreak, this`newPosts
      ensures Valid() && left == old(left) + if c.leftFeed then [h] else []
      ensures sheets == Opened(old(sheets), h)
      ensures Counted(start, posts, newPosts) && Kept(old(posts), posts, p, h, c, link.Some?)
      ensures NamedFor(old(posts), h, link, named)
      ensures AreNoted(old(thisRun), thisRun, h, cfg.Hash(Expand(p, c)), c.leftFeed,
                       LeadsToStored(old(posts), p, c, link))
      ensures Accounted(old(Store(posts, slides, files)), Store(posts, slides, files), h, named, c.crop,
              SlideCount(p, c), kept)
    {
      hide *;
      NotAnId(h);
      CountSheet(h, c.leftFeed);
      ghost var counted := thisRun;
      var stored;
      stored, named, kept := PlaceCard(p, h, link, media, extra, c);
      NoteHandled(cfg.Hash(Expand(p, c)), stored);  // under the expanded caption's hash too
      NotedToo(old(thisRun), counted, thisRun, h, cfg.Hash(Expand(p, c)), c.leftFeed, stored);
    }

    lemma {:induction false} NotedToo(handled: set<string>, counted: set<string>, after: set<string>, h: string,
                                      expanded: string, leftFeed: bool, stored: bool)
      requires counted == (if leftFeed then handled else handled + {h}) && h !in handled
      requires after == counted + if stored then {} else {expanded}
      ensures AreNoted(handled, after, h, expanded, leftFeed, stored)
    {
    }

    lemma {:induction false} NotedMeans(posts: Table, p: Post, c: Capture, link: Option<(string, string)>,
                                        handled: set<string>, after: set<string>, h: string)
      requires h !in handled
      requires AreNoted(handled, after, h, cfg.Hash(Expand(p, c)), c.leftFeed, LeadsToStored(posts, p, c, link))
      ensures handled <= after && (!c.leftFeed ==> h in after)
      ensures link.None? && cfg.Hash(Expand(p, c)) != h && c.leftFeed ==> h !in after
    {
    }

    method PlaceCard(p: Post, h: string, link: Option<(string, string)>, media: Option<File>, extra: seq<File>,
                     c: Capture)
      returns (stored: bool, ghost named: string, ghost kept: set<File>)
      requires Valid() && Counted(start, posts, newPosts) && c.Valid() && h == cfg.Hash(p) && h !in posts
      requires link.Some? ==> link.value.0 != ""
      requires HasCapture(files, p, h, c, media, extra)
      modifies this`posts, this`changes, this`slides, this`files, this`seenStreak, this`newPosts
      ensures Valid()
      ensures Counted(start, posts, newPosts) && Kept(old(posts), posts, p, h, c, link.Some?)
      ensures NamedFor(old(posts), h, link, named) && (stored <==> LeadsToStored(old(posts), p, c, link))
      ensures Accounted(old(Store(posts, slides, files)), Store(posts, slides, files), h, named, c.crop,
              SlideCount(p, c), kept)
    {
      HashIsSet(p);
      hide *;
      ghost var was := Store(posts, slides, files);
      var pid, url;
      stored, pid, url := SettleLink(p, h, link, c);
      named := pid;
      if stored {
        DiscardKnown(p, h, c, link, pid, url, media, extra, was);
        kept := {};
      } else {
        kept := StoreAndCount(p, h, link, pid, url, media, extra, c, was);
      }
    }

    /** Discards the capture of a card whose post turned out to be stored: `was` is the store before its hash
        was recorded. */
    method DiscardKnown(p: Post, h: string, c: Capture, link: Option<(string, string)>, pid: string,
                        url: Option<string>, media: Option<File>, extra: seq<File>, ghost was: Store)
      requires HasCapture(files, p, h, c, media, extra) && Untouched(was, Store(posts, slides, files))
      requires Settled(was.posts, posts, h, link, true, pid, url)
      requires Valid() && Counted(start, posts, newPosts) && Kept(was.posts, posts, p, h, c, link.Some?)
      modifies this`files
      ensures Valid() && Counted(start, posts, newPosts) && Kept(was.posts, posts, p, h, c, link.Some?)
      ensures Accounted(was, Store(posts, slides, files), h, pid, c.crop, SlideCount(p, c), {})
    {
      hide *;
      ghost var before := Store(posts, slides, files);
      SettledStored(was.posts, posts, h, link, pid, url);
      CaptureNames(files, p, h, c, media, extra);
      DiscardCapture(h, pid, media, extra);
      AccountedSince(was, before, Store(posts, slides, files), h, pid, c.crop, SlideCount(p, c));
    }

    lemma {:induction false} HashIsSet(p: Post)
      requires Valid()
      ensures cfg.Hash(p) != ""
    {
    }

    lemma {:induction false} NotAnId(h: string)
      requires Valid() && !Known(posts, h)
      ensures h !in posts
    {
      if h in posts {
        assert FoundBy(posts[h], h);
      }
    }

    /** What handling a card came to, for the proofs: whether media was captured, and where it went. */
    ghost predicate Conserved(s: Store, t: Store, p: Post, c: Capture, done: Handled) {
      if done.captured then
        && (done.named == cfg.Hash(p) || (!c.fetch.Failed? && done.named == c.fetch.code && done.named !in s.posts))
        && Accounted(s, t, cfg.Hash(p), done.named, c.crop, SlideCount(p, c), done.kept)
      else t.files == s.files && t.slides == s.slides && Covers(t.posts) == Covers(s.posts)
    }

    /** A card not stored yet: capture it, ask for its link, and store it unless the link is worth another try. */
    method HandleNew(p: Post, h: string, c: Capture) returns (ghost done: Handled)
      requires Valid() && Counted(start, posts, newPosts) && c.Valid() && h == cfg.Hash(p) && h !in thisRun
               && !Known(posts, h)
      modifies this`posts, this`changes, this`slides, this`files, this`thisRun, this`sheets, this`left,
               this`seenStreak, this`newPosts, this`linkFailures
      ensures Valid() && (left == old(left) || (c.leftFeed && left == old(left) + [h]))
      ensures Spent(cfg.Retries(), old(linkFailures), old(thisRun), linkFailures, thisRun, h, left != old(left))
      ensures Stalls(cfg, old(thisRun), old(linkFailures), p, c) ==> h !in thisRun
      ensures done.captured && Conserved(old(Store(posts, slides, files)), Store(posts, slides, files), p, c, done)
      ensures Counted(start, posts, newPosts) && sheets == Opened(old(sheets), h)
      ensures if !Linked(old(posts), p, c) && Failures(old(linkFailures), h) < cfg.permalinkRetries
              then Retried(old(posts), posts, old(thisRun), thisRun, old(linkFailures), linkFailures, h)
              else linkFailures == old(linkFailures) && Kept(old(posts), posts, p, h, c, Linked(old(posts), p, c))
    {
      hide *;
      NotYetStalled(p, c);
      ghost var was := Store(posts, slides, files);
      var media, extra := TakeCapture(p, h, c);
      var link := FetchPermalink(c, Some(p));
      FetchedIsLink(c, link);
      if link.None? && Failures(linkFailures, h) < cfg.permalinkRetries {
        RetryLater(p, h, media, extra, c, was);
        done := Handled(true, h, {});
      } else {
        done := StopTrying(p, h, link, media, extra, c, was);
      }
    }

    lemma {:induction false} LinkIsSet(c: Capture, link: Option<(string, string)>)
      requires c.Valid() && (link.Some? ==> !c.fetch.Failed? && link.value == (c.fetch.url, c.fetch.code))
      ensures link.Some? ==> link.value.0 != ""
    {
    }

    lemma {:induction false} FetchedIsLink(c: Capture, link: Option<(string, string)>)
      requires link.Some? ==> c.fetch.Copied? || c.fetch.Repeat?
      ensures link.Some? ==> !c.fetch.Failed?
    {
    }

    lemma {:induction false} NotYetStalled(p: Post, c: Capture)
      ensures Failures(linkFailures, cfg.Hash(p)) < cfg.permalinkRetries ==> !Stalls(cfg, thisRun, linkFailures, p, c)
    {
    }

    method RetryLater(p: Post, h: string, media: Option<File>, extra: seq<File>, c: Capture, ghost was: Store)
      requires Valid() && h == cfg.Hash(p) && Failures(linkFailures, h) < cfg.permalinkRetries
      requires TakenFor(was, Store(posts, slides, files), p, h, c, media, extra)
      modifies this`files, this`linkFailures, this`sheets
      ensures Valid() && Spent(cfg.Retries(), old(linkFailures), old(thisRun), linkFailures, thisRun, h, false)
      ensures Retried(old(posts), posts, old(thisRun), thisRun, old(linkFailures), linkFailures, h)
      ensures sheets == Opened(old(sheets), h)
      ensures Conserved(was, Store(posts, slides, files), p, c, Handled(true, h, {}))
    {
      hide *;
      ghost var taken := Store(posts, slides, files);
      TakenIsThere(was, taken, p, h, c, media, extra);
      CountFailure(h);
      DiscardCapture(h, h, media, extra);
      FailureIsSpent(old(linkFailures), h);
      KeptIsConserved(was, taken, p, h, c, None, media, extra, h, {});
    }

    lemma {:induction false} FailureIsSpent(failures: map<string, nat>, h: string)
      requires Failures(failures, h) < cfg.permalinkRetries && linkFailures == failures[h := Failures(failures, h) + 1]
      ensures Spent(cfg.Retries(), failures, thisRun, linkFailures, thisRun, h, false)
      ensures Retried(posts, posts, thisRun, thisRun, failures, linkFailures, h)
    {
    }

    method StopTrying(p: Post, h: string, link: Option<(string, string)>, media: Option<File>, extra: seq<File>,
                      c: Capture, ghost was: Store)
      returns (ghost done: Handled)
      requires Valid() && Counted(start, posts, newPosts) && c.Valid() && h == cfg.Hash(p) && h !in thisRun
               && !Known(posts, h)
      requires link.Some? ==> !c.fetch.Failed? && link.value == (c.fetch.url, c.fetch.code)
      requires TakenFor(was, Store(posts, slides, files), p, h, c, media, extra)
      modifies this`posts, this`changes, this`slides, this`files, this`thisRun, this`sheets, this`left,
               this`seenStreak, this`newPosts
      ensures Valid() && (left == old(left) || (c.leftFeed && left == old(left) + [h]))
      ensures Spent(cfg.Retries(), old(linkFailures), old(thisRun), linkFailures, thisRun, h, left != old(left))
      ensures Stalls(cfg, old(thisRun), old(linkFailures), p, c) ==> h !in thisRun
      ensures sheets == Opened(old(sheets), h)
      ensures Counted(start, posts, newPosts) && Kept(old(posts), posts, p, h, c, link.Some?)
      ensures done.captured && Conserved(was, Store(posts, slides, files), p, c, done)
    {
      hide *;
      ghost var taken := Store(posts, slides, files);
      TakenIsThere(was, taken, p, h, c, media, extra);
      LinkIsSet(c, link);
      ghost var named, kept := KeepCard(p, h, link, media, extra, c);
      done := Handled(true, named, kept);
      NotedMeans(old(posts), p, c, link, old(thisRun), thisRun, h);
      KeptIsSpent(old(linkFailures), old(thisRun), h, left != old(left));
      KeptIsConserved(was, taken, p, h, c, link, media, extra, named, kept);
      StalledIsNotHandled(p, c, link, old(thisRun), old(linkFailures));
    }

    lemma {:induction false} KeptIsSpent(failures: map<string, nat>, handled: set<string>, h: string, away: bool)
      requires linkFailures == failures && handled <= thisRun && (!away ==> h in thisRun)
      ensures Spent(cfg.Retries(), failures, handled, linkFailures, thisRun, h, away)
    {
    }

    lemma {:induction false} KeptIsConserved(was: Store, taken: Store, p: Post, h: string, c: Capture,
                                             link: Option<(string, string)>, media: Option<File>, extra: seq<File>,
                                             named: string, kept: set<File>)
      requires h == cfg.Hash(p) && TakenFor(was, taken, p, h, c, media, extra)
               && (named == h || NamedFor(taken.posts, h, link, named))
      requires link.Some? ==> !c.fetch.Failed? && link.value == (c.fetch.url, c.fetch.code)
      requires Accounted(taken, Store(posts, slides, files), h, named, c.crop, SlideCount(p, c), kept)
      ensures Conserved(was, Store(posts, slides, files), p, c, Handled(true, named, kept))
    {
      hide Captured, Covers;
    }

    lemma {:induction false} StalledIsNotHandled(p: Post, c: Capture, link: Option<(string, string)>,
                                                 handled: set<string>, failures: map<string, nat>)
      requires link.Some? ==> !c.fetch.Failed?
      requires link.None? && cfg.Hash(Expand(p, c)) != cfg.Hash(p) && c.leftFeed && cfg.Hash(p) !in handled ==>
               cfg.Hash(p) !in thisRun
      ensures Stalls(cfg, handled, failures, p, c) ==> cfg.Hash(p) !in thisRun
    {
    }

    /** Counts a share sheet that gave no link against a card's hash. */
    method CountFailure(h: string)
      requires Valid() && Failures(linkFailures, h) < cfg.permalinkRetries
      modifies this`linkFailures, this`sheets
      ensures Valid() && linkFailures == old(linkFailures)[h := Failures(old(linkFailures), h) + 1]
      ensures sheets == Opened(old(sheets), h)
    {
      hide ValidTable, AllowedAll, ApplyAll;
      linkFailures := linkFailures[h := Failures(linkFailures, h) + 1];
      sheets := Opened(sheets, h);
    }

    /**
     A complete card not dealt with yet: a stored one may be due a Copy link try, a new one is captured. However
     that ends, each file of the capture is named by a row under its final name, or gone.
     */
    method HandleCard(p: Post, c: Capture) returns (result: CardResult, ghost done: Handled)
      requires Valid() && Counted(start, posts, newPosts) && c.Valid()
      modifies this`posts, this`changes, this`slides, this`files, this`thisRun, this`sheets, this`left,
               this`seenStreak, this`newPosts, this`linkFailures, this`backfillsLeft, this`backfills
      ensures Valid()
      ensures left == old(left) || (done.captured && c.leftFeed && left == old(left) + [cfg.Hash(p)])
      ensures Conserved(old(Store(posts, slides, files)), Store(posts, slides, files), p, c, done)
      ensures result.NextCard? ==>
                !done.captured && linkFailures == old(linkFailures)
                  && old(thisRun) <= thisRun <= old(thisRun) + {cfg.Hash(p)}
      ensures result.Redump? ==> cfg.Hash(p) !in old(thisRun) && p.complete
      ensures done.captured <==>
                cfg.Hash(p) !in old(thisRun) && p.complete
                && !Known(old(posts), cfg.Hash(p)) && !(p.postedDate == "" && old(CaptionStored(p)))
      ensures done.captured ==> result.Redump?
      ensures sheets == if done.captured then Opened(old(sheets), cfg.Hash(p)) else old(sheets)
      ensures backfills == old(backfills) + if result.Redump? && !done.captured then 1 else 0
      ensures result.NextCard? && cfg.Hash(p) !in old(thisRun) && p.complete ==>
                cfg.Hash(p) in thisRun && NothingOwed(cfg, posts, cfg.Hash(p), old(backfillsLeft))
      ensures Counted(start, posts, newPosts)
      ensures done.captured ==>
                if !Linked(old(posts), p, c) && Failures(old(linkFailures), cfg.Hash(p)) < cfg.permalinkRetries
                then Retried(old(posts), posts, old(thisRun), thisRun, old(linkFailures), linkFailures, cfg.Hash(p))
                else
                  linkFailures == old(linkFailures)
                  && Kept(old(posts), posts, p, cfg.Hash(p), c, Linked(old(posts), p, c))
      ensures result.Redump? ==>
                Spent(cfg.Retries(), old(linkFailures), old(thisRun), linkFailures, thisRun, cfg.Hash(p),
                      left != old(left))
      ensures done.captured && Stalls(cfg, old(thisRun), old(linkFailures), p, c) ==> cfg.Hash(p) !in thisRun
    {
      hide *;
      var h := cfg.Hash(p);
      ghost var was := Store(posts, slides, files);
      done := Handled(false, h, {});
      if h in thisRun || !p.complete {
        NothingCaptured(was, p, c, h);
        return NextCard, done;
      }
      var stored := FindStored(p, h);
      if stored.Some? {
        ghost var owed := old(backfillsLeft) > 0 && NeedsPermalink(cfg, stored.value);
        if !owed {
          StoredOwesNothing(cfg, posts, stored.value, h, old(backfillsLeft));
        }
        result := HandleStored(stored.value, h, c);
        NothingCaptured(was, p, c, h);
        AllSpent(old(linkFailures), old(thisRun), h);
      } else {
        done := HandleNew(p, h, c);
        result := Redump;
      }
    }

    lemma {:induction false} NothingCaptured(was: Store, p: Post, c: Capture, h: string)
      requires files == was.files && slides == was.slides && Covers(posts) == Covers(was.posts)
      ensures Conserved(was, Store(posts, slides, files), p, c, Handled(false, h, {}))
    {
    }

    lemma {:induction false} AllSpent(failures: map<string, nat>, handled: set<string>, h: string)
      ensures Spent(cfg.Retries(), failures, handled, failures, handled + {h}, h, false)
    {
    }

    // --- the walk -------------------------------------------------------------------------------

    /** Drops the cards of accounts not followed, if there is a list of those: `at` is where the others are. */
    method NoteScreen(d: Dump) returns (cards: seq<Post>, ghost at: seq<nat>)
      modifies this`emptyStreak
      ensures cfg.followed.None? ==> cards == d.cards
      ensures cfg.followed.Some? ==> IsPicked(cfg.followed.value + {""}, d.cards, cards, at)
      ensures cards == Followed(cfg.followed, d.cards)
      ensures emptyStreak == if cards == [] then old(emptyStreak) + 1 else 0
    {
      cards := Followed(cfg.followed, d.cards);
      at := [];
      if cfg.followed.Some? {
        FollowedArePicked(cfg.followed.value, d.cards);
        at := Where(cfg.followed.value + {""}, d.cards, 0);
      }
      emptyStreak := if cards != [] then 0 else emptyStreak + 1;
    }

    /** Reopens the feed once after too many empty screens; false when that has been done already. */
    method ReopenAfterEmptyScreens() returns (reopened: bool)
      modifies this`feedReopened, this`emptyStreak
      ensures reopened == !old(feedReopened) && feedReopened
      ensures emptyStreak == if reopened then 0 else old(emptyStreak)
    {
      if feedReopened {
        return false;
      }
      feedReopened, emptyStreak := true, 0;
      return true;
    }

    /** Takes a dump's cards in turn up to the first that something is done for; `at` is which. */
    method HandleDump(cards: seq<Post>, c: Capture, ghost universe: seq<string>) returns (acted: bool, ghost at: nat)
      requires Valid() && Counted(start, posts, newPosts) && c.Valid()
      requires forall p | p in cards :: cfg.Hash(p) in universe
      modifies this`posts, this`changes, this`slides, this`files, this`thisRun, this`sheets, this`left,
               this`seenStreak, this`newPosts, this`linkFailures, this`backfillsLeft, this`backfills
      ensures Valid() && Counted(start, posts, newPosts)
      ensures left == old(left)
              || (acted && c.leftFeed && at < |cards| && left == old(left) + [cfg.Hash(cards[at])])
      ensures old(thisRun) <= thisRun && Passed(cfg, thisRun, cards[..if acted && at < |cards| then at else |cards|])
      ensures if acted then
                at < |cards| && cards[at].complete
                && ActedOn(cfg, old(thisRun), old(sheets), old(backfills), sheets, backfills, cards[at])
              else sheets == old(sheets) && backfills == old(backfills) && linkFailures == old(linkFailures)
      ensures cards != [] && StallsAfresh(cfg, old(posts), old(thisRun), old(linkFailures), cards[0], c) ==>
                && acted && sheets == Opened(old(sheets), cfg.Hash(cards[0]))
                && StallsAfresh(cfg, posts, thisRun, linkFailures, cards[0], c)
      ensures AllTriesLeft(cfg.Retries(), linkFailures, thisRun, universe)
           <= old(AllTriesLeft(cfg.Retries(), linkFailures, thisRun, universe))
              - if acted && left == old(left) then 1 else 0
    {
      hide *;
      acted, at := false, 0;
      NonePassed(cfg, thisRun, cards);
      for i := 0 to |cards|
        invariant Valid() && Counted(start, posts, newPosts) && left == old(left)
        invariant old(thisRun) <= thisRun && Passed(cfg, thisRun, cards[..i])
        invariant sheets == old(sheets) && backfills == old(backfills) && linkFailures == old(linkFailures)
        invariant i == 0 ==> posts == old(posts) && thisRun == old(thisRun)
        invariant i > 0 ==> !StallsAfresh(cfg, old(posts), old(thisRun), old(linkFailures), cards[0], c)
        invariant AllTriesLeft(cfg.Retries(), linkFailures, thisRun, universe)
               <= old(AllTriesLeft(cfg.Retries(), linkFailures, thisRun, universe))
      {
        var result;
        ghost var done;
        ghost var failures, handled, hadSheets, hadBackfills := linkFailures, thisRun, sheets, backfills;
        ghost var hadLeft := left;
        FailuresAreCounted(cfg.Hash(cards[i]));
        StalledIsNew(cards[i], c);
        ghost var was := posts;
        result, done := HandleCard(cards[i], c);
        if result.Redump? {
          TriesShrink(cfg.Retries(), failures, handled, linkFailures, thisRun, cfg.Hash(cards[i]), left != hadLeft,
            universe);
          SpentGrows(cfg.Retries(), failures, handled, linkFailures, thisRun, cfg.Hash(cards[i]), left != hadLeft);
          PassedStays(cfg, handled, thisRun, cards[..i]);
          WasActedOn(cfg, old(thisRun), handled, hadSheets, hadBackfills, sheets, backfills, cards[i], done.captured);
          StaysEmpty(was, cards[i], c, handled, failures, done.captured);
          return true, i;
        }
        TriesDontGrow(cfg.Retries(), failures, handled, thisRun, universe);
        PassedOneMore(cfg, handled, thisRun, cards, i);
      }
    }

    lemma {:induction false} FailuresAreCounted(h: string)
      requires Valid()
      ensures h in linkFailures ==> linkFailures[h] <= cfg.Retries()
    {
    }

    /** What is left of the walk: scrolls, the one reopening, and the tries of every hash. */
    ghost function Remaining(universe: seq<string>): nat
      reads `screens, `feedReopened, `linkFailures, `thisRun
    {
      (if screens < cfg.maxScrolls then cfg.maxScrolls - screens else 0)
      + (if feedReopened then 0 else 1)
      + AllTriesLeft(cfg.Retries(), linkFailures, thisRun, universe)
    }

    /** One round of the walk: a dump's cards, or a screen with none too often, and on or not. */
    method TakeDump(d: Dump, ghost universe: seq<string>) returns (outcome: Outcome, ghost card: Option<Post>)
      requires Valid() && Counted(start, posts, newPosts) && d.capture.Valid() && screens < cfg.maxScrolls
      requires forall p | p in d.cards :: cfg.Hash(p) in universe
      modifies this
      ensures Valid() && Counted(start, posts, newPosts)
      ensures outcome.Acted? <==> card.Some?
      ensures left == old(left) || (card.Some? && d.capture.leftFeed && left == old(left) + [cfg.Hash(card.value)])
      ensures old(thisRun) <= thisRun
      ensures screens == old(screens) + if outcome.Scrolled? then 1 else 0
      ensures outcome.Reopened? || outcome.FeedEmpty? <==>
                cfg.emptyLimit != 0 && EmptyStreak(cfg, old(emptyStreak), d) >= cfg.emptyLimit
      ensures outcome.FeedEmpty? ==> old(feedReopened)
      ensures outcome.Reopened? ==> !old(feedReopened)
      ensures feedReopened == (old(feedReopened) || outcome.Reopened?)
      ensures emptyStreak == if outcome.Reopened? then 0 else EmptyStreak(cfg, old(emptyStreak), d)
      ensures outcome.Scrolled? || outcome.AlreadySeen? ==>
                && IsDone(cfg, thisRun, d.cards)
                && (outcome.AlreadySeen? <==> seenStreak >= cfg.stopAfterSeen)
      ensures if card.Some?
              then card.value in d.cards && IsWanted(cfg, card.value) && card.value.complete
                   && ActedOn(cfg, old(thisRun), old(sheets), old(backfills), sheets, backfills, card.value)
              else sheets == old(sheets) && backfills == old(backfills)
      ensures Followed(cfg.followed, d.cards) != [] && cfg.emptyLimit >= 0
              && StallsAfresh(cfg, old(posts), old(thisRun), old(linkFailures), Followed(cfg.followed, d.cards)[0],
                   d.capture) ==>
                var p := Followed(cfg.followed, d.cards)[0];
                outcome.Acted? && sheets == Opened(old(sheets), cfg.Hash(p))
                && StallsAfresh(cfg, posts, thisRun, linkFailures, p, d.capture)
      ensures outcome.Acted? || outcome.Scrolled? || outcome.Reopened? ==>
                Remaining(universe) <= old(Remaining(universe)) - if |left| == |old(left)| then 1 else 0
    {
      hide Valid, AllTriesLeft, Followed, Passed, ActedOn, Counted, StallsAfresh, Opened;
      hide IsDone, IsWanted, EmptyStreak, IsPicked;
      card := None;
      var cards;
      ghost var where;
      cards, where := NoteScreen(d);
      FollowedAreWanted(cfg, d.cards);
      StreakOf(cfg, old(emptyStreak), d);
      if cfg.emptyLimit != 0 && emptyStreak >= cfg.emptyLimit {
        var reopened := ReopenAfterEmptyScreens();
        return (if reopened then Reopened else FeedEmpty), None;
      }
      var acted;
      ghost var at;
      acted, at := HandleDump(cards, d.capture, universe);
      if acted {
        assert cards[at] in cards;
        return Acted, Some(cards[at]);
      }
      assert cards[..|cards|] == cards;
      AllDone(cfg, thisRun, d.cards);
      if seenStreak >= cfg.stopAfterSeen {
        return AlreadySeen, None;
      }
      screens := screens + 1;
      return Scrolled, None;
    }

    /**
     The whole walk. With the hashes the feed can show limited to `universe`, and the dumps whose share sheet would go
     away from the feed finitely many (they are in `leavings`, as far as no clock stops the walk before them), it ends
     without any clock, within the dumps bounded below, each sheet that did go away costing one. Every screen scrolled
     past has had its complete cards handled, and the walk ends for the reason it gives.
     */
    method WalkFeed(device: nat -> Dump, ghost universe: seq<string>, ghost leavings: set<nat>)
      returns (dumps: nat, ending: Ending, ghost scrolled: set<nat>, ghost acted: seq<(nat, Post)>)
      requires Valid() && Counted(start, posts, newPosts) && left == [] && screens == 0 && !feedReopened
      requires forall k: nat :: device(k).capture.Valid()
      requires forall k: nat, p | p in device(k).cards :: cfg.Hash(p) in universe
      requires forall k: nat :: device(k).capture.leftFeed && GoesUntil(device, k + 1) ==> k in leavings
      modifies this
      ensures Valid() && Counted(start, posts, newPosts)
      ensures var tries := Max(cfg.permalinkRetries, 0) + 1;
              && dumps <= Max(cfg.maxScrolls, 0) + 1 + |universe| * tries + |left| && |left| <= |leavings|
              && forall h | h in sheets :: sheets[h] <= tries + multiset(left)[h]
      ensures backfills <= allowance
      ensures GoesUntil(device, dumps) && |scrolled| == screens
      ensures Behind(cfg, thisRun, device, scrolled, dumps) && ActedInTurn(cfg, device, acted, dumps)
      ensures dumps == |scrolled| + |acted| + (if feedReopened then 1 else 0)
                       + if ending.NothingOnScreen? || ending.SeenBefore? then 1 else 0
      ensures match ending
              case OutOfScrolls => screens >= cfg.maxScrolls
              case OutOfTime => device(dumps).stop
              case NothingOnScreen => feedReopened && emptyStreak >= cfg.emptyLimit != 0
              case SeenBefore =>
                seenStreak >= cfg.stopAfterSeen && dumps > 0 && IsDone(cfg, thisRun, device(dumps - 1).cards)
    {
      hide *;
      dumps, ending, scrolled, acted := 0, OutOfScrolls, {}, [];
      StartsWithin(universe);
      NoneYet(cfg, thisRun, device, leavings);
      while screens < cfg.maxScrolls
        invariant Valid() && Counted(start, posts, newPosts) && GoesUntil(device, dumps)
        invariant dumps + Remaining(universe) <= Bound(cfg, universe) + |left|
        invariant |left| + |Ahead(leavings, dumps)| <= |leavings| && |scrolled| == screens
        invariant IsTold(cfg, thisRun, device, scrolled, acted, dumps, if feedReopened then 1 else 0)
        decreases Remaining(universe) + |Ahead(leavings, dumps)|
      {
        var d := device(dumps);
        if d.stop {
          ending := OutOfTime;  // the memory guard, the clock or a restricted account
          break;
        }
        OneDumpOn(device, leavings, dumps);
        ScrollsLeft(universe);
        ghost var handled, spare := thisRun, if feedReopened then 1 else 0;
        var outcome;
        ghost var card;
        outcome, card := TakeDump(d, universe);
        ToldOneMore(cfg, handled, thisRun, device, scrolled, acted, dumps, spare, outcome, card);
        scrolled := if outcome.Scrolled? then scrolled + {dumps} else scrolled;
        acted := if card.Some? then acted + [(dumps, card.value)] else acted;
        dumps := dumps + 1;
        match outcome {
          case FeedEmpty =>
            ending := NothingOnScreen;
            break;
          case AlreadySeen =>
            ending := SeenBefore;
            break;
          case _ =>
        }
      }
      ToldIs(cfg, thisRun, device, scrolled, acted, dumps);
      SheetLimits();
      BoundIs(cfg, universe);
    }

    lemma {:induction false} ScrollsLeft(universe: seq<string>)
      requires screens < cfg.maxScrolls
      ensures Remaining(universe) > 0
    {
    }

    lemma {:induction false} StartsWithin(universe: seq<string>)
      requires screens == 0 && !feedReopened
      ensures Remaining(universe) <= Bound(cfg, universe)
    {
      TriesBound(cfg.Retries(), linkFailures, thisRun, universe);
    }

    /** What the run's counts of share sheets amount to. */
    lemma {:induction false} SheetLimits()
      requires Valid()
      ensures forall h | h in sheets :: sheets[h] <= cfg.Retries() + 1 + multiset(left)[h]
      ensures backfills <= allowance
    {
      forall h | h in sheets
        ensures sheets[h] <= cfg.Retries() + 1 + Leaves(h)
      {
        assert h in thisRun || h !in thisRun;
      }
    }

    /**
     And each may cost one: over an empty table, a card that stalls is acted on at every round of the walk, however
     many there are. Each opens another share sheet for it, stores nothing, scrolls nowhere and leaves it to be acted on
     again.
     */
    method LeavingTheFeedGetsNowhere(p: Post, c: Capture, rounds: nat)
      requires Valid() && Counted(start, posts, newPosts) && c.Valid() && screens < cfg.maxScrolls
      requires StallsAfresh(cfg, posts, thisRun, linkFailures, p, c)
      requires IsWanted(cfg, p) && cfg.emptyLimit >= 0
      modifies this
      ensures Valid() && Counted(start, posts, newPosts) && StallsAfresh(cfg, posts, thisRun, linkFailures, p, c)
      ensures Failures(sheets, cfg.Hash(p)) == Failures(old(sheets), cfg.Hash(p)) + rounds && screens == old(screens)
    {
      OnlyOne(cfg, p);
      hide *;
      for i := 0 to rounds
        invariant Valid() && Counted(start, posts, newPosts) && StallsAfresh(cfg, posts, thisRun, linkFailures, p, c)
        invariant Failures(sheets, cfg.Hash(p)) == Failures(old(sheets), cfg.Hash(p)) + i && screens == old(screens)
      {
        OneMoreOpened(sheets, cfg.Hash(p));
        var outcome;
        ghost var card;
        outcome, card := TakeDump(Dump(false, [p], c), [cfg.Hash(p)]);
        assert outcome.Acted?;
      }
    }

    /** A card of an empty table that stalls is captured afresh. */
    lemma {:induction false} StalledIsNew(p: Post, c: Capture)
      requires Valid()
      ensures ValidTable(posts)
      ensures StallsAfresh(cfg, posts, thisRun, linkFailures, p, c) ==>
                && cfg.Hash(p) !in thisRun && p.complete && !Known(posts, cfg.Hash(p)) && !CaptionStored(p)
                && !Linked(posts, p, c) && Failures(linkFailures, cfg.Hash(p)) >= cfg.permalinkRetries
                && Stalls(cfg, thisRun, linkFailures, p, c)
    {
    }

    lemma {:induction false} StaysEmpty(was: Table, p: Post, c: Capture, handled: set<string>,
                                        failures: map<string, nat>, captured: bool)
      requires StallsAfresh(cfg, was, handled, failures, p, c) && captured ==>
                 && Kept(was, posts, p, cfg.Hash(p), c, Linked(was, p, c))
                 && linkFailures == failures && cfg.Hash(p) !in thisRun
      ensures StallsAfresh(cfg, was, handled, failures, p, c) && captured ==>
                StallsAfresh(cfg, posts, thisRun, linkFailures, p, c)
    {
    }

    /** Leaves only files that some row names. */
    method SweepOrphans()
      modifies this`files
      ensures files == old(files) * Referenced(posts, slides)
    {
      var kept := (set id | id in posts && posts[id].mediaFile.Some? :: posts[id].mediaFile.value) + slides.Values;
      var orphans := files - kept;
      while orphans != {}
        invariant orphans <= files && files - orphans == old(files) * kept
      {
        var f :| f in orphans;
        files, orphans := files - {f}, orphans - {f};
      }
    }
  }

  /** How a round of the walk came out. */
  datatype Outcome = Acted | Scrolled | Reopened | FeedEmpty | AlreadySeen

  /** Why a walk ended. */
  datatype Ending = OutOfScrolls | OutOfTime | NothingOnScreen | SeenBefore

  /** Nothing is left to do for these cards: each is incomplete, or handled. */
  predicate Passed(cfg: Config, handled: set<string>, cards: seq<Post>) {
    forall i | 0 <= i < |cards| :: cards[i].complete ==> cfg.Hash(cards[i]) in handled
  }

  /** The run acts on a card: on every one, or of the accounts on its list and of an account not read off the card. */
  predicate IsWanted(cfg: Config, p: Post) {
    cfg.followed.None? || p.username in cfg.followed.value + {""}
  }

  /** Nothing is left to do on a screen: each card wanted is incomplete, or handled. */
  predicate IsDone(cfg: Config, handled: set<string>, cards: seq<Post>) {
    forall p | p in cards && IsWanted(cfg, p) && p.complete :: cfg.Hash(p) in handled
  }

  /** One complete card not handled before has had one share sheet, to store it or to backfill its link. */
  ghost predicate ActedOn(cfg: Config, handled: set<string>, sheets: map<string, nat>, backfills: nat,
                          sheets': map<string, nat>, backfills': nat, p: Post) {
    && p.complete && cfg.Hash(p) !in handled
    && ((sheets' == Opened(sheets, cfg.Hash(p)) && backfills' == backfills)
         || (sheets' == sheets && backfills' == backfills + 1))
  }

  lemma {:induction false} WasActedOn(cfg: Config, handled: set<string>, handled': set<string>,
                                      sheets: map<string, nat>, backfills: nat, sheets': map<string, nat>,
                                      backfills': nat, p: Post, captured: bool)
    requires p.complete && cfg.Hash(p) !in handled' && handled <= handled'
    requires sheets' == (if captured then Opened(sheets, cfg.Hash(p)) else sheets)
    requires backfills' == backfills + if captured then 0 else 1
    ensures ActedOn(cfg, handled, sheets, backfills, sheets', backfills', p)
  {
  }

  lemma {:induction false} NonePassed(cfg: Config, handled: set<string>, cards: seq<Post>)
    ensures Passed(cfg, handled, cards[..0])
  {
  }

  lemma {:induction false} PassedStays(cfg: Config, handled: set<string>, handled': set<string>, cards: seq<Post>)
    requires Passed(cfg, handled, cards) && handled <= handled'
    ensures Passed(cfg, handled', cards)
  {
  }

  lemma {:induction false} PassedOneMore(cfg: Config, handled: set<string>, handled': set<string>, cards: seq<Post>,
                                         i: nat)
    requires i < |cards| && Passed(cfg, handled, cards[..i]) && handled <= handled'
    requires cards[i].complete ==> cfg.Hash(cards[i]) in handled'
    ensures Passed(cfg, handled', cards[..i + 1])
  {
  }

  lemma {:induction false} SpentGrows(retries: nat, failures: map<string, nat>, handled: set<string>,
                                      failures': map<string, nat>, handled': set<string>, h: string, left: bool)
    requires Spent(retries, failures, handled, failures', handled', h, left)
    ensures handled <= handled'
  {
  }

  /** The run of empty screens once a dump is in. */
  function EmptyStreak(cfg: Config, streak: nat, d: Dump): nat {
    if exists p :: p in d.cards && IsWanted(cfg, p) then 0 else streak + 1
  }

  lemma {:induction false} StreakOf(cfg: Config, streak: nat, d: Dump)
    ensures EmptyStreak(cfg, streak, d) == if Followed(cfg.followed, d.cards) == [] then streak + 1 else 0
  {
    FollowedAreWanted(cfg, d.cards);
    hide Followed, IsWanted;
    if Followed(cfg.followed, d.cards) != [] {
      assert Followed(cfg.followed, d.cards)[0] in Followed(cfg.followed, d.cards);
    }
  }

  /** The dumps a walk can take with no sheet leaving the feed. */
  function Bound(cfg: Config, universe: seq<string>): nat {
    (if cfg.maxScrolls < 0 then 0 else cfg.maxScrolls) + 1 + |universe| * (cfg.Retries() + 1)
  }

  lemma {:induction false} BoundIs(cfg: Config, universe: seq<string>)
    ensures cfg.Retries() == Max(cfg.permalinkRetries, 0)
    ensures Bound(cfg, universe) == Max(cfg.maxScrolls, 0) + 1 + |universe| * (Max(cfg.permalinkRetries, 0) + 1)
  {
  }

  /** No clock stops the walk before its `n`th dump. */
  ghost predicate GoesUntil(device: nat -> Dump, n: nat) {
    forall k: nat | k < n :: !device(k).stop
  }

  /** The screens scrolled past: every complete card on them is handled. */
  ghost predicate Behind(cfg: Config, handled: set<string>, device: nat -> Dump, scrolled: set<nat>, dumps: nat) {
    forall k | k in scrolled :: k < dumps && IsDone(cfg, handled, device(k).cards)
  }

  /** The cards acted on, with their dumps: at most one a dump, each complete and wanted. */
  ghost predicate ActedInTurn(cfg: Config, device: nat -> Dump, acted: seq<(nat, Post)>, dumps: nat) {
    && (forall a | a in acted ::
          a.0 < dumps && a.1 in device(a.0).cards && a.1.complete && IsWanted(cfg, a.1))
    && (forall i, j | 0 <= i < j < |acted| :: acted[i].0 < acted[j].0)
  }

  /** What a walk has come to: every dump is a screen scrolled past, a card acted on, or one of `spare`. */
  ghost predicate IsTold(cfg: Config, handled: set<string>, device: nat -> Dump, scrolled: set<nat>,
                         acted: seq<(nat, Post)>, dumps: nat, spare: nat) {
    && Behind(cfg, handled, device, scrolled, dumps) && ActedInTurn(cfg, device, acted, dumps)
    && dumps == |scrolled| + |acted| + spare
  }

  lemma {:induction false} ToldIs(cfg: Config, handled: set<string>, device: nat -> Dump, scrolled: set<nat>,
                                  acted: seq<(nat, Post)>, dumps: nat)
    ensures forall spare: nat | IsTold(cfg, handled, device, scrolled, acted, dumps, spare) ::
              && Behind(cfg, handled, device, scrolled, dumps) && ActedInTurn(cfg, device, acted, dumps)
              && dumps == |scrolled| + |acted| + spare
  {
  }

  lemma {:induction false} ToldOneMore(cfg: Config, handled: set<string>, handled': set<string>, device: nat -> Dump,
                                       scrolled: set<nat>, acted: seq<(nat, Post)>, dumps: nat, spare: nat,
                                       outcome: Outcome, card: Option<Post>)
    requires IsTold(cfg, handled, device, scrolled, acted, dumps, spare) && handled <= handled'
    requires outcome.Acted? <==> card.Some?
    requires card.Some? ==> card.value in device(dumps).cards && card.value.complete && IsWanted(cfg, card.value)
    requires outcome.Scrolled? ==> IsDone(cfg, handled', device(dumps).cards)
    ensures var scrolled' := if outcome.Scrolled? then scrolled + {dumps} else scrolled;
            IsTold(cfg, handled', device, scrolled',
                   if card.Some? then acted + [(dumps, card.value)] else acted, dumps + 1,
                   if outcome.Scrolled? || outcome.Acted? then spare else spare + 1)
            && |scrolled'| == |scrolled| + if outcome.Scrolled? then 1 else 0
  {
    hide Behind, ActedInTurn, IsDone, IsWanted;
    NotBehindYet(cfg, handled, device, scrolled, dumps);
    BehindStays(cfg, handled, handled', device, scrolled, dumps);
    ActedOnOneMore(cfg, device, acted, dumps, card);
    if outcome.Scrolled? {
      OneMoreBehind(cfg, handled', device, scrolled, dumps);
    }
  }

  lemma {:induction false} ActedOnOneMore(cfg: Config, device: nat -> Dump, acted: seq<(nat, Post)>, dumps: nat,
                                          card: Option<Post>)
    requires ActedInTurn(cfg, device, acted, dumps)
    requires card.Some? ==> card.value in device(dumps).cards && card.value.complete && IsWanted(cfg, card.value)
    ensures ActedInTurn(cfg, device, if card.Some? then acted + [(dumps, card.value)] else acted, dumps + 1)
  {
    assert forall i | 0 <= i < |acted| :: acted[i] in acted;
    hide IsWanted;
  }

  lemma {:induction false} BehindStays(cfg: Config, handled: set<string>, handled': set<string>, device: nat -> Dump,
                                       scrolled: set<nat>, dumps: nat)
    requires Behind(cfg, handled, device, scrolled, dumps) && handled <= handled'
    ensures Behind(cfg, handled', device, scrolled, dumps + 1)
  {
  }

  lemma {:induction false} OneMoreBehind(cfg: Config, handled: set<string>, device: nat -> Dump, scrolled: set<nat>,
                                         k: nat)
    requires Behind(cfg, handled, device, scrolled, k + 1) && k !in scrolled
    requires IsDone(cfg, handled, device(k).cards)
    ensures Behind(cfg, handled, device, scrolled + {k}, k + 1) && |scrolled + {k}| == |scrolled| + 1
  {
  }

  lemma {:induction false} NotBehindYet(cfg: Config, handled: set<string>, device: nat -> Dump, scrolled: set<nat>,
                                        k: nat)
    requires Behind(cfg, handled, device, scrolled, k)
    ensures k !in scrolled
  {
  }

  function Ahead(leavings: set<nat>, n: nat): set<nat> {
    set k | k in leavings && k >= n
  }

  lemma {:induction false} NoneYet(cfg: Config, handled: set<string>, device: nat -> Dump, leavings: set<nat>)
    ensures GoesUntil(device, 0) && Ahead(leavings, 0) == leavings && Behind(cfg, handled, device, {}, 0)
    ensures IsTold(cfg, handled, device, {}, [], 0, 0)
  {
  }

  lemma {:induction false} OneDumpOn(device: nat -> Dump, leavings: set<nat>, n: nat)
    requires GoesUntil(device, n) && !device(n).stop
    requires forall k: nat :: device(k).capture.leftFeed && GoesUntil(device, k + 1) ==> k in leavings
    ensures GoesUntil(device, n + 1)
    ensures |Ahead(leavings, n + 1)| <= |Ahead(leavings, n)| - if device(n).capture.leftFeed then 1 else 0
  {
    assert GoesUntil(device, n + 1);
    if n in leavings {
      assert Ahead(leavings, n) == Ahead(leavings, n + 1) + {n};
    } else {
      assert Ahead(leavings, n) == Ahead(leavings, n + 1);
    }
  }

  /** The cards of followed accounts, and those whose account isn't known yet. */
  function Followed(followed: Option<set<string>>, cards: seq<Post>): seq<Post> {
    if followed.None? || cards == [] then cards
    else
      (if cards[0].username == "" || cards[0].username in followed.value then [cards[0]] else [])
      + Followed(followed, cards[1..])
  }

  /** Just the cards of these accounts, in their order and each as often: `at` is where they are among all. */
  ghost predicate IsPicked(accounts: set<string>, cards: seq<Post>, picked: seq<Post>, at: seq<nat>) {
    && |picked| == |at| && (forall i | 0 <= i < |at| :: at[i] < |cards| && picked[i] == cards[at[i]])
    && (forall i, j | 0 <= i < j < |at| :: at[i] < at[j])
    && (forall k | 0 <= k < |cards| :: k in at <==> cards[k].username in accounts)
  }

  /** Where the cards of these accounts are, from one card on. */
  function Where(accounts: set<string>, cards: seq<Post>, from: nat): (at: seq<nat>)
    requires from <= |cards|
    ensures forall i | 0 <= i < |at| :: from <= at[i] < |cards|
    ensures forall i, j | 0 <= i < j < |at| :: at[i] < at[j]
    ensures forall k | from <= k < |cards| :: k in at <==> cards[k].username in accounts
    decreases |cards| - from
  {
    if from == |cards| then []
    else (if cards[from].username in accounts then [from] else []) + Where(accounts, cards, from + 1)
  }

  lemma {:induction false} FollowedAreThere(followed: set<string>, cards: seq<Post>, from: nat)
    requires from <= |cards|
    ensures var kept, at := Followed(Some(followed), cards[from..]), Where(followed + {""}, cards, from);
            |kept| == |at| && forall i | 0 <= i < |at| :: at[i] < |cards| && kept[i] == cards[at[i]]
    decreases |cards| - from
  {
    if from < |cards| {
      FollowedAreThere(followed, cards, from + 1);
      assert cards[from..][1..] == cards[from + 1..];
      FollowedStep(followed, cards[from..]);
      OneMorePicked(cards, from, cards[from].username in followed + {""},
                    Followed(Some(followed), cards[from + 1..]), Where(followed + {""}, cards, from + 1));
      hide Followed;
    }
  }

  lemma {:induction false} OneMorePicked(cards: seq<Post>, from: nat, first: bool, kept: seq<Post>, at: seq<nat>)
    requires from < |cards| && |kept| == |at|
    requires forall i | 0 <= i < |at| :: at[i] < |cards| && kept[i] == cards[at[i]]
    ensures var all, there := (if first then [cards[from]] else []) + kept, (if first then [from] else []) + at;
            |all| == |there| && forall i | 0 <= i < |there| :: there[i] < |cards| && all[i] == cards[there[i]]
  {
  }

  lemma {:induction false} FollowedArePicked(followed: set<string>, cards: seq<Post>)
    ensures IsPicked(followed + {""}, cards, Followed(Some(followed), cards), Where(followed + {""}, cards, 0))
  {
    FollowedAreThere(followed, cards, 0);
    assert cards[0..] == cards;
    hide Followed, Where;
  }

  lemma {:induction false} FollowedStep(followed: set<string>, cards: seq<Post>)
    requires cards != []
    ensures Followed(Some(followed), cards) ==
            (if cards[0].username in followed + {""} then [cards[0]] else []) + Followed(Some(followed), cards[1..])
  {
  }

  lemma {:induction false} FollowedAreWanted(cfg: Config, cards: seq<Post>)
    ensures forall p :: p in Followed(cfg.followed, cards) <==> p in cards && IsWanted(cfg, p)
  {
    if cfg.followed.Some? && cards != [] {
      FollowedAreWanted(cfg, cards[1..]);
      FollowedStep(cfg.followed.value, cards);
      assert cards == [cards[0]] + cards[1..];
      hide Followed;
    }
  }

  lemma {:induction false} AllDone(cfg: Config, handled: set<string>, cards: seq<Post>)
    requires Passed(cfg, handled, Followed(cfg.followed, cards))
    ensures IsDone(cfg, handled, cards)
  {
    FollowedAreWanted(cfg, cards);
    hide Followed, IsWanted;
  }

  lemma {:induction false} OnlyOne(cfg: Config, p: Post)
    requires IsWanted(cfg, p)
    ensures Followed(cfg.followed, [p]) == [p]
  {
    assert [p][1..] == [];
  }

  function StallingConfig(): Config {
    Config(1, 0, 0, 5, 3, "", None, None, s => s + "!")
  }

  function StallingCard(): Post {
    Parser.Post("post", "a", "", "", "x", None, true, Some("[0,0][1,1]"), Some("[0,1][1,2]"), None, 0, "", true, true,
      false)
  }

  function StallingCapture(): Capture {
    Capture(false, 0, Failed, true, false, "y", None, DateTime(2026, 1, 1, 0, 0, 0, 0))
  }

  /** A truncated card without a header or a date, whose share sheet gives no link and leaves the feed. */
  lemma {:induction false} StallingCardStalls()
    ensures StallsAfresh(StallingConfig(), map[], {}, map[], StallingCard(), StallingCapture())
    ensures StallingConfig().Hash(StallingCard()) == "a|x!"
  {
    TwoKeys();
    assert PostKey(StallingCard()) == "a|x";
    assert PostKey(Expand(StallingCard(), StallingCapture())) == "a|y";
    var h := StallingConfig().Hash(StallingCard());
    var h' := StallingConfig().Hash(Expand(StallingCard(), StallingCapture()));
    assert h == "a|x!" && h' == "a|y!";
    assert h[2] != h'[2];
  }

  /** In front of it, a first run over an empty table takes as many rounds as one likes and is no further. */
  method AWalkThatStalls(rounds: nat) returns (run: FeedRun)
    ensures fresh(run) && run.Valid() && run.posts == map[] && run.screens == 0 < run.cfg.maxScrolls
    ensures Failures(run.sheets, "a|x!") == rounds
  {
    run := new FeedRun(StallingConfig(), map[], map[], {}, 0);
    StallingCardStalls();
    hide StallingCard, Stalls, PostKey, FeedRun.Valid;
    run.LeavingTheFeedGetsNowhere(StallingCard(), StallingCapture(), rounds);
  }

  lemma {:induction false} TwoKeys()
    ensures CaptionKey("x") == "x" && CaptionKey("y") == "y"
  {
    FlatOfRun("x");
    FlatOfRun("y");
    assert RTrim("x", ELLIPSIS) == "x" && RTrim("y", ELLIPSIS) == "y";
    assert FirstLine("x") == "x" && FirstLine("y") == "y" by { assert Until("", '\n') == ""; }
  }

  /**
   Media is conserved: however a card's handling ends, a file just captured for it is on disk exactly if a
   row names it, every file a row names is on disk, and no other row's file is touched.
   */
  lemma {:induction false} NoMediaIsLost(s: Store, t: Store, h: string, pid: string, crop: bool, n: nat,
                                         kept: set<File>)
    requires Accounted(s, t, h, pid, crop, n, kept)
    requires NamesFree(s, h) && NamesFree(s, pid)
    requires Referenced(s.posts, s.slides) <= s.files
    ensures Referenced(t.posts, t.slides) <= t.files
    ensures Referenced(s.posts, s.slides) <= Referenced(t.posts, t.slides)
    ensures forall f | f in Captured(h, crop, n) :: f in t.files <==> f in Referenced(t.posts, t.slides)
    ensures forall f | f in t.files :: f in s.files || f in Referenced(t.posts, t.slides)
    ensures forall f | f in s.files :: f in t.files || f in Captured(h, crop, n)
  {
    assert forall f | f in Captured(h, crop, n) :: f.stem == h;
  }
}