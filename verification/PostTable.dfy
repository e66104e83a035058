/**
 The posts table: looking up the stored post a card is a second sighting of, and merging the card into it.
 */
module PostTable {
  import opened Numbers
  import opened Text
  import opened Timestamps
  import opened PostIdentity
  import opened Sightings

  /** One posts row. A time column holds the time's `Iso` text. */
  datatype Row = Row(
    id: string, username: string, kind: Option<string>, postedDate: Option<string>, caption: Option<string>,
    mediaFile: Option<File>, scrapedAt: DateTime, hash: Option<string>, altHash: Option<string>,
    url: Option<string>, place: Option<string>, postedAt: Option<DateTime>, updatedAt: Option<DateTime>,
    igVersion: Option<string>, permalinkAttempts: nat)
  {
    predicate Valid() {
      scrapedAt.Valid() && (postedAt.Some? ==> postedAt.value.Valid())
    }

    function Identity(): (i: Identity)
      requires Valid()
      ensures i.Valid()
    {
      Sightings.Identity(username, caption, postedAt)
    }
  }

  /** A media file, named after the hash or shortcode it was captured for. */
  datatype File = Cover(stem: string) | Slide(stem: string, index: nat)

  /** Rows keyed by the primary key. */
  type Table = map<string, Row>

  ghost predicate ValidTable(t: Table) {
    forall id | id in t :: t[id].id == id && t[id].Valid()
  }

  function TruthyOr<T>(a: Option<T>, b: Option<T>): Option<T> {
    if a.Some? then a else b
  }

  function TextOr(a: Option<string>, b: Option<string>): Option<string> {
    if IsSet(a) then a else b
  }

  /** A column holding more than an empty text. */
  predicate IsSet(s: Option<string>) {
    s.Some? && s.value != ""
  }

  function OrEmpty(s: Option<string>): string {
    if s.Some? then s.value else ""
  }

  // ---------------------------------------------------------------------------------------------
  // Reading the table

  /** Exactly the rows of a table, in some order. */
  ghost predicate Lists(rows: seq<Row>, t: Table) {
    forall r :: r in rows <==> r.id in t && t[r.id] == r
  }

  /** Rows with a link first, and within each kind the earliest stored first. */
  predicate OrderedBefore(a: Row, b: Row)
    requires a.Valid() && b.Valid()
  {
    if a.url.Some? != b.url.Some? then a.url.Some? else AtMost(Iso(a.scrapedAt), Iso(b.scrapedAt))
  }

  ghost predicate InOrder(rows: seq<Row>) {
    && (forall r | r in rows :: r.Valid())
    && forall i, j | 0 <= i < j < |rows| :: OrderedBefore(rows[i], rows[j])
  }

  function Insert(rows: seq<Row>, r: Row): (s: seq<Row>)
    requires r.Valid() && forall x | x in rows :: x.Valid()
    ensures forall x :: x in s <==> x in rows || x == r
  {
    if rows == [] || OrderedBefore(r, rows[0]) then [r] + rows else [rows[0]] + Insert(rows[1..], r)
  }

  lemma {:induction false} TotalOrder(a: Row, b: Row, c: Row)
    requires a.Valid() && b.Valid() && c.Valid()
    ensures OrderedBefore(a, b) || OrderedBefore(b, a)
    ensures OrderedBefore(a, b) && OrderedBefore(b, c) ==> OrderedBefore(a, c)
  {
    IsoOrder(a.scrapedAt, b.scrapedAt);
    IsoOrder(b.scrapedAt, a.scrapedAt);
    IsoOrder(b.scrapedAt, c.scrapedAt);
    IsoOrder(a.scrapedAt, c.scrapedAt);
    hide Iso, AtMost;
  }

  lemma {:induction false} InsertKeepsOrder(rows: seq<Row>, r: Row)
    requires r.Valid() && InOrder(rows)
    ensures InOrder(Insert(rows, r))
  {
    hide OrderedBefore;
    if rows == [] {
    } else if OrderedBefore(r, rows[0]) {
      forall j | 0 <= j < |rows|
        ensures OrderedBefore(r, rows[j])
      {
        TotalOrder(r, rows[0], rows[j]);
      }
    } else {
      InsertKeepsOrder(rows[1..], r);
      TotalOrder(r, rows[0], r);
      var s := Insert(rows[1..], r);
      forall j | 0 <= j < |s|
        ensures OrderedBefore(rows[0], s[j])
      {
        assert s[j] in s;
      }
    }
  }

  /** The table's rows in that order. */
  method SelectInOrder(t: Table) returns (rows: seq<Row>)
    requires ValidTable(t)
    ensures Lists(rows, t) && InOrder(rows)
  {
    rows := [];
    var ids := t.Keys;
    while ids != {}
      invariant ids <= t.Keys && InOrder(rows)
      invariant forall r :: r in rows <==> r.id in t.Keys - ids && t[r.id] == r
    {
      var id :| id in ids;
      InsertKeepsOrder(rows, t[id]);
      rows := Insert(rows, t[id]);
      ids := ids - {id};
    }
  }

  // ---------------------------------------------------------------------------------------------
  // Finding a dated card's stored post

  datatype Lookup = Found(id: string) | Missing | WindowOverflow

  /** What a dated card is searched for by. */
  datatype Card = Card(username: string, caption: Option<string>, postedAt: DateTime, precision: Option<int>) {
    predicate Valid() {
      postedAt.Valid()
    }

    function Identity(): (i: Identity)
      requires Valid()
      ensures i.Valid()
    {
      Sightings.Identity(username, caption, Some(postedAt))
    }
  }

  /** The bounds of the SQL window: twice the tolerance either way. */
  function Window(c: Card): (r: Option<(DateTime, DateTime)>)
    requires c.Valid()
    ensures r.Some? ==> r.value.0.Valid() && r.value.1.Valid()
  {
    var reach := Tolerance(c.precision) * 2 * SECOND;
    match (Plus(c.postedAt, -reach), Plus(c.postedAt, reach))
    case (Some(lo), Some(hi)) => Some((lo, hi))
    case _ => None
  }

  /** The WHERE clause: the account, and the posting time's text BETWEEN the window's. */
  predicate InWindow(r: Row, c: Card, lo: DateTime, hi: DateTime)
    requires r.Valid() && lo.Valid() && hi.Valid()
  {
    && r.username == c.username
    && r.postedAt.Some?
    && AtMost(Iso(lo), Iso(r.postedAt.value)) && AtMost(Iso(r.postedAt.value), Iso(hi))
  }

  predicate IsExcluded(r: Row, exclude: Option<string>) {
    IsSet(exclude) && r.id == exclude.value
  }

  /** The rows that are this card's post. */
  predicate IsDuplicate(r: Row, c: Card, exclude: Option<string>)
    requires r.Valid() && c.Valid()
  {
    !IsExcluded(r, exclude) && SamePost(r.Identity(), c.Identity(), c.precision)
  }

  /** A row is left out just if it is the one named. */
  lemma {:induction false} OneIsExcluded(r: Row, id: string)
    ensures !IsExcluded(r, None)
    ensures IsExcluded(r, Some(id)) <==> |id| > 0 && r.id == id
  {
  }

  /** The text window is the account's rows posted within twice the tolerance; there is none where that leaves the years
      there are. */
  lemma {:induction false} WindowIsTwiceAsWide(r: Row, c: Card)
    requires r.Valid() && c.Valid()
    ensures var hours := if c.precision.Some? && c.precision.value > 3600 then c.precision.value else 3600;
            var reach := 2 * SECOND * hours;
            && (Window(c).Some? <==> reach <= Instant(c.postedAt) && Instant(c.postedAt) + reach < END)
            && (Window(c).Some? ==>
                  (InWindow(r, c, Window(c).value.0, Window(c).value.1) <==>
                     r.username == c.username && r.postedAt.Some?
                     && -reach <= Instant(r.postedAt.value) - Instant(c.postedAt) <= reach))
  {
    InstantInRange(c.postedAt);
    if Window(c).Some? && r.postedAt.Some? {
      var (lo, hi) := Window(c).value;
      IsoOrder(lo, r.postedAt.value);
      IsoOrder(r.postedAt.value, hi);
    }
    hide Iso, AtMost, Instant;
  }

  /** The text window keeps every row that could be the card's post. */
  lemma {:induction false} WindowLosesNothing(r: Row, c: Card, lo: DateTime, hi: DateTime)
    requires r.Valid() && c.Valid() && Window(c) == Some((lo, hi))
    requires SamePost(r.Identity(), c.Identity(), c.precision)
    ensures InWindow(r, c, lo, hi)
  {
    IsoOrder(lo, r.postedAt.value);
    IsoOrder(r.postedAt.value, hi);
  }

  /**
   Looks a dated card's stored post up: the rows in the text window one by one, in the order the database
   returns them. A row is found exactly when the table holds a duplicate, and the window is what fails
   when it would leave the years a time can hold.
   */
  method FindDuplicate(rows: seq<Row>, c: Card, exclude: Option<string>) returns (found: Lookup)
    requires c.Valid() && forall r | r in rows :: r.Valid()
    ensures found.WindowOverflow? <==> Window(c).None?
    ensures found.Found? ==> exists i | 0 <= i < |rows| ::
              && rows[i].id == found.id && IsDuplicate(rows[i], c, exclude)
              && forall j | 0 <= j < i :: !IsDuplicate(rows[j], c, exclude)
    ensures found.Missing? ==> forall r | r in rows :: !IsDuplicate(r, c, exclude)
  {
    hide IsWeak, Iso, AtMost;
    var window := Window(c);
    if window.None? {
      return WindowOverflow;
    }
    var (lo, hi) := window.value;
    for i := 0 to |rows|
      invariant forall j | 0 <= j < i :: !IsDuplicate(rows[j], c, exclude)
    {
      var r := rows[i];
      if SamePost(r.Identity(), c.Identity(), c.precision) {
        WindowLosesNothing(r, c, lo, hi);
      }
      if InWindow(r, c, lo, hi) && !IsExcluded(r, exclude) && SamePost(r.Identity(), c.Identity(), c.precision) {
        return Found(r.id);
      }
    }
    return Missing;
  }

  // ---------------------------------------------------------------------------------------------
  // Finding an undated card's stored post

  /** Whether a caption is long enough, and real enough, to be matched on its own. */
  predicate Distinctive(caption: Option<string>) {
    !IsWeak(OrEmpty(caption)) && |FlatCaption(OrEmpty(caption))| >= CAPTION_KEY_CHARS
  }

  /** A row no older than `since` ("" keeps all) with this account and caption. */
  predicate HasCaption(r: Row, username: string, caption: Option<string>, since: string, exclude: Option<string>)
    requires r.Valid()
  {
    && r.username == username && AtMost(since, Iso(r.scrapedAt)) && !IsExcluded(r, exclude)
    && Truncate(FlatCaption(OrEmpty(r.caption)), 200) == Truncate(FlatCaption(OrEmpty(caption)), 200)
  }

  /** A caption to be told by: a real one of at least forty characters, flattened. */
  lemma {:induction false} DistinctiveCaptions(caption: string)
    ensures !Distinctive(None)
    ensures Distinctive(Some(caption)) <==> !IsWeak(caption) && |FlatCaption(caption)| >= 40
  {
    hide FlatCaption;
  }

  /** The rows looked through are the account's, stored since a time if one is given, whose captions flattened agree at
      first. */
  lemma {:induction false} CaptionRows(r: Row, username: string, caption: string, since: DateTime,
                                       exclude: Option<string>)
    requires r.Valid() && since.Valid() && r.caption.Some?
    ensures var alike := r.username == username && !IsExcluded(r, exclude)
                         && AgreeAtFirst(FlatCaption(r.caption.value), FlatCaption(caption));
            && (HasCaption(r, username, Some(caption), "", exclude) <==> alike)
            && (HasCaption(r, username, Some(caption), Iso(since), exclude) <==>
                  alike && Instant(since) <= Instant(r.scrapedAt))
  {
    IsoOrder(since, r.scrapedAt);
    TruncatedAgree(FlatCaption(r.caption.value), FlatCaption(caption));
    assert AtMost("", Iso(r.scrapedAt));
    hide Iso, FlatCaption, AgreeAtFirst, Truncate, IsExcluded, Instant;
  }

  /** The stored row with an undated card's caption: a permalinked one before the rest, and then the first seen. */
  method FindSameCaption(rows: seq<Row>, username: string, caption: Option<string>, since: string,
                         exclude: Option<string>)
    returns (found: Option<Row>)
    requires InOrder(rows)
    ensures found.Some? <==>
            Distinctive(caption) && exists r :: r in rows && HasCaption(r, username, caption, since, exclude)
    ensures found.Some? ==>
              && found.value in rows && HasCaption(found.value, username, caption, since, exclude)
              && forall r | r in rows && HasCaption(r, username, caption, since, exclude) ::
                   (r.url.Some? ==> found.value.url.Some?)
                   && (r.url.Some? == found.value.url.Some? ==> Instant(found.value.scrapedAt) <= Instant(r.scrapedAt))
  {
    hide Distinctive, FlatCaption, Truncate, Iso;
    if !Distinctive(caption) {
      return None;
    }
    for i := 0 to |rows|
      invariant forall j | 0 <= j < i :: !HasCaption(rows[j], username, caption, since, exclude)
    {
      if HasCaption(rows[i], username, caption, since, exclude) {
        forall r | r in rows && HasCaption(r, username, caption, since, exclude)
          ensures (r.url.Some? ==> rows[i].url.Some?)
               && (r.url.Some? == rows[i].url.Some? ==> Instant(rows[i].scrapedAt) <= Instant(r.scrapedAt))
        {
          IsoOrder(rows[i].scrapedAt, r.scrapedAt);
        }
        return Some(rows[i]);
      }
    }
    return None;
  }

  // ---------------------------------------------------------------------------------------------
  // Merging

  /** Both sightings in one row: `kept` as far as it goes, `seen` for the rest. */
  function MergedRow(kept: Row, seen: Row, now: DateTime): Row {
    Row(
      if IsSet(seen.url) && !IsSet(kept.url) then seen.id else kept.id,
      kept.username,
      TextOr(kept.kind, seen.kind),
      TextOr(kept.postedDate, seen.postedDate),
      if !IsWeak(OrEmpty(seen.caption)) && IsWeak(OrEmpty(kept.caption)) then seen.caption else kept.caption,
      TruthyOr(kept.mediaFile, seen.mediaFile),
      kept.scrapedAt,
      seen.hash,
      OtherHash([seen.altHash, kept.hash, kept.altHash], seen.hash),
      TextOr(kept.url, seen.url),
      TextOr(kept.place, seen.place),
      TruthyOr(kept.postedAt, seen.postedAt),
      Some(now),
      TextOr(kept.igVersion, seen.igVersion),
      0)  // not one of the columns written, so it takes its default
  }

  /** The first hash of the list that is set and differs from the one just seen. */
  function OtherHash(candidates: seq<Option<string>>, seen: Option<string>): Option<string> {
    if candidates == [] then None
    else if IsSet(candidates[0]) && candidates[0] != seen then candidates[0]
    else OtherHash(candidates[1..], seen)
  }

  /** The capture's media file, when the stored one wins over it. */
  function MediaToDrop(kept: Row, seen: Row): Option<File> {
    if seen.mediaFile.Some? && kept.mediaFile.Some? && seen.mediaFile != kept.mediaFile then seen.mediaFile else None
  }

  /** Applies a merge: the kept row goes, and the new one takes its place under its own id. */
  function WriteMerged(t: Table, oldId: string, row: Row): Table {
    (if row.id != oldId then t - {oldId} else t)[row.id := row]
  }

  /** The latest hash moves to the front and pushes the previous one back. */
  function RememberHash(t: Table, id: string, h: string): Table {
    if id in t && t[id].hash != Some(h) then t[id := t[id].(altHash := t[id].hash, hash := Some(h))] else t
  }

  /** From then on the row answers to the new hash and to the one before; nothing else changes, and nothing at all if it
      is the one already in front. */
  lemma {:induction false} HashIsRemembered(t: Table, id: string, h: string)
    requires id in t
    ensures var r := RememberHash(t, id, h)[id];
            && r == t[id].(hash := Some(h), altHash := if t[id].hash == Some(h) then t[id].altHash else t[id].hash)
            && FoundBy(r, h) && (t[id].hash.Some? ==> FoundBy(r, t[id].hash.value))
            && RememberHash(t, id, h) == t[id := r]
  {
  }

  /** The result of one Copy link try on a stored post. A link another row already holds is left alone. */
  function Backfill(t: Table, id: string, link: Option<(string, string)>, now: DateTime): Table
    requires id in t
  {
    var tried := t[id].(permalinkAttempts := t[id].permalinkAttempts + 1);
    match link
    case None => t[id := tried]
    case Some((url, code)) =>
      if Taken(t, id, url, code) then t[id := tried] else t[id := tried.(url := Some(url), updatedAt := Some(now))]
  }

  predicate Taken(t: Table, id: string, url: string, code: string) {
    exists other | other in t :: other != id && (other == code || t[other].url == Some(url))
  }

  /** A try is counted. A link is taken if no other row has it for its permalink or its shortcode for an id. */
  lemma {:induction false} LinkIsTakenIfFree(t: Table, id: string, url: string, code: string, now: DateTime)
    requires id in t
    ensures var tries := t[id].permalinkAttempts + 1;
            && Backfill(t, id, None, now) == t[id := t[id].(permalinkAttempts := tries)]
            && Backfill(t, id, Some((url, code)), now) ==
                 if (code in t && code != id) || exists other | other in t && other != id :: t[other].url == Some(url)
                 then t[id := t[id].(permalinkAttempts := tries)]
                 else t[id := t[id].(permalinkAttempts := tries, url := Some(url), updatedAt := Some(now))]
  {
    assert Taken(t, id, url, code) <==>
             (code in t && code != id) || exists other | other in t && other != id :: t[other].url == Some(url);
    hide Taken;
  }

  // ---------------------------------------------------------------------------------------------
  // What merging can be relied on for

  /** Row `b` is row `a` later on, with nothing lost. */
  ghost predicate Improves(a: Row, b: Row) {
    && b.scrapedAt == a.scrapedAt && b.username == a.username
    && (IsSet(a.url) ==> b.url == a.url && b.id == a.id)
    && (b.id != a.id ==> IsSet(b.url))
    && (!IsWeak(OrEmpty(a.caption)) ==> b.caption == a.caption)
    && (a.mediaFile.Some? ==> b.mediaFile == a.mediaFile)
    && (a.postedAt.Some? ==> b.postedAt == a.postedAt)
    && (IsSet(a.kind) ==> b.kind == a.kind) && (IsSet(a.postedDate) ==> b.postedDate == a.postedDate)
    && (IsSet(a.place) ==> b.place == a.place) && (IsSet(a.igVersion) ==> b.igVersion == a.igVersion)
    && (TwoForms(a) ==> TwoForms(b))
  }

  /** The two hashes of a row are of two forms. */
  predicate TwoForms(r: Row) {
    r.hash.Some? && (r.altHash.Some? ==> r.altHash != r.hash)
  }

  /** A row as a card is stored: hashed, with the expanded form beside it only if it differs. */
  predicate FreshRow(r: Row) {
    r.Valid() && IsSet(r.hash) && (r.altHash.Some? ==> IsSet(r.altHash) && r.altHash != r.hash)
  }

  lemma {:induction false} MergeImproves(kept: Row, seen: Row, now: DateTime)
    requires FreshRow(seen) && now.Valid()
    ensures Improves(kept, MergedRow(kept, seen, now))
    ensures var m := MergedRow(kept, seen, now);
            && TwoForms(m) && m.hash == seen.hash && (seen.altHash.Some? ==> m.altHash == seen.altHash)
            && m.id == (if IsSet(seen.url) && !IsSet(kept.url) then seen.id else kept.id)
            && m.permalinkAttempts == 0 && (kept.Valid() ==> m.Valid())
  {
    var c := [seen.altHash, kept.hash, kept.altHash];
    OtherHashDiffers(c, seen.hash);
  }

  /** What a merge makes of each column: what the stored row has stays, what it lacks comes from the card, a real
      caption taking the place of a placeholder. */
  lemma {:induction false} MergeGains(kept: Row, seen: Row, now: DateTime)
    ensures var m := MergedRow(kept, seen, now);
            && m.username == kept.username && m.scrapedAt == kept.scrapedAt && m.updatedAt == Some(now)
            && (if IsWeak(OrEmpty(kept.caption)) && !IsWeak(OrEmpty(seen.caption)) then m.caption == seen.caption
                else m.caption == kept.caption)
            && (if IsBlank(kept.kind) then m.kind == seen.kind else m.kind == kept.kind)
            && (if IsBlank(kept.postedDate) then m.postedDate == seen.postedDate else m.postedDate == kept.postedDate)
            && (if IsBlank(kept.place) then m.place == seen.place else m.place == kept.place)
            && (if IsBlank(kept.igVersion) then m.igVersion == seen.igVersion else m.igVersion == kept.igVersion)
            && (if IsBlank(kept.url) then m.url == seen.url else m.url == kept.url)
            && (m.id == if IsBlank(kept.url) && !IsBlank(seen.url) then seen.id else kept.id)
            && (if kept.postedAt.None? then m.postedAt == seen.postedAt else m.postedAt == kept.postedAt)
            && (if kept.mediaFile.None? then m.mediaFile == seen.mediaFile else m.mediaFile == kept.mediaFile)
            && m.hash == seen.hash
            && (m.altHash == if IsOther(seen.altHash, seen.hash) then seen.altHash
                             else if IsOther(kept.hash, seen.hash) then kept.hash
                             else if IsOther(kept.altHash, seen.hash) then kept.altHash else None)
  {
    OtherOfThree(seen.altHash, kept.hash, kept.altHash, seen.hash);
    hide IsWeak, OtherHash, IsOther;
  }

  lemma {:induction false} OtherOfThree(a: Option<string>, b: Option<string>, c: Option<string>, seen: Option<string>)
    ensures OtherHash([a, b, c], seen) ==
            if IsOther(a, seen) then a else if IsOther(b, seen) then b else if IsOther(c, seen) then c else None
  {
    var all := [a, b, c];
    assert all[1..] == [b, c] && [b, c][1..] == [c] && [c][1..] == [];
    assert OtherHash([c], seen) == if IsOther(c, seen) then c else None;
    assert OtherHash([b, c], seen) == if IsOther(b, seen) then b else OtherHash([c], seen);
  }

  /** NULL or an empty text. */
  predicate IsBlank(s: Option<string>) {
    s.None? || |s.value| == 0
  }

  predicate IsOther(h: Option<string>, seen: Option<string>) {
    !IsBlank(h) && h != seen
  }

  /** A captured image that loses to a stored one: any but the same file. */
  lemma {:induction false} StoredImageWins(kept: Row, seen: Row)
    ensures MediaToDrop(kept, seen) ==
            if kept.mediaFile.Some? && seen.mediaFile != kept.mediaFile then seen.mediaFile else None
  {
  }

  lemma {:induction false} OtherHashDiffers(c: seq<Option<string>>, seen: Option<string>)
    ensures var h := OtherHash(c, seen); h.Some? ==> h != seen && IsSet(h) && h in c
    ensures c != [] && IsSet(c[0]) && c[0] != seen ==> OtherHash(c, seen) == c[0]
  {
    if c != [] {
      OtherHashDiffers(c[1..], seen);
    }
  }

  lemma {:induction false} ImprovesTransitively(a: Row, b: Row, c: Row)
    requires Improves(a, b) && Improves(b, c)
    ensures Improves(a, c)
  {
  }

  /** What a run does to the table. */
  datatype Change =
    | New(row: Row)
    | Merge(oldId: string, row: Row, now: DateTime)
    | Remember(id: string, hash: string)
    | Try(id: string, link: Option<(string, string)>, now: DateTime)

  /** The circumstances the walk makes each change in: a new row's id is free, and so is a permalink a merge takes. */
  ghost predicate Allowed(t: Table, c: Change) {
    match c
    case New(row) => FreshRow(row) && row.id !in t
    case Merge(oldId, row, now) =>
      && FreshRow(row) && oldId in t && now.Valid()
      && (IsSet(row.url) ==> row.id !in t)
    case Remember(id, hash) => true
    case Try(id, link, now) => id in t && t[id].url.None? && now.Valid() && (link.Some? ==> link.value.0 != "")
  }

  ghost function Apply(t: Table, c: Change): Table
    requires Allowed(t, c)
  {
    match c
    case New(row) => t[row.id := row]
    case Merge(oldId, row, now) => WriteMerged(t, oldId, MergedRow(t[oldId], row, now))
    case Remember(id, hash) => RememberHash(t, id, hash)
    case Try(id, link, now) => Backfill(t, id, link, now)
  }

  /** The id a stored post goes by after a change. */
  ghost function Follow(t: Table, c: Change, id: string): string
    requires Allowed(t, c)
  {
    if c.Merge? && id == c.oldId then MergedRow(t[id], c.row, c.now).id else id
  }

  /** A change improves the row it is about and leaves every other alone: nothing is overwritten or lost. */
  ghost predicate ChangeIsSafe(t: Table, c: Change)
    requires Allowed(t, c)
  {
    var u := Apply(t, c);
    && ValidTable(u)
    && (forall id | id in t :: Follow(t, c, id) in u && Improves(t[id], u[Follow(t, c, id)]))
    && (forall a, b | a in t && b in t && a != b :: Follow(t, c, a) != Follow(t, c, b))
    && |u| == |t| + if c.New? then 1 else 0
  }

  lemma {:induction false} ChangeImproves(t: Table, c: Change)
    requires ValidTable(t) && Allowed(t, c)
    ensures ChangeIsSafe(t, c)
  {
    hide *;
    match c
    case New(row) => NewIsSafe(t, row);
    case Merge(oldId, row, now) => MergeIsSafe(t, oldId, row, now);
    case Remember(id, hash) => RememberIsSafe(t, id, hash);
    case Try(id, link, now) => TryIsSafe(t, id, link, now);
  }

  lemma {:induction false} Unchanged()
    ensures forall r :: Improves(r, r)
  {
  }

  lemma {:induction false} NewIsSafe(t: Table, row: Row)
    requires ValidTable(t) && Allowed(t, New(row))
    ensures ChangeIsSafe(t, New(row))
  {
    Unchanged();
    hide Improves, IsWeak;
  }

  lemma {:induction false} MergeIsSafe(t: Table, oldId: string, row: Row, now: DateTime)
    requires ValidTable(t) && Allowed(t, Merge(oldId, row, now))
    ensures ChangeIsSafe(t, Merge(oldId, row, now))
  {
    var m := MergedRow(t[oldId], row, now);
    MergeImproves(t[oldId], row, now);
    Unchanged();
    assert t[oldId].Valid();
    hide Improves, IsWeak, MergedRow, WriteMerged, FreshRow, TwoForms, ValidTable, Row.Valid;
    ReplaceRow(t, oldId, m);
  }

  lemma {:induction false} ReplaceRow(t: Table, oldId: string, m: Row)
    requires ValidTable(t) && oldId in t && m.Valid() && (m.id != oldId ==> m.id !in t)
    ensures var u := WriteMerged(t, oldId, m);
            && ValidTable(u) && m.id in u && u[m.id] == m && |u| == |t|
            && (forall id | id in t && id != oldId :: id != m.id && id in u && u[id] == t[id])
  {
    SizeWithout(t, oldId);
    assert m.id == oldId ==> t[m.id := m] == (t - {oldId})[m.id := m];
  }

  lemma {:induction false} RememberIsSafe(t: Table, id: string, hash: string)
    requires ValidTable(t)
    ensures ChangeIsSafe(t, Remember(id, hash))
  {
    Unchanged();
    if id in t && t[id].hash != Some(hash) {
      RememberImproves(t[id], hash);
      UpdateIsSafe(t, id, t[id].(altHash := t[id].hash, hash := Some(hash)));
      hide Improves, ValidTable, Row.Valid;
    }
    hide Improves, IsWeak;
  }

  lemma {:induction false} UpdateIsSafe(t: Table, id: string, row: Row)
    requires ValidTable(t) && id in t && row.id == id && row.Valid() && Improves(t[id], row)
    ensures ValidTable(t[id := row]) && |t[id := row]| == |t|
    ensures forall other | other in t :: other in t[id := row] && Improves(t[other], t[id := row][other])
  {
    Unchanged();
    assert (t[id := row]).Keys == t.Keys;
    assert |(t[id := row]).Keys| == |t[id := row]| && |t.Keys| == |t|;
    hide Improves, Row.Valid;
  }

  lemma {:induction false} RememberImproves(r: Row, hash: string)
    ensures r.hash != Some(hash) ==> Improves(r, r.(altHash := r.hash, hash := Some(hash)))
  {
    hide IsWeak;
  }

  lemma {:induction false} TryIsSafe(t: Table, id: string, link: Option<(string, string)>, now: DateTime)
    requires ValidTable(t) && Allowed(t, Try(id, link, now))
    ensures ChangeIsSafe(t, Try(id, link, now))
  {
    TryImproves(t[id], link, now);
    hide Improves, IsWeak, Taken;
    UpdateIsSafe(t, id, Backfill(t, id, link, now)[id]);
    hide ValidTable, Row.Valid;
    assert Backfill(t, id, link, now) == t[id := Backfill(t, id, link, now)[id]];
  }

  lemma {:induction false} TryImproves(r: Row, link: Option<(string, string)>, now: DateTime)
    requires r.url.None?
    ensures var tried := r.(permalinkAttempts := r.permalinkAttempts + 1);
            && Improves(r, tried)
            && (link.Some? ==> Improves(r, tried.(url := Some(link.value.0), updatedAt := Some(now))))
  {
    hide IsWeak;
  }

  lemma {:induction false} SizeWithout(t: Table, id: string)
    requires id in t
    ensures |t - {id}| == |t| - 1
  {
    assert (t - {id}).Keys == t.Keys - {id};
    assert |(t - {id}).Keys| == |t - {id}| && |t.Keys| == |t|;
  }

  ghost predicate AllowedAll(t: Table, cs: seq<Change>)
    decreases |cs|
  {
    cs == [] || (Allowed(t, cs[0]) && AllowedAll(Apply(t, cs[0]), cs[1..]))
  }

  ghost function ApplyAll(t: Table, cs: seq<Change>): Table
    requires AllowedAll(t, cs)
    decreases |cs|
  {
    if cs == [] then t else ApplyAll(Apply(t, cs[0]), cs[1..])
  }

  ghost function FollowAll(t: Table, cs: seq<Change>, id: string): string
    requires AllowedAll(t, cs)
    decreases |cs|
  {
    if cs == [] then id else FollowAll(Apply(t, cs[0]), cs[1..], Follow(t, cs[0], id))
  }

  /** How many times a post's id changes over a history. */
  ghost function IdChanges(t: Table, cs: seq<Change>, id: string): nat
    requires AllowedAll(t, cs)
    decreases |cs|
  {
    if cs == [] then 0
    else
      var next := Follow(t, cs[0], id);
      (if next != id then 1 else 0) + IdChanges(Apply(t, cs[0]), cs[1..], next)
  }

  /**
   Over any history of new posts, merges, hash updates and backfills, every stored post stays in the table,
   keeps its first-seen time, its permalink, its real caption, its media and its date once it has them, and
   changes its id at most once, on getting its permalink.
   */
  lemma {:induction false} HistoryOnlyImproves(t: Table, cs: seq<Change>, id: string)
    requires ValidTable(t) && AllowedAll(t, cs) && id in t
    ensures ValidTable(ApplyAll(t, cs))
    ensures FollowAll(t, cs, id) in ApplyAll(t, cs) && Improves(t[id], ApplyAll(t, cs)[FollowAll(t, cs, id)])
    ensures IdChanges(t, cs, id) <= if IsSet(t[id].url) then 0 else 1
    decreases |cs|
  {
    if cs != [] {
      var u, next := Apply(t, cs[0]), Follow(t, cs[0], id);
      ChangeImproves(t, cs[0]);
      assert ChangeIsSafe(t, cs[0]);
      HistoryOnlyImproves(u, cs[1..], next);
      ImprovesTransitively(t[id], u[next], ApplyAll(t, cs)[FollowAll(t, cs, id)]);
    }
  }

  /** Some card merged into the post over a history has this. */
  ghost predicate IsSeenWith(t: Table, cs: seq<Change>, id: string, has: Row -> bool)
    requires AllowedAll(t, cs)
    decreases |cs|
  {
    cs != []
    && ((cs[0].Merge? && cs[0].oldId == id && has(cs[0].row))
        || IsSeenWith(Apply(t, cs[0]), cs[1..], Follow(t, cs[0], id), has))
  }

  /** A trait of rows that a merge gives a row exactly if either side has it, and no other change touches. */
  ghost predicate IsGathered(has: Row -> bool) {
    && (forall kept, seen, now :: has(MergedRow(kept, seen, now)) <==> has(kept) || has(seen))
    && (forall r: Row, h, before :: has(r.(altHash := before, hash := h)) == has(r))
    && (forall r: Row, n, url, at :: has(r.(permalinkAttempts := n, url := url, updatedAt := at)) == has(r))
  }

  /** Over a history a post has such a trait in the end exactly if it had it, or any card merged into it did. */
  lemma {:induction false} OnceSeenAlwaysThere(t: Table, cs: seq<Change>, id: string, has: Row -> bool)
    requires ValidTable(t) && AllowedAll(t, cs) && id in t && IsGathered(has)
    ensures FollowAll(t, cs, id) in ApplyAll(t, cs)
    ensures has(ApplyAll(t, cs)[FollowAll(t, cs, id)]) <==> has(t[id]) || IsSeenWith(t, cs, id, has)
    decreases |cs|
  {
    if cs != [] {
      ChangeImproves(t, cs[0]);
      GatheredOnce(t, cs[0], id, has);
      OnceSeenAlwaysThere(Apply(t, cs[0]), cs[1..], Follow(t, cs[0], id), has);
    }
  }

  lemma {:induction false} GatheredOnce(t: Table, c: Change, id: string, has: Row -> bool)
    requires ValidTable(t) && Allowed(t, c) && id in t && IsGathered(has)
    ensures Follow(t, c, id) in Apply(t, c)
    ensures has(Apply(t, c)[Follow(t, c, id)]) <==> has(t[id]) || (c.Merge? && c.oldId == id && has(c.row))
  {
    hide ValidTable, MergedRow, Taken, FreshRow;
    if c.Merge? {
      MergedInto(t, c.oldId, c.row, c.now, id);
    } else if c.Try? && c.id == id {
      var r := t[id];
      assert r == r.(permalinkAttempts := r.permalinkAttempts, url := r.url, updatedAt := r.updatedAt);
    }
  }

  lemma {:induction false} MergedInto(t: Table, oldId: string, row: Row, now: DateTime, id: string)
    requires ValidTable(t) && Allowed(t, Merge(oldId, row, now)) && id in t
    ensures var c := Merge(oldId, row, now); var next := Follow(t, c, id);
            next in Apply(t, c) && Apply(t, c)[next] == if id == oldId then MergedRow(t[id], row, now) else t[id]
  {
    MergeImproves(t[oldId], row, now);
    ReplaceRow(t, oldId, MergedRow(t[oldId], row, now));
    hide MergedRow, WriteMerged, FreshRow, TwoForms, Improves, IsWeak;
  }

  predicate HasRealCaption(r: Row) {
    !IsWeak(OrEmpty(r.caption))
  }

  predicate HasImage(r: Row) {
    r.mediaFile.Some?
  }

  predicate HasTime(r: Row) {
    r.postedAt.Some?
  }

  predicate HasPlace(r: Row) {
    IsSet(r.place)
  }

  /** So it is with a real caption, an image, a posting time and a place: once any sighting of a post has one, the
      row does. */
  lemma {:induction false} SightingsAddUp(t: Table, cs: seq<Change>, id: string)
    requires ValidTable(t) && AllowedAll(t, cs) && id in t
    ensures FollowAll(t, cs, id) in ApplyAll(t, cs)
    ensures var row := ApplyAll(t, cs)[FollowAll(t, cs, id)];
            && (HasRealCaption(row) <==> HasRealCaption(t[id]) || IsSeenWith(t, cs, id, HasRealCaption))
            && (HasImage(row) <==> HasImage(t[id]) || IsSeenWith(t, cs, id, HasImage))
            && (HasTime(row) <==> HasTime(t[id]) || IsSeenWith(t, cs, id, HasTime))
            && (HasPlace(row) <==> HasPlace(t[id]) || IsSeenWith(t, cs, id, HasPlace))
  {
    TraitsAreGathered();
    hide *;
    OnceSeenAlwaysThere(t, cs, id, HasRealCaption);
    OnceSeenAlwaysThere(t, cs, id, HasImage);
    OnceSeenAlwaysThere(t, cs, id, HasTime);
    OnceSeenAlwaysThere(t, cs, id, HasPlace);
  }

  lemma {:induction false} TraitsAreGathered()
    ensures IsGathered(HasRealCaption) && IsGathered(HasImage) && IsGathered(HasTime) && IsGathered(HasPlace)
  {
    hide IsWeak, OtherHash;
  }

  /** Two stored posts never become one over a history. */
  lemma {:induction false} HistoryKeepsPostsApart(t: Table, cs: seq<Change>, a: string, b: string)
    requires ValidTable(t) && AllowedAll(t, cs) && a in t && b in t && a != b
    ensures FollowAll(t, cs, a) != FollowAll(t, cs, b)
    decreases |cs|
  {
    if cs != [] {
      ChangeImproves(t, cs[0]);
      HistoryKeepsPostsApart(Apply(t, cs[0]), cs[1..], Follow(t, cs[0], a), Follow(t, cs[0], b));
    }
  }

  /** A row a card's hash leads to. */
  predicate FoundBy(r: Row, h: string) {
    r.hash == Some(h) || r.altHash == Some(h) || r.id == h
  }

  /** Whichever way a card is recorded, the row answers to the hash it was seen under, and after a capture
      to its expanded form's too. */
  lemma {:induction false} BothFormsAreFound(kept: Row, seen: Row, now: DateTime, h: string)
    requires FreshRow(seen) && seen.hash == Some(h) && now.Valid()
    ensures FoundBy(seen, h) && FoundBy(MergedRow(kept, seen, now), h)
    ensures seen.altHash.Some? ==>
              FoundBy(seen, seen.altHash.value) && FoundBy(MergedRow(kept, seen, now), seen.altHash.value)
  {
    MergeImproves(kept, seen, now);
  }

  /**
   How often Copy link has been tried for a post is what bounds the tries across runs. Every try counts one,
   and nothing else lowers the count, except that a merge starts it again from zero.
   */
  lemma {:induction false} TriesAreForgottenByAMerge(t: Table, c: Change, id: string)
    requires ValidTable(t) && Allowed(t, c) && id in t
    ensures var after := Apply(t, c)[Follow(t, c, id)].permalinkAttempts;
            after < t[id].permalinkAttempts <==> c.Merge? && c.oldId == id && t[id].permalinkAttempts > 0
  {
    hide *;
    match c
    case New(row) => NewCountsNothing(t, row, id);
    case Merge(oldId, row, now) => MergeForgets(t, oldId, row, now, id);
    case Remember(other, hash) => RememberCountsNothing(t, other, hash, id);
    case Try(other, link, now) => TryCounts(t, other, link, now, id);
  }

  lemma {:induction false} NewCountsNothing(t: Table, row: Row, id: string)
    requires Allowed(t, New(row)) && id in t
    ensures Follow(t, New(row), id) == id && id in Apply(t, New(row)) && Apply(t, New(row))[id] == t[id]
  {
    hide FreshRow;
  }

  lemma {:induction false} MergeForgets(t: Table, oldId: string, row: Row, now: DateTime, id: string)
    requires ValidTable(t) && Allowed(t, Merge(oldId, row, now)) && id in t
    ensures var c := Merge(oldId, row, now); var next := Follow(t, c, id);
            next in Apply(t, c)
            && Apply(t, c)[next].permalinkAttempts == if id == oldId then 0 else t[id].permalinkAttempts
  {
    var m := MergedRow(t[oldId], row, now);
    MergeImproves(t[oldId], row, now);
    ReplaceRow(t, oldId, m);
    hide MergedRow, WriteMerged, FreshRow, TwoForms, Improves, OtherHash, IsWeak;
  }

  lemma {:induction false} RememberCountsNothing(t: Table, other: string, hash: string, id: string)
    requires Allowed(t, Remember(other, hash)) && id in t
    ensures var c := Remember(other, hash);
            Follow(t, c, id) == id && id in Apply(t, c)
            && Apply(t, c)[id].permalinkAttempts == t[id].permalinkAttempts
  {
  }

  lemma {:induction false} TryCounts(t: Table, other: string, link: Option<(string, string)>, now: DateTime, id: string)
    requires Allowed(t, Try(other, link, now)) && id in t
    ensures var c := Try(other, link, now);
            Follow(t, c, id) == id && id in Apply(t, c)
            && Apply(t, c)[id].permalinkAttempts == t[id].permalinkAttempts + if id == other then 1 else 0
  {
    hide Taken;
  }

  // ---------------------------------------------------------------------------------------------
  // Two histories

  /** A dated card as it is searched for. */
  function AsCard(seen: Row): (c: Card)
    requires seen.Valid() && seen.postedAt.Some?
    ensures c.Valid()
  {
    Card(seen.username, seen.caption, seen.postedAt.value, Some(HOUR))
  }

  /** No row answers to a hash. */
  ghost predicate IsUnknown(t: Table, h: string) {
    forall id | id in t :: !FoundBy(t[id], h)
  }

  /** What the lookups find before a dated card is inserted or merged: no row under its hash; then no row that is
      its post, or the one it is merged into. */
  ghost predicate LookedUp(t: Table, c: Change)
    requires ValidTable(t) && Allowed(t, c)
  {
    match c
    case New(row) =>
      row.postedAt.Some? && IsUnknown(t, row.hash.value)
      && forall id | id in t :: !IsDuplicate(t[id], AsCard(row), None)
    case Merge(oldId, row, _) =>
      row.postedAt.Some? && IsUnknown(t, row.hash.value) && IsDuplicate(t[oldId], AsCard(row), None)
    case _ => true
  }

  /** A history of changes each made after its lookups. */
  ghost predicate LookedUpAll(t: Table, cs: seq<Change>)
    requires ValidTable(t)
    decreases |cs|
  {
    cs == []
    || (Allowed(t, cs[0]) && LookedUp(t, cs[0])
        && (ChangeImproves(t, cs[0]); LookedUpAll(Apply(t, cs[0]), cs[1..])))
  }

  lemma {:induction false} LookedUpIsAllowed(t: Table, cs: seq<Change>)
    requires ValidTable(t) && LookedUpAll(t, cs)
    ensures AllowedAll(t, cs) && ValidTable(ApplyAll(t, cs))
    decreases |cs|
  {
    if cs != [] {
      ChangeImproves(t, cs[0]);
      LookedUpIsAllowed(Apply(t, cs[0]), cs[1..]);
    }
  }

  /** One more change in front of a history. */
  lemma {:induction false} Preceded(t: Table, c: Change, cs: seq<Change>)
    requires ValidTable(t) && Allowed(t, c) && LookedUp(t, c)
    ensures ValidTable(Apply(t, c))
    ensures LookedUpAll(Apply(t, c), cs) ==>
              && LookedUpAll(t, [c] + cs) && AllowedAll(t, [c] + cs) && AllowedAll(Apply(t, c), cs)
              && ApplyAll(t, [c] + cs) == ApplyAll(Apply(t, c), cs)
  {
    ChangeImproves(t, c);
    assert ([c] + cs)[1..] == cs;
    if LookedUpAll(Apply(t, c), cs) {
      LookedUpIsAllowed(Apply(t, c), cs);
    }
    hide Allowed, Apply, LookedUp, ValidTable;
  }

  const PLACEHOLDER := "Photo by Ada"

  lemma {:induction false} PlaceholderIsWeak()
    ensures IsWeak(PLACEHOLDER)
  {
    var s := Lower(PLACEHOLDER);
    assert s == "photo by ada";
    assert SaysBy(s, 5, 6);
  }

  /** A card without a caption of its own, posted and seen at one time. */
  function Sighting(id: string, hash: string, media: Option<File>, at: DateTime): Row {
    Row(id, "ada", None, None, Some(PLACEHOLDER), media, at, Some(hash), None, None, None, Some(at), None, None, 0)
  }

  lemma {:induction false} SightingsMatch(r: Row, seen: Row)
    requires r.Valid() && seen.Valid() && r.postedAt.Some? && seen.postedAt.Some? && r.username == seen.username
    requires r.caption == Some(PLACEHOLDER)
    ensures IsDuplicate(r, AsCard(seen), None) <==>
            Abs(Instant(r.postedAt.value) - Instant(seen.postedAt.value)) <= HOUR * SECOND
  {
    PlaceholderIsWeak();
    hide IsWeak, Instant;
  }

  /** A table of one sighting, as later ones have left it. */
  function SeenSince(at: DateTime, media: Option<File>, hash: string, before: Option<string>): Table {
    map["a" := Sighting("a", "a", None, at).(mediaFile := media, hash := Some(hash), altHash := before,
                                             updatedAt := if before.Some? then Some(at) else None)]
  }

  /** Seen once more under a hash not remembered, it is merged again, and that hash pushes the one before back. */
  lemma {:induction false} SeenAgain(at: DateTime, kept: Option<File>, was: string, before: Option<string>,
                                     hash: string, media: Option<File>)
    requires at.Valid() && hash !in ["", "a", was] && before != Some(hash) && was != ""
    ensures var t, c := SeenSince(at, kept, was, before), Merge("a", Sighting(hash, hash, media, at), at);
            && ValidTable(t) && Allowed(t, c) && LookedUp(t, c)
            && Apply(t, c) == SeenSince(at, TruthyOr(kept, media), hash, Some(was))
  {
    var t, seen := SeenSince(at, kept, was, before), Sighting(hash, hash, media, at);
    SightingsMatch(t["a"], seen);
    hide IsWeak, IsDuplicate, Instant;
    var candidates := [None, Some(was), before];
    assert candidates[1..][0] == Some(was);
    assert OtherHash(candidates, Some(hash)) == OtherHash(candidates[1..], Some(hash)) == Some(was);
  }

  /** A post stored, tried twice for its link in vain, and seen again under another hash: its two tries are
      forgotten. */
  function TriedTwice(at: DateTime): seq<Change> {
    [New(Sighting("a", "a", None, at)), Try("a", None, at), Try("a", None, at)]
  }

  lemma {:induction false} AMergeForgetsTwoTries(at: DateTime)
    requires at.Valid()
    ensures LookedUpAll(map[], TriedTwice(at)) && AllowedAll(map[], TriedTwice(at))
    ensures var t := ApplyAll(map[], TriedTwice(at)); var again := Merge("a", Sighting("b", "b", None, at), at);
            && ValidTable(t) && "a" in t && t["a"].permalinkAttempts == 2 && Allowed(t, again) && LookedUp(t, again)
            && "a" in Apply(t, again) && Apply(t, again)["a"].permalinkAttempts == 0
  {
    hide IsWeak, IsDuplicate, LookedUpAll, AllowedAll, ApplyAll, Instant;
    var first, try := Sighting("a", "a", None, at), Try("a", None, at);
    var t1, t2 := map["a" := first], map["a" := first.(permalinkAttempts := 1)];
    var t3 := map["a" := first.(permalinkAttempts := 2)];
    assert Apply(map[], New(first)) == t1;
    assert Apply(t1, try) == t2;
    assert Apply(t2, try) == t3;
    NothingMore(t3);
    Preceded(t2, try, []);
    Preceded(t1, try, [try] + []);
    Preceded(map[], New(first), [try] + ([try] + []));
    assert TriedTwice(at) == [New(first)] + ([try] + ([try] + []));
    SightingsMatch(t3["a"], Sighting("b", "b", None, at));
  }

  lemma {:induction false} NothingMore(t: Table)
    requires ValidTable(t)
    ensures LookedUpAll(t, []) && AllowedAll(t, []) && ApplyAll(t, []) == t
  {
  }

  /** A post first stored without an image gets the one captured when it is seen under a second hash. Seen under two
      more, it no longer answers to that one, so the next post stored under it names its image the same. */
  function TwiceNamed(at: DateTime, later: DateTime): seq<Change> {
    [New(Sighting("a", "a", None, at)), Merge("a", Sighting("h", "h", Some(Cover("h")), at), at),
     Merge("a", Sighting("i", "i", None, at), at), Merge("a", Sighting("j", "j", None, at), at),
     New(Sighting("h", "h", Some(Cover("h")), later))]
  }

  lemma {:induction false} TwoRowsNameOneFile(at: DateTime, later: DateTime)
    requires at.Valid() && later.Valid() && Instant(later) - Instant(at) > HOUR * SECOND
    ensures LookedUpAll(map[], TwiceNamed(at, later)) && AllowedAll(map[], TwiceNamed(at, later))
    ensures var t := ApplyAll(map[], TwiceNamed(at, later));
            && t.Keys == {"a", "h"} && ValidTable(t)
            && t["a"].mediaFile == Some(Cover("h")) && t["h"].mediaFile == Some(Cover("h"))
            && t["a"].postedAt == Some(at) && t["h"].postedAt == Some(later)
  {
    var first, image := Sighting("a", "a", None, at), Some(Cover("h"));
    var second := Sighting("h", "h", image, later);
    var c2 := Merge("a", Sighting("h", "h", image, at), at);
    var c3, c4 := Merge("a", Sighting("i", "i", None, at), at), Merge("a", Sighting("j", "j", None, at), at);
    var t4 := SeenSince(at, image, "j", Some("i"));
    SeenFirst(at);
    SeenAgain(at, None, "a", None, "h", image);
    SeenAgain(at, image, "h", Some("a"), "i", None);
    SeenAgain(at, image, "i", Some("h"), "j", None);
    NewAfter(at, later, t4, second);
    hide *;
    NothingMore(t4["h" := second]);
    Preceded(t4, New(second), []);
    Preceded(SeenSince(at, image, "i", Some("h")), c4, [New(second)] + []);
    Preceded(SeenSince(at, image, "h", Some("a")), c3, [c4] + ([New(second)] + []));
    Preceded(SeenSince(at, None, "a", None), c2, [c3] + ([c4] + ([New(second)] + [])));
    Preceded(map[], New(first), [c2] + ([c3] + ([c4] + ([New(second)] + []))));
    var cs := [New(first)] + ([c2] + ([c3] + ([c4] + ([New(second)] + []))));
    assert TwiceNamed(at, later) == cs;
  }

  lemma {:induction false} SeenFirst(at: DateTime)
    requires at.Valid()
    ensures var c := New(Sighting("a", "a", None, at));
            Allowed(map[], c) && LookedUp(map[], c) && Apply(map[], c) == SeenSince(at, None, "a", None)
  {
  }

  lemma {:induction false} NewAfter(at: DateTime, later: DateTime, t: Table, seen: Row)
    requires at.Valid() && later.Valid() && Instant(later) - Instant(at) > HOUR * SECOND
    requires t == SeenSince(at, Some(Cover("h")), "j", Some("i")) && seen == Sighting("h", "h", Some(Cover("h")), later)
    ensures var after := t["h" := seen];
            && ValidTable(t) && ValidTable(after) && Allowed(t, New(seen)) && LookedUp(t, New(seen))
            && Apply(t, New(seen)) == after && after.Keys == {"a", "h"}
            && after["a"].mediaFile == Some(Cover("h")) && after["a"].postedAt == Some(at)
            && after["h"].mediaFile == Some(Cover("h")) && after["h"].postedAt == Some(later)
  {
    SightingsMatch(t["a"], seen);
    hide IsWeak, IsDuplicate, Instant;
  }
}
