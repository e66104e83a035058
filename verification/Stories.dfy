/**
 Stored stories: a difference hash of each frame, and a table that refuses a frame much like one of the last day.

 The 9 by 8 grey thumbnail, the blank check and the content digest of a frame are given; so are the clock readings.
 */
module Stories {
  import opened Text
  import opened Timestamps

  // --- the difference hash

  /** The bits of a number, most significant first. */
  function Pack(bits: seq<bool>): nat {
    if bits == [] then 0 else Pack(bits[..|bits| - 1]) * 2 + if bits[|bits| - 1] then 1 else 0
  }

  function BitsOf(n: nat, width: nat): (bits: seq<bool>)
    ensures |bits| == width
  {
    if width == 0 then [] else BitsOf(n / 2, width - 1) + [n % 2 == 1]
  }

  lemma {:induction false} BitsReadBack(bits: seq<bool>)
    ensures BitsOf(Pack(bits), |bits|) == bits
  {
    if bits != [] {
      BitsReadBack(bits[..|bits| - 1]);
    }
  }

  /** `(m ^ n).bit_count()`. */
  function Differ(m: nat, n: nat): nat
    decreases m + n
  {
    if m == 0 && n == 0 then 0 else (if m % 2 != n % 2 then 1 else 0) + Differ(m / 2, n / 2)
  }

  function Distance(a: seq<bool>, b: seq<bool>): nat
    requires |a| == |b|
  {
    if a == [] then 0
    else Distance(a[..|a| - 1], b[..|b| - 1]) + if a[|a| - 1] != b[|b| - 1] then 1 else 0
  }

  /** Counting the ones of the two numbers' exclusive or counts the places where their bits differ. */
  lemma {:induction false} DifferIsDistance(a: seq<bool>, b: seq<bool>)
    requires |a| == |b|
    ensures Differ(Pack(a), Pack(b)) == Distance(a, b)
  {
    if a != [] {
      var p, q := a[..|a| - 1], b[..|b| - 1];
      DifferIsDistance(p, q);
      assert Pack(a) / 2 == Pack(p) && Pack(b) / 2 == Pack(q);
      assert Pack(a) == 0 && Pack(b) == 0 ==> Pack(p) == 0 && Pack(q) == 0;
    }
  }

  lemma {:induction false} DifferIsSymmetric(m: nat, n: nat)
    ensures Differ(m, n) == Differ(n, m)
    decreases m + n
  {
    if m != 0 || n != 0 {
      DifferIsSymmetric(m / 2, n / 2);
    }
  }

  function HexDigit(d: nat): char
    requires d < 16
  {
    "0123456789abcdef"[d]
  }

  /** Ten figures, then the letters a to f. */
  lemma {:induction false} HexDigits(d: nat)
    requires d < 16
    ensures HexDigit(d) as int == if d < 10 then '0' as int + d else 'a' as int + (d - 10)
  {
  }

  function Value(c: char): nat {
    if '0' <= c <= '9' then c as int - '0' as int
    else if 'a' <= c <= 'f' then c as int - 'a' as int + 10
    else 0
  }

  /** `f"{n:0{width}x}"`, of a number that fits. */
  function Hex(n: nat, width: nat): (s: string)
    ensures |s| == width
  {
    if width == 0 then "" else Hex(n / 16, width - 1) + [HexDigit(n % 16)]
  }

  /** `int(s, 16)` of what Hex prints. */
  function FromHex(s: string): nat {
    if s == "" then 0 else FromHex(s[..|s| - 1]) * 16 + Value(s[|s| - 1])
  }

  lemma {:induction false} HexReadsBack(bits: seq<bool>, width: nat)
    requires |bits| == 4 * width
    ensures FromHex(Hex(Pack(bits), width)) == Pack(bits)
  {
    if width > 0 {
      LastFour(bits);
      HexReadsBack(bits[..|bits| - 4], width - 1);
      hide Pack;
      LastDigit(Pack(bits), width);
    }
  }

  lemma {:induction false} LastDigit(n: nat, width: nat)
    requires width > 0
    ensures FromHex(Hex(n, width)) == FromHex(Hex(n / 16, width - 1)) * 16 + n % 16
  {
    var s := Hex(n, width);
    assert s[..|s| - 1] == Hex(n / 16, width - 1);
    DigitReadsBack(n % 16);
    hide HexDigit, Value;
  }

  lemma {:induction false} DigitReadsBack(d: nat)
    requires d < 16
    ensures Value(HexDigit(d)) == d
  {
  }

  lemma {:induction false} LastFour(bits: seq<bool>)
    requires |bits| >= 4
    ensures Pack(bits) / 16 == Pack(bits[..|bits| - 4])
  {
    var a, b, c := bits[..|bits| - 1], bits[..|bits| - 2], bits[..|bits| - 3];
    assert a[..|a| - 1] == b && b[..|b| - 1] == c && c[..|c| - 1] == bits[..|bits| - 4];
    LastBit(bits);
    LastBit(a);
    LastBit(b);
    LastBit(c);
  }

  lemma {:induction false} LastBit(bits: seq<bool>)
    requires bits != []
    ensures Pack(bits) / 2 == Pack(bits[..|bits| - 1])
  {
  }

  type Level = l: int | 0 <= l < 256

  /** The comparisons: each of the eight rows of nine, each pixel with the one to its right. */
  function Comparisons(px: seq<Level>): seq<bool>
    requires |px| == 72
  {
    seq(64, j requires 0 <= j < 64 => px[j / 8 * 9 + j % 8] > px[j / 8 * 9 + j % 8 + 1])
  }

  lemma {:induction false} NothingPacked()
    ensures Pack([]) == 0
  {
  }

  lemma {:induction false} OneMorePacked(bits: seq<bool>, j: nat)
    requires j < |bits|
    ensures Pack(bits[..j + 1]) == Pack(bits[..j]) * 2 + if bits[j] then 1 else 0
  {
    assert bits[..j + 1][..j] == bits[..j];
  }

  /** How many of the first `i` pixels have a right neighbour. */
  function Compared(i: nat): nat {
    i / 9 * 8 + if i % 9 < 8 then i % 9 else 8
  }

  lemma {:induction false} NextCompared(i: nat)
    requires i < 72
    ensures Compared(i) <= Compared(i + 1) <= 64
    ensures i % 9 == 8 ==> Compared(i + 1) == Compared(i)
    ensures i % 9 != 8 ==> Compared(i) < 64 && Compared(i + 1) == Compared(i) + 1
    ensures i % 9 != 8 ==> Compared(i) / 8 * 9 + Compared(i) % 8 == i
  {
  }

  method DHash(px: seq<Level>) returns (phash: string)
    requires |px| == 72
    ensures phash == Hex(Pack(Comparisons(px)), 16)
    ensures |phash| == 16 && BitsOf(FromHex(phash), 64) == Comparisons(px)
  {
    var bits: nat := 0;
    var done := Comparisons(px);
    hide Pack, BitsOf, Hex, FromHex;
    NothingPacked();
    for i := 0 to 72
      invariant Compared(i) <= 64 && bits == Pack(done[..Compared(i)])
    {
      NextCompared(i);
      if i % 9 != 8 {
        var j := Compared(i);
        OneMorePacked(done, j);
        bits := bits * 2 + if px[i] > px[i + 1] then 1 else 0;
      }
    }
    assert done[..64] == done;
    HexReadsBack(done, 16);
    BitsReadBack(done);
    phash := Hex(bits, 16);
  }

  // --- the table

  const STORY_PHASH_DISTANCE := 10
  const STORY_PHASH_DISTANCE_OTHER := 4

  datatype File = Temporary(name: string) | Stored(digest: string, suffix: string)

  datatype Story = Story(username: string, file: File, scrapedAt: DateTime, phash: Option<string>)

  function Apart(a: string, b: string): nat {
    Differ(FromHex(a), FromHex(b))
  }

  function Limit(username: string, other: string): nat {
    if username == other then STORY_PHASH_DISTANCE else STORY_PHASH_DISTANCE_OTHER
  }

  /** The rows the duplicate search reads, by the text of their time. */
  predicate Recent(s: Story, cutoff: DateTime)
    requires s.scrapedAt.Valid() && cutoff.Valid()
  {
    Less(Iso(cutoff), Iso(s.scrapedAt)) && s.phash.Some?
  }

  predicate Timed(rows: map<string, Story>) {
    forall id | id in rows :: rows[id].scrapedAt.Valid()
  }

  predicate FindDuplicate(rows: map<string, Story>, username: string, phash: string, cutoff: DateTime)
    requires Timed(rows) && cutoff.Valid()
  {
    exists id | id in rows :: Recent(rows[id], cutoff)
      && Apart(rows[id].phash.value, phash) <= Limit(username, rows[id].username)
  }

  /** A frame is a near duplicate exactly of a hashed story stored after the cutoff and no more than ten bits off for
      the account's own, four for another's. */
  lemma {:induction false} DuplicatesAreNear(rows: map<string, Story>, username: string, phash: string,
                                             cutoff: DateTime)
    requires Timed(rows) && cutoff.Valid()
    ensures FindDuplicate(rows, username, phash, cutoff) <==>
            exists id | id in rows && rows[id].phash.Some? && Instant(rows[id].scrapedAt) > Instant(cutoff) ::
              Differ(FromHex(rows[id].phash.value), FromHex(phash)) <= if rows[id].username == username then 10 else 4
  {
    forall id | id in rows
      ensures Less(Iso(cutoff), Iso(rows[id].scrapedAt)) <==> Instant(cutoff) < Instant(rows[id].scrapedAt)
    {
      IsoOrder(cutoff, rows[id].scrapedAt);
    }
    hide Less, Iso, Instant, Differ, FromHex;
  }

  /** Two hashed stories of one day are told apart: by more bits for one account than for two. */
  ghost predicate ToldApart(a: Story, b: Story)
    requires a.scrapedAt.Valid() && b.scrapedAt.Valid()
  {
    a.phash.Some? && b.phash.Some? && -DAY < Instant(a.scrapedAt) - Instant(b.scrapedAt) < DAY ==>
      Apart(a.phash.value, b.phash.value) > if a.username == b.username then 10 else 4
  }

  ghost predicate AllToldApart(rows: map<string, Story>)
    requires Timed(rows)
  {
    forall id, other | id in rows && other in rows && id != other :: ToldApart(rows[id], rows[other])
  }

  /** Every row's file is there, under the row's digest. */
  ghost predicate Filed(rows: map<string, Story>, files: set<File>) {
    forall id | id in rows :: rows[id].file in files && rows[id].file.Stored? && rows[id].file.digest == id
  }

  /** No near duplicate as of a day before one reading of the clock: told apart from what is stored at a later one. */
  lemma {:induction false} NewIsToldApart(rows: map<string, Story>, story: Story, cutoff: DateTime, id: string)
    requires Timed(rows) && cutoff.Valid() && story.scrapedAt.Valid() && story.phash.Some? && id in rows
    requires Instant(cutoff) + DAY <= Instant(story.scrapedAt)
    requires !FindDuplicate(rows, story.username, story.phash.value, cutoff)
    ensures ToldApart(rows[id], story) && ToldApart(story, rows[id])
  {
    IsoOrder(cutoff, rows[id].scrapedAt);
    if rows[id].phash.Some? {
      DifferIsSymmetric(FromHex(rows[id].phash.value), FromHex(story.phash.value));
    }
  }

  lemma {:induction false} StillToldApart(rows: map<string, Story>, story: Story, cutoff: DateTime, digest: string)
    requires Timed(rows) && AllToldApart(rows) && cutoff.Valid() && story.scrapedAt.Valid() && story.phash.Some?
    requires Instant(cutoff) + DAY <= Instant(story.scrapedAt) && digest !in rows
    requires !FindDuplicate(rows, story.username, story.phash.value, cutoff)
    ensures Timed(rows[digest := story]) && AllToldApart(rows[digest := story])
  {
    hide ToldApart, FindDuplicate, Instant;
    var after := rows[digest := story];
    forall id, other | id in after && other in after && id != other
      ensures ToldApart(after[id], after[other])
    {
      if id == digest {
        NewIsToldApart(rows, story, cutoff, other);
      } else if other == digest {
        NewIsToldApart(rows, story, cutoff, id);
      }
    }
  }

  datatype Captured = Captured(path: File, username: string, px: seq<Level>, blank: bool, digest: string,
                               suffix: string) {
    predicate Valid() {
      path.Temporary? && |px| == 72
    }
  }

  /** A reading of the clock for the duplicate search, then one for the row. */
  datatype Moment = Moment(checked: DateTime, stored: DateTime) {
    predicate Valid() {
      && checked.Valid() && stored.Valid() && Instant(checked) <= Instant(stored) && Plus(checked, -DAY).Some?
    }
  }

  /** A frame is stored if it isn't blank, nor much like a story of the last day, nor there already. */
  predicate Stores(rows: map<string, Story>, captured: Captured, at: Moment)
    requires Timed(rows) && captured.Valid() && at.Valid()
  {
    && !captured.blank && captured.digest !in rows
    && !FindDuplicate(rows, captured.username, Hex(Pack(Comparisons(captured.px)), 16), Plus(at.checked, -DAY).value)
  }

  function AfterCapture(rows: map<string, Story>, captured: Captured, at: Moment): (after: map<string, Story>)
    requires Timed(rows) && captured.Valid() && at.Valid()
    ensures Timed(after) && rows.Keys <= after.Keys && forall id | id in rows :: after[id] == rows[id]
    ensures |after| == |rows| + if Stores(rows, captured, at) then 1 else 0
  {
    if !Stores(rows, captured, at) then rows
    else
      rows[captured.digest := Story(captured.username, Stored(captured.digest, captured.suffix), at.stored,
                                    Some(Hex(Pack(Comparisons(captured.px)), 16)))]
  }

  /** The rows once each frame in turn has been stored or not, as its predecessors left the table. */
  function AfterCaptures(rows: map<string, Story>, captures: seq<Captured>,
                         times: seq<Moment>): (after: map<string, Story>)
    requires Timed(rows) && |times| == |captures|
    requires (forall c | c in captures :: c.Valid()) && forall t | t in times :: t.Valid()
    ensures Timed(after) && rows.Keys <= after.Keys && forall id | id in rows :: after[id] == rows[id]
  {
    if captures == [] then rows
    else
      var n := |captures| - 1;
      AfterCapture(AfterCaptures(rows, captures[..n], times[..n]), captures[n], times[n])
  }

  /** The files of the rows added. */
  function NewFiles(before: map<string, Story>, after: map<string, Story>): set<File> {
    set id | id in after && id !in before :: after[id].file
  }

  class StoryStore {
    var rows: map<string, Story>
    var files: set<File>

    ghost predicate Valid()
      reads this
    {
      Timed(rows) && AllToldApart(rows) && Filed(rows, files)
    }

    constructor ()
      ensures Valid() && rows == map[] && files == {}
    {
      rows, files := map[], {};
    }

    /** A captured frame is stored under its digest, or not; its temporary file is gone either way. */
    method StoreStory(captured: Captured, at: Moment) returns (added: bool)
      requires Valid() && captured.Valid() && captured.path in files && at.Valid()
      modifies this
      ensures Valid()
      ensures added == Stores(old(rows), captured, at) && rows == AfterCapture(old(rows), captured, at)
      ensures files == old(files) - {captured.path} + if added then {Stored(captured.digest, captured.suffix)} else {}
    {
      var phash := DHash(captured.px);
      var cutoff := Plus(at.checked, -DAY).value;
      if captured.blank || FindDuplicate(rows, captured.username, phash, cutoff) {
        files := files - {captured.path};
        return false;
      }
      if captured.digest in rows {
        files := files - {captured.path};
        return false;
      }
      var file := Stored(captured.digest, captured.suffix);
      var story := Story(captured.username, file, at.stored, Some(phash));
      StillToldApart(rows, story, cutoff, captured.digest);
      rows := rows[captured.digest := story];
      files := files - {captured.path} + {file};
      added := true;
    }

    /** A story found to reshare a stored post goes, row and file. */
    method Drop(id: string)
      requires Valid() && id in rows
      modifies this
      ensures Valid() && rows == old(rows) - {id} && files == old(files) - {old(rows)[id].file}
    {
      var file := rows[id].file;
      rows := rows - {id};
      files := files - {file};
    }

    /** Captures one frame to a temporary file, and stores or discards it. */
    method TakeFrame(captured: Captured, at: Moment) returns (added: bool)
      requires Valid() && AllStored(files) && captured.Valid() && at.Valid()
      modifies this
      ensures Valid() && AllStored(files)
      ensures added == Stores(old(rows), captured, at) && rows == AfterCapture(old(rows), captured, at)
      ensures files == old(files) + NewFiles(old(rows), rows)
    {
      hide Stores, Timed, AllToldApart;
      files := files + {captured.path};
      OneMoreFile(rows, rows, captured, at);
      assert NewFiles(rows, rows) == {};
      hide AfterCapture, NewFiles;
      added := StoreStory(captured, at);
    }

    /** One run: each frame is stored or discarded before the next is captured. */
    method CaptureStories(captures: seq<Captured>, times: seq<Moment>) returns (added: nat)
      requires Valid() && AllStored(files) && |times| == |captures|
      requires (forall c | c in captures :: c.Valid()) && forall t | t in times :: t.Valid()
      modifies this
      ensures Valid() && AllStored(files)
      ensures rows == AfterCaptures(old(rows), captures, times) && added == |rows| - |old(rows)|
      ensures files == old(files) + NewFiles(old(rows), rows)
    {
      added := 0;
      NoneCaptured(rows, captures, times);
      hide *;
      for i := 0 to |captures|
        invariant Valid() && AllStored(files) && Timed(old(rows))
        invariant rows == AfterCaptures(old(rows), captures[..i], times[..i]) && added == |rows| - |old(rows)|
        invariant files == old(files) + NewFiles(old(rows), rows)
      {
        OneMoreCapture(old(rows), captures, times, i);
        ghost var was := rows;
        StillTimed();
        var stored := TakeFrame(captures[i], times[i]);
        NewFilesAdd(old(rows), was, rows);
        if stored {
          added := added + 1;
        }
      }
      assert captures[..|captures|] == captures && times[..|times|] == times;
    }

    lemma {:induction false} StillTimed()
      requires Valid()
      ensures Timed(rows)
    {
    }
  }

  predicate AllStored(files: set<File>) {
    forall f | f in files :: f.Stored?
  }

  lemma {:induction false} NoneCaptured(rows: map<string, Story>, captures: seq<Captured>, times: seq<Moment>)
    requires Timed(rows)
    ensures AfterCaptures(rows, captures[..0], times[..0]) == rows && NewFiles(rows, rows) == {}
  {
  }

  lemma {:induction false} NewFilesAdd(start: map<string, Story>, was: map<string, Story>, after: map<string, Story>)
    requires start.Keys <= was.Keys <= after.Keys && forall id | id in was :: after[id] == was[id]
    ensures NewFiles(start, after) == NewFiles(start, was) + NewFiles(was, after)
  {
  }

  lemma {:induction false} OneMoreCapture(rows: map<string, Story>, captures: seq<Captured>, times: seq<Moment>, i: nat)
    requires Timed(rows) && |times| == |captures| && i < |captures|
    requires (forall c | c in captures :: c.Valid()) && forall t | t in times :: t.Valid()
    ensures AfterCaptures(rows, captures[..i + 1], times[..i + 1]) ==
            AfterCapture(AfterCaptures(rows, captures[..i], times[..i]), captures[i], times[i])
  {
    assert captures[..i + 1][..i] == captures[..i] && times[..i + 1][..i] == times[..i];
    hide AfterCapture;
  }

  lemma {:induction false} OneMoreFile(start: map<string, Story>, rows: map<string, Story>, captured: Captured,
                                       at: Moment)
    requires Timed(rows) && captured.Valid() && at.Valid() && start.Keys <= rows.Keys
    ensures NewFiles(start, AfterCapture(rows, captured, at)) ==
            NewFiles(start, rows)
            + if Stores(rows, captured, at) then {Stored(captured.digest, captured.suffix)} else {}
  {
    hide FindDuplicate, Comparisons, Hex, Pack;
    var after := AfterCapture(rows, captured, at);
    if Stores(rows, captured, at) {
      assert after[captured.digest].file == Stored(captured.digest, captured.suffix);
    }
  }
}
