/**
 The size cap: the oldest posts go, with their files, until what is stored fits.

 Sizes are in bytes. `live` is the database's live size, `others` that of the media directory's other files
 (avatars, stories), neither of which the cap changes as it counts.
 */
module Retention {
  import opened Text
  import opened Timestamps
  import opened Sightings
  import opened PostTable
  import FeedWalk

  type Slides = map<(string, nat), File>

  /** A post's cover and slides. */
  function PostFiles(posts: Table, slides: Slides, id: string): set<File> {
    (if id in posts && posts[id].mediaFile.Some? then {posts[id].mediaFile.value} else {})
    + (set key | key in slides && key.0 == id :: slides[key])
  }

  function FilesOf(posts: Table, slides: Slides, ids: seq<string>): set<File> {
    if ids == [] then {} else FilesOf(posts, slides, ids[..|ids| - 1]) + PostFiles(posts, slides, ids[|ids| - 1])
  }

  /** A missing file has no size. */
  function FileSize(disk: map<File, nat>, f: File): nat {
    if f in disk then disk[f] else 0
  }

  ghost function SizeOf(disk: map<File, nat>, files: set<File>): nat {
    if files == {} then 0 else var f :| f in files; FileSize(disk, f) + SizeOf(disk, files - {f})
  }

  /** Whichever file is counted first. */
  lemma {:induction false} SizeSansOne(disk: map<File, nat>, files: set<File>, f: File)
    requires f in files
    ensures SizeOf(disk, files) == FileSize(disk, f) + SizeOf(disk, files - {f})
    decreases |files|
  {
    var g: File :| g in files && SizeOf(disk, files) == FileSize(disk, g) + SizeOf(disk, files - {g});
    if f != g {
      SizeSansOne(disk, files - {g}, f);
      SizeSansOne(disk, files - {f}, g);
      assert files - {g} - {f} == files - {f} - {g};
    }
  }

  lemma {:induction false} SizeOfBoth(disk: map<File, nat>, files: set<File>, more: set<File>)
    requires files !! more
    ensures SizeOf(disk, files + more) == SizeOf(disk, files) + SizeOf(disk, more)
    decreases |more|
  {
    if more == {} {
      assert files + more == files;
    } else {
      var f: File :| f in more;
      SizeSansOne(disk, more, f);
      SizeSansOne(disk, files + more, f);
      SizeOfBoth(disk, files, more - {f});
      assert files + more - {f} == files + (more - {f});
    }
  }

  /** Missing files don't count, and removing others changes no size. */
  lemma {:induction false} SizeInPart(disk: map<File, nat>, part: map<File, nat>, files: set<File>)
    requires forall f | f in files :: FileSize(disk, f) == FileSize(part, f)
    ensures SizeOf(disk, files) == SizeOf(part, files)
    decreases |files|
  {
    if files != {} {
      var f: File :| f in files;
      SizeSansOne(disk, files, f);
      SizeSansOne(part, files, f);
      SizeInPart(disk, part, files - {f});
    }
  }

  lemma {:induction false} SizeOfMissing(disk: map<File, nat>, files: set<File>)
    requires forall f | f in files :: f !in disk
    ensures SizeOf(disk, files) == 0
    decreases |files|
  {
    if files != {} {
      var f: File :| f in files;
      SizeSansOne(disk, files, f);
      SizeOfMissing(disk, files - {f});
    }
  }

  /** What unlinking files frees. */
  lemma {:induction false} SizeAfter(disk: map<File, nat>, files: set<File>)
    ensures SizeOf(disk - files, (disk - files).Keys) == SizeOf(disk, disk.Keys) - SizeOf(disk, files)
  {
    var there, gone := disk.Keys * files, files - disk.Keys;
    SizeOfBoth(disk, there, gone);
    SizeOfMissing(disk, gone);
    assert there + gone == files;
    SizeOfBoth(disk, disk.Keys - files, there);
    assert disk.Keys - files + there == disk.Keys;
    assert (disk - files).Keys == disk.Keys - files;
    SizeInPart(disk, disk - files, disk.Keys - files);
  }

  lemma {:induction false} FilesOfWithin(posts: Table, slides: Slides, ids: seq<string>, f: File)
    ensures f in FilesOf(posts, slides, ids) <==> exists id :: id in ids && f in PostFiles(posts, slides, id)
  {
    if ids != [] {
      FilesOfWithin(posts, slides, ids[..|ids| - 1], f);
      assert forall id :: id in ids <==> id in ids[..|ids| - 1] || id == ids[|ids| - 1];
    }
  }

  function WithoutSlides(slides: Slides, ids: seq<string>): Slides {
    slides - (set key | key in slides && key.0 in ids)
  }

  ghost predicate Referenced(posts: Table, slides: Slides, disk: map<File, nat>) {
    forall f | f in disk :: f in FeedWalk.Referenced(posts, slides)
  }

  /** Whether every post not removed still has each file it had on disk. */
  ghost predicate KeptHaveTheirFiles(posts: Table, slides: Slides, disk: map<File, nat>, removed: seq<string>) {
    forall id, f | id in posts && id !in removed && f in PostFiles(posts, slides, id) && f in disk ::
      f !in FilesOf(posts, slides, removed)
  }

  /** No file on disk belongs to two posts. */
  ghost predicate NoneShared(posts: Table, slides: Slides, disk: map<File, nat>) {
    forall a, b, f | a in posts && b in posts && a != b && f in disk ::
      !(f in PostFiles(posts, slides, a) && f in PostFiles(posts, slides, b))
  }

  /** Kept posts keep the rows of their files. */
  lemma {:induction false} KeptRowsStay(posts: Table, slides: Slides, removed: seq<string>, id: string)
    requires id !in removed
    ensures PostFiles(posts - (set other | other in removed), WithoutSlides(slides, removed), id)
            == PostFiles(posts, slides, id)
  {
    var kept := WithoutSlides(slides, removed);
    assert forall key: (string, nat) | key.0 == id :: key in slides <==> key in kept;
  }

  /** Files left over by a removal are still some post's. */
  lemma {:induction false} LeftIsReferenced(posts: Table, slides: Slides, disk: map<File, nat>, removed: seq<string>)
    requires Referenced(posts, slides, disk)
    ensures Referenced(posts - (set id | id in removed), WithoutSlides(slides, removed),
                       disk - FilesOf(posts, slides, removed))
  {
    var kept, left := posts - (set id | id in removed), WithoutSlides(slides, removed);
    forall f | f in disk - FilesOf(posts, slides, removed)
      ensures f in FeedWalk.Referenced(kept, left)
    {
      FilesOfWithin(posts, slides, removed, f);
      if f in slides.Values {
        var key :| key in slides && slides[key] == f;
        assert f in PostFiles(posts, slides, key.0);
        assert key in left && left[key] == f;
      } else {
        var id :| id in posts && posts[id].mediaFile == Some(f);
        assert f in PostFiles(posts, slides, id);
        assert id in kept && kept[id] == posts[id];
      }
    }
  }

  // ---------------------------------------------------------------------------------------------
  // Age

  /** COALESCE(posted_at, scraped_at). */
  function Since(r: Row): DateTime {
    if r.postedAt.Some? then r.postedAt.value else r.scrapedAt
  }

  /** Every row's id once, in the order of the rows' time text. */
  ghost predicate OldestFirst(posts: Table, ids: seq<string>)
    requires ValidTable(posts)
  {
    && (forall id :: id in ids <==> id in posts)
    && (forall i, j | 0 <= i < j < |ids| :: ids[i] != ids[j])
    && (forall i, j | 0 <= i < j < |ids| :: AtMost(Iso(Since(posts[ids[i]])), Iso(Since(posts[ids[j]]))))
  }

  /** No post of these is newer than any that is not one of them. */
  ghost predicate AreOldest(posts: Table, ids: seq<string>)
    requires ValidTable(posts)
  {
    forall id, other | id in ids && id in posts && other in posts && other !in ids ::
      Instant(Since(posts[id])) <= Instant(Since(posts[other]))
  }

  lemma {:induction false} FirstAreOldest(posts: Table, oldest: seq<string>, first: seq<string>)
    requires ValidTable(posts) && OldestFirst(posts, oldest) && first <= oldest
    ensures AreOldest(posts, first)
    ensures forall id, other | id in first && id in posts && other in posts && other !in first ::
              var gone, kept := posts[id], posts[other];
              && (gone.postedAt.Some? && kept.postedAt.Some? ==>
                    Instant(gone.postedAt.value) <= Instant(kept.postedAt.value))
              && (gone.postedAt.None? && kept.postedAt.None? ==> Instant(gone.scrapedAt) <= Instant(kept.scrapedAt))
  {
    forall id, other | id in first && id in posts && other in posts && other !in first
      ensures Instant(Since(posts[id])) <= Instant(Since(posts[other]))
    {
      var i :| 0 <= i < |first| && first[i] == id;
      var j :| 0 <= j < |oldest| && oldest[j] == other;
      assert i < j && oldest[i] == id;
      IsoOrder(Since(posts[id]), Since(posts[other]));
    }
  }

  // ---------------------------------------------------------------------------------------------
  // What kept posts lose

  lemma {:induction false} NothingSharedNothingLost(posts: Table, slides: Slides, disk: map<File, nat>,
                                                    removed: seq<string>)
    requires NoneShared(posts, slides, disk) && forall id | id in removed :: id in posts
    ensures KeptHaveTheirFiles(posts, slides, disk, removed)
  {
    forall id, f | id in posts && id !in removed && f in PostFiles(posts, slides, id) && f in disk
      ensures f !in FilesOf(posts, slides, removed)
    {
      FilesOfWithin(posts, slides, removed, f);
    }
  }

  /** The oldest posts can go, however many, without a kept post losing a file, if and only if no file is shared. */
  lemma {:induction false} KeptPostsKeepTheirFiles(posts: Table, slides: Slides, disk: map<File, nat>,
                                                   oldest: seq<string>)
    requires ValidTable(posts) && OldestFirst(posts, oldest)
    ensures (forall n | 0 <= n <= |oldest| :: KeptHaveTheirFiles(posts, slides, disk, oldest[..n])) <==>
            NoneShared(posts, slides, disk)
  {
    if NoneShared(posts, slides, disk) {
      forall n | 0 <= n <= |oldest|
        ensures KeptHaveTheirFiles(posts, slides, disk, oldest[..n])
      {
        NothingSharedNothingLost(posts, slides, disk, oldest[..n]);
      }
    } else {
      var f, i, j := SharedFile(posts, slides, disk, oldest);
      LostAfter(posts, slides, disk, oldest, f, i, j);
    }
  }

  /** A shared file, the first post in line that it belongs to, and another. */
  lemma {:induction false} SharedFile(posts: Table, slides: Slides, disk: map<File, nat>, oldest: seq<string>)
    returns (f: File, i: nat, j: nat)
    requires !NoneShared(posts, slides, disk) && forall id :: id in oldest <==> id in posts
    ensures f in disk && i < j < |oldest| && oldest[i] != oldest[j]
    ensures f in PostFiles(posts, slides, oldest[i]) && f in PostFiles(posts, slides, oldest[j])
    ensures forall k | 0 <= k < i :: f !in PostFiles(posts, slides, oldest[k])
  {
    var a, b, shared :| a in posts && b in posts && a != b && shared in disk
                        && shared in PostFiles(posts, slides, a) && shared in PostFiles(posts, slides, b);
    f, i := shared, 0;
    assert exists k :: 0 <= k < |oldest| && oldest[k] == a;
    while f !in PostFiles(posts, slides, oldest[i])
      invariant i < |oldest| && exists k :: i <= k < |oldest| && oldest[k] == a
      invariant forall k | 0 <= k < i :: f !in PostFiles(posts, slides, oldest[k])
      decreases |oldest| - i
    {
      i := i + 1;
    }
    var other := if oldest[i] == a then b else a;
    j :| 0 <= j < |oldest| && oldest[j] == other;
  }

  /** Removing just the posts up to the first takes the file from the other. */
  lemma {:induction false} LostAfter(posts: Table, slides: Slides, disk: map<File, nat>, oldest: seq<string>, f: File,
                                     i: nat, j: nat)
    requires ValidTable(posts) && OldestFirst(posts, oldest) && i < j < |oldest| && f in disk
    requires f in PostFiles(posts, slides, oldest[i]) && f in PostFiles(posts, slides, oldest[j])
    ensures !KeptHaveTheirFiles(posts, slides, disk, oldest[..i + 1])
  {
    var removed, id := oldest[..i + 1], oldest[j];
    assert removed[i] == oldest[i];
    FilesOfWithin(posts, slides, removed, f);
    assert id in posts && id !in removed;
  }

  /** What the footprint comes to with the first `n` posts gone. */
  ghost function Left(posts: Table, slides: Slides, disk: map<File, nat>, base: nat, oldest: seq<string>, n: nat): int
    requires n <= |oldest|
  {
    base + SizeOf(disk, disk.Keys) - SizeOf(disk, FilesOf(posts, slides, oldest[..n]))
  }

  /** With fewer than `n` posts gone too much is left. */
  ghost predicate TooFewBefore(posts: Table, slides: Slides, disk: map<File, nat>, base: nat, cap: nat,
                               oldest: seq<string>, n: nat) {
    n <= |oldest| && forall m: nat | m < n :: Left(posts, slides, disk, base, oldest, m) > cap
  }

  /** The fewest of the oldest posts whose going is enough, or all of them. */
  ghost predicate Fewest(posts: Table, slides: Slides, disk: map<File, nat>, base: nat, cap: nat, oldest: seq<string>,
                         n: nat) {
    && TooFewBefore(posts, slides, disk, base, cap, oldest, n)
    && (n == |oldest| || Left(posts, slides, disk, base, oldest, n) <= cap)
  }

  /** A cap makes the first `n` posts go, and no more; 0 is no cap. */
  ghost predicate StopsAt(posts: Table, slides: Slides, disk: map<File, nat>, base: nat, cap: nat, oldest: seq<string>,
                          n: nat) {
    if cap == 0 then n == 0 else Fewest(posts, slides, disk, base, cap, oldest, n)
  }

  /** One cap, one number. */
  lemma {:induction false} StopsOnce(posts: Table, slides: Slides, disk: map<File, nat>, base: nat, cap: nat,
                                     oldest: seq<string>, n: nat, m: nat)
    requires StopsAt(posts, slides, disk, base, cap, oldest, n) && StopsAt(posts, slides, disk, base, cap, oldest, m)
    ensures n == m
  {
    hide Left;
  }

  /** The files that take up room. */
  function Solid(disk: map<File, nat>): map<File, nat> {
    map f | f in disk && disk[f] > 0 :: disk[f]
  }

  /** A shared file that takes up room is lost by a post under some cap. */
  lemma {:induction false} SomeCapTakesIt(posts: Table, slides: Slides, disk: map<File, nat>, base: nat,
                                          oldest: seq<string>) returns (cap: nat, n: nat)
    requires ValidTable(posts) && OldestFirst(posts, oldest) && base > 0
    requires !NoneShared(posts, slides, Solid(disk))
    ensures cap > 0 && StopsAt(posts, slides, disk, base, cap, oldest, n)
    ensures n <= |oldest| && !KeptHaveTheirFiles(posts, slides, Solid(disk), oldest[..n])
  {
    hide *;
    AllListed(posts, oldest);
    var f, i, j := SharedFile(posts, slides, Solid(disk), oldest);
    LostAfter(posts, slides, Solid(disk), oldest, f, i, j);
    SolidHasSize(disk, f);
    n := i + 1;
    NeverBelowBase(posts, slides, disk, base, oldest, n);
    cap := Left(posts, slides, disk, base, oldest, n);
    forall m: nat | m < n
      ensures Left(posts, slides, disk, base, oldest, m) > cap
    {
      MoreIsLeft(posts, slides, disk, base, oldest, m, i, f);
    }
    StopsThere(posts, slides, disk, base, cap, oldest, n);
  }

  lemma {:induction false} AllListed(posts: Table, oldest: seq<string>)
    requires ValidTable(posts) && OldestFirst(posts, oldest)
    ensures forall id :: id in oldest <==> id in posts
  {
  }

  lemma {:induction false} SolidHasSize(disk: map<File, nat>, f: File)
    requires f in Solid(disk)
    ensures f in disk && disk[f] > 0
  {
  }

  lemma {:induction false} StopsThere(posts: Table, slides: Slides, disk: map<File, nat>, base: nat, cap: nat,
                                      oldest: seq<string>, n: nat)
    requires cap > 0 && n <= |oldest| && (n == |oldest| || Left(posts, slides, disk, base, oldest, n) <= cap)
    requires forall m: nat | m < n :: Left(posts, slides, disk, base, oldest, m) > cap
    ensures StopsAt(posts, slides, disk, base, cap, oldest, n)
  {
    hide Left;
  }

  lemma {:induction false} NeverBelowBase(posts: Table, slides: Slides, disk: map<File, nat>, base: nat,
                                          oldest: seq<string>, n: nat)
    requires n <= |oldest|
    ensures Left(posts, slides, disk, base, oldest, n) >= base
  {
    SizeAfter(disk, FilesOf(posts, slides, oldest[..n]));
  }

  lemma {:induction false} MoreIsLeft(posts: Table, slides: Slides, disk: map<File, nat>, base: nat,
                                      oldest: seq<string>, m: nat, i: nat, f: File)
    requires m <= i < |oldest| && f in disk && disk[f] > 0 && f in PostFiles(posts, slides, oldest[i])
    requires forall k | 0 <= k < i :: f !in PostFiles(posts, slides, oldest[k])
    ensures Left(posts, slides, disk, base, oldest, m) > Left(posts, slides, disk, base, oldest, i + 1)
  {
    var fewer, more := FilesOf(posts, slides, oldest[..m]), FilesOf(posts, slides, oldest[..i + 1]);
    FilesOfWithin(posts, slides, oldest[..m], f);
    FilesOfWithin(posts, slides, oldest[..i + 1], f);
    assert oldest[..i + 1][i] == oldest[i];
    forall g | g in fewer
      ensures g in more
    {
      FilesOfWithin(posts, slides, oldest[..m], g);
      FilesOfWithin(posts, slides, oldest[..i + 1], g);
      assert oldest[..m] <= oldest[..i + 1];
    }
    SizeOfBoth(disk, fewer, more - fewer);
    assert fewer + (more - fewer) == more;
    SizeSansOne(disk, more - fewer, f);
  }

  /** So no cap costs a kept post a file that takes up room if and only if no two posts share such a file. */
  lemma {:induction false} SafeUnderEveryCap(posts: Table, slides: Slides, disk: map<File, nat>, base: nat,
                                             oldest: seq<string>)
    requires ValidTable(posts) && OldestFirst(posts, oldest) && base > 0
    ensures (forall cap: nat, n: nat | n <= |oldest| && StopsAt(posts, slides, disk, base, cap, oldest, n) ::
               KeptHaveTheirFiles(posts, slides, Solid(disk), oldest[..n])) <==>
            NoneShared(posts, slides, Solid(disk))
  {
    hide *;
    KeptPostsKeepTheirFiles(posts, slides, Solid(disk), oldest);
    if !NoneShared(posts, slides, Solid(disk)) {
      var cap, n := SomeCapTakesIt(posts, slides, disk, base, oldest);
    }
  }

  /** A history of the table after which removing one post leaves another without its image. */
  lemma {:induction false} ARemovedPostTakesAnothersFile(at: DateTime, later: DateTime, size: nat)
    requires at.Valid() && later.Valid() && Instant(later) - Instant(at) > HOUR * SECOND
    ensures LookedUpAll(map[], TwiceNamed(at, later)) && AllowedAll(map[], TwiceNamed(at, later))
    ensures var posts, image := ApplyAll(map[], TwiceNamed(at, later)), Cover("h");
            && ValidTable(posts) && OldestFirst(posts, ["a", "h"]) && Referenced(posts, map[], map[image := size])
            && !NoneShared(posts, map[], map[image := size])
            && !KeptHaveTheirFiles(posts, map[], map[image := size], ["a"])
  {
    TwoRowsNameOneFile(at, later);
    hide TwiceNamed, AllowedAll, LookedUpAll, ApplyAll;
    LaterLosesImage(ApplyAll(map[], TwiceNamed(at, later)), at, later, size);
  }

  lemma {:induction false} LaterLosesImage(posts: Table, at: DateTime, later: DateTime, size: nat)
    requires at.Valid() && later.Valid() && Instant(later) > Instant(at)
    requires ValidTable(posts) && posts.Keys == {"a", "h"}
    requires posts["a"].mediaFile == posts["h"].mediaFile == Some(Cover("h"))
    requires posts["a"].postedAt == Some(at) && posts["h"].postedAt == Some(later)
    ensures OldestFirst(posts, ["a", "h"]) && Referenced(posts, map[], map[Cover("h") := size])
    ensures !NoneShared(posts, map[], map[Cover("h") := size])
    ensures !KeptHaveTheirFiles(posts, map[], map[Cover("h") := size], ["a"])
  {
    IsoOrder(at, later);
    hide Iso, AtMost, Instant;
    var oldest := ["a", "h"];
    assert OldestFirst(posts, oldest);
    assert oldest[..1] == ["a"];
    hide OldestFirst, ValidTable;
    LostAfter(posts, map[], map[Cover("h") := size], oldest, Cover("h"), 0, 1);
    assert "a" in posts && "h" in posts;
  }

  class Library {
    var posts: Table
    var slides: Slides
    var disk: map<File, nat>

    /** Live disk footprint, the posts' media with the rest. */
    ghost function Footprint(live: nat, others: nat): nat
      reads this`disk
    {
      live + others + SizeOf(disk, disk.Keys)
    }

    method SumSizes(files: set<File>) returns (sum: nat)
      ensures sum == SizeOf(disk, files)
    {
      sum := 0;
      var rest := files;
      while rest != {}
        invariant rest <= files && sum + SizeOf(disk, rest) == SizeOf(disk, files)
      {
        var f: File :| f in rest;
        SizeSansOne(disk, rest, f);
        sum, rest := sum + FileSize(disk, f), rest - {f};
      }
    }

    /** Counts the oldest posts off, each file once, until what is left fits. */
    method CountOff(cap: nat, live: nat, others: nat,
                    oldest: seq<string>) returns (removed: seq<string>, files: set<File>)
      ensures removed <= oldest && files == FilesOf(posts, slides, removed)
      ensures Fewest(posts, slides, disk, live + others, cap, oldest, |removed|)
    {
      hide *;
      ghost var base := live + others;
      removed, files := [], {};
      var media := SumSizes(disk.Keys);
      var size: int := live + others + media;
      NoneCounted(posts, slides, disk, base, cap, oldest);
      while size > cap && |removed| < |oldest|
        invariant |removed| <= |oldest| && removed == oldest[..|removed|] && files == FilesOf(posts, slides, removed)
        invariant size == Left(posts, slides, disk, base, oldest, |removed|)
        invariant TooFewBefore(posts, slides, disk, base, cap, oldest, |removed|)
        decreases |oldest| - |removed|
      {
        var id := oldest[|removed|];
        var postFiles := PostFiles(posts, slides, id) - files;
        var freed := SumSizes(postFiles);
        OneMoreCounted(posts, slides, disk, base, cap, oldest, |removed|);
        size, removed, files := size - freed, removed + [id], files + postFiles;
      }
      EnoughCounted(posts, slides, disk, base, cap, oldest, |removed|);
    }

    /** The shortest run of the oldest posts whose files, each counted once, bring the footprint under the cap goes;
        all of them when none does. */
    method EnforceSizeCap(cap: nat, live: nat, others: nat, oldest: seq<string>) returns (removed: seq<string>)
      requires ValidTable(posts) && OldestFirst(posts, oldest)
      modifies this
      ensures removed <= oldest && AreOldest(old(posts), removed)
      ensures posts == old(posts) - (set id | id in removed) && slides == WithoutSlides(old(slides), removed)
      ensures disk == old(disk) - FilesOf(old(posts), old(slides), removed)
      ensures StopsAt(old(posts), old(slides), old(disk), live + others, cap, oldest, |removed|)
      ensures old(Footprint(live, others)) <= cap ==> removed == []
      ensures cap > 0 ==> Footprint(live, others) <= cap || posts == map[]
      ensures NoneShared(old(posts), old(slides), old(disk)) ==>
                NothingLost(old(posts), old(slides), old(disk), removed)
    {
      hide ValidTable, OldestFirst, AreOldest, Fewest, NoneShared, NothingLost, FilesOf, WithoutSlides, SizeOf;
      removed := [];
      var files: set<File> := {};
      NoneCounted(posts, slides, disk, live + others, cap, oldest);
      if cap > 0 {
        removed, files := CountOff(cap, live, others, oldest);
      }
      Outcome(posts, slides, disk, live + others, cap, oldest, removed);
      posts := posts - (set id | id in removed);
      slides := WithoutSlides(slides, removed);
      disk := disk - files;
    }
  }

  lemma {:induction false} NoneCounted(posts: Table, slides: Slides, disk: map<File, nat>, base: nat, cap: nat,
                                       oldest: seq<string>)
    ensures [] == oldest[..0] && FilesOf(posts, slides, []) == {}
    ensures Left(posts, slides, disk, base, oldest, 0) == base + SizeOf(disk, disk.Keys)
    ensures TooFewBefore(posts, slides, disk, base, cap, oldest, 0)
  {
    assert SizeOf(disk, {}) == 0;
  }

  lemma {:induction false} OneMoreCounted(posts: Table, slides: Slides, disk: map<File, nat>, base: nat, cap: nat,
                                          oldest: seq<string>, n: nat)
    requires n < |oldest| && TooFewBefore(posts, slides, disk, base, cap, oldest, n)
    requires Left(posts, slides, disk, base, oldest, n) > cap
    ensures oldest[..n] + [oldest[n]] == oldest[..n + 1]
    ensures TooFewBefore(posts, slides, disk, base, cap, oldest, n + 1)
    ensures var files := FilesOf(posts, slides, oldest[..n]); var more := PostFiles(posts, slides, oldest[n]) - files;
            && FilesOf(posts, slides, oldest[..n + 1]) == files + more
            && Left(posts, slides, disk, base, oldest, n + 1)
               == Left(posts, slides, disk, base, oldest, n) - SizeOf(disk, more)
  {
    var files := FilesOf(posts, slides, oldest[..n]);
    var more := PostFiles(posts, slides, oldest[n]) - files;
    SizeOfBoth(disk, files, more);
    assert oldest[..n + 1][..n] == oldest[..n];
    hide PostFiles, SizeOf;
  }

  lemma {:induction false} EnoughCounted(posts: Table, slides: Slides, disk: map<File, nat>, base: nat, cap: nat,
                                         oldest: seq<string>, n: nat)
    requires n <= |oldest| && (n == |oldest| || Left(posts, slides, disk, base, oldest, n) <= cap)
    requires TooFewBefore(posts, slides, disk, base, cap, oldest, n)
    ensures Fewest(posts, slides, disk, base, cap, oldest, n)
  {
  }

  /** What a removal comes to. */
  lemma {:induction false} Outcome(posts: Table, slides: Slides, disk: map<File, nat>, base: nat, cap: nat,
                                   oldest: seq<string>, removed: seq<string>)
    requires ValidTable(posts) && OldestFirst(posts, oldest) && removed <= oldest
    requires StopsAt(posts, slides, disk, base, cap, oldest, |removed|)
    ensures AreOldest(posts, removed)
    ensures var files := FilesOf(posts, slides, removed);
            && (base + SizeOf(disk, disk.Keys) <= cap ==> removed == [])
            && (cap > 0 ==>
                  base + SizeOf(disk - files, (disk - files).Keys) <= cap || posts - (set id | id in removed) == map[])
            && (NoneShared(posts, slides, disk) ==> NothingLost(posts, slides, disk, removed))
  {
    NoneCounted(posts, slides, disk, base, cap, oldest);
    FirstAreOldest(posts, oldest, removed);
    SizeAfter(disk, FilesOf(posts, slides, removed));
    assert removed == oldest[..|removed|];
    if removed == oldest {
      EveryPost(posts, oldest);
    }
    if NoneShared(posts, slides, disk) {
      NothingSharedNothingLost(posts, slides, disk, removed);
      KeptAreThere(posts, slides, disk, removed);
    }
    hide AreOldest, OldestFirst, ValidTable, FilesOf, WithoutSlides, SizeOf, NoneShared, NothingLost;
  }

  /** Every file left to a post by its rows is on disk if it was before. */
  ghost predicate NothingLost(posts: Table, slides: Slides, disk: map<File, nat>, removed: seq<string>) {
    var kept, left := posts - (set id | id in removed), WithoutSlides(slides, removed);
    forall id, f | id in kept && f in PostFiles(kept, left, id) && f in disk ::
      f in disk - FilesOf(posts, slides, removed)
  }

  lemma {:induction false} KeptAreThere(posts: Table, slides: Slides, disk: map<File, nat>, removed: seq<string>)
    requires KeptHaveTheirFiles(posts, slides, disk, removed)
    ensures NothingLost(posts, slides, disk, removed)
  {
    var kept, left := posts - (set id | id in removed), WithoutSlides(slides, removed);
    forall id, f | id in kept && f in PostFiles(kept, left, id) && f in disk
      ensures f in disk - FilesOf(posts, slides, removed)
    {
      KeptRowsStay(posts, slides, removed, id);
    }
  }

  lemma {:induction false} EveryPost(posts: Table, oldest: seq<string>)
    requires ValidTable(posts) && OldestFirst(posts, oldest)
    ensures posts - (set id | id in oldest) == map[]
  {
    hide Iso, AtMost;
  }
}
