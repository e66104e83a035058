/**
 Full-text search over captions: two tables that only triggers write, and what keeps them true to `posts`.

 `posts` has no integer key of its own, so its rows are told apart by SQLite's rowid, which no index may
 rely on; `posts_fts_ids` maps an integer key of the index to a post's id, and `posts_fts` holds the caption
 under that key.
 */
module SearchIndex {
  import opened Text

  /** The columns the triggers look at. A NULL id is possible: the column is a text key with no NOT NULL. */
  datatype Post = Post(id: Option<string>, caption: Option<string>)

  /** Whether some post has this id, with this caption. */
  ghost predicate Posted(posts: map<nat, Post>, id: string, caption: Option<string>) {
    exists r: nat :: r in posts && posts[r] == Post(Some(id), caption)
  }

  ghost predicate HasId(posts: map<nat, Post>, id: string) {
    exists r: nat :: r in posts && posts[r].id == Some(id)
  }

  ghost predicate Indexed(ids: map<nat, string>, id: string) {
    exists k: nat :: k in ids && ids[k] == id
  }

  /** Keys unique, NULLs apart, as both tables declare them. */
  ghost predicate KeyUnique(posts: map<nat, Post>) {
    forall a: nat, b: nat | a in posts && b in posts && a != b && posts[a].id.Some? :: posts[a].id != posts[b].id
  }

  ghost predicate IdsUnique(ids: map<nat, string>) {
    forall a: nat, b: nat | a in ids && b in ids && a != b :: ids[a] != ids[b]
  }

  /**
   The index agrees with the posts, but for the ids in `open`, which have no entry: one entry for every other
   post that has an id, each holding that post's current caption, and none besides.
   */
  ghost predicate AgreesBut(posts: map<nat, Post>, ids: map<nat, string>, fts: map<nat, Option<string>>,
                            open: set<string>) {
    && KeyUnique(posts) && IdsUnique(ids) && fts.Keys == ids.Keys
    && (forall k: nat | k in ids :: ids[k] !in open && Posted(posts, ids[k], fts[k]))
    && (forall id | HasId(posts, id) && id !in open :: Indexed(ids, id))
  }

  /** The posts of every id but these are the same. */
  ghost predicate SameBut(before: map<nat, Post>, after: map<nat, Post>, open: set<string>) {
    forall id, caption | id !in open :: Posted(before, id, caption) <==> Posted(after, id, caption)
  }

  lemma {:induction false} HasIdIsPosted(posts: map<nat, Post>, id: string)
    ensures HasId(posts, id) <==> exists c :: Posted(posts, id, c)
  {
    if HasId(posts, id) {
      var r: nat :| r in posts && posts[r].id == Some(id);
      assert Posted(posts, id, posts[r].caption);
    }
  }

  /** An index that agrees is the posts: what it holds under some key, and no other key, is what the table holds. */
  lemma {:induction false} IndexIsThePosts(posts: map<nat, Post>, ids: map<nat, string>,
                                           fts: map<nat, Option<string>>, id: string, caption: Option<string>)
    requires AgreesBut(posts, ids, fts, {})
    ensures Posted(posts, id, caption) <==> exists k: nat :: k in ids && ids[k] == id && fts[k] == caption
    ensures forall k: nat, l: nat | k in ids && l in ids && ids[k] == ids[l] :: k == l
  {
    if Posted(posts, id, caption) {
      HasIdIsPosted(posts, id);
      var k: nat :| k in ids && ids[k] == id;
      assert Posted(posts, id, fts[k]);
    }
  }

  /** Dropping the one entry that no longer agrees leaves the rest agreeing. */
  lemma {:induction false} Dropped(before: map<nat, Post>, after: map<nat, Post>, ids: map<nat, string>,
                                   fts: map<nat, Option<string>>, id: Option<string>, open: set<string>)
    requires AgreesBut(before, ids, fts, {}) && KeyUnique(after) && SameBut(before, after, open)
    requires forall j | j in open :: id == Some(j) || !HasId(before, j)
    requires id.Some? ==> id.value in open
    ensures AgreesBut(after, WithoutId(ids, id), fts - EntriesOf(ids, id), open)
  {
    hide Posted, HasId, Indexed, SameBut;
    var ids', fts' := WithoutId(ids, id), fts - EntriesOf(ids, id);
    forall k: nat | k in ids'
      ensures ids'[k] !in open && Posted(after, ids'[k], fts'[k])
    {
      assert Posted(before, ids[k], fts[k]);
      HasIdIsPosted(before, ids[k]);
      Kept(before, after, open, ids[k], fts[k]);
    }
    forall j | HasId(after, j) && j !in open
      ensures Indexed(ids', j)
    {
      KeptId(before, after, open, j);
      assert Indexed(ids, j);
      StillIndexed(ids, id, j);
    }
  }

  lemma {:induction false} Kept(before: map<nat, Post>, after: map<nat, Post>, open: set<string>, id: string,
                                caption: Option<string>)
    requires SameBut(before, after, open) && id !in open
    ensures Posted(before, id, caption) <==> Posted(after, id, caption)
  {
  }

  lemma {:induction false} KeptId(before: map<nat, Post>, after: map<nat, Post>, open: set<string>, id: string)
    requires SameBut(before, after, open) && id !in open && HasId(after, id)
    ensures HasId(before, id)
  {
    HasIdIsPosted(before, id);
    HasIdIsPosted(after, id);
  }

  lemma {:induction false} StillIndexed(ids: map<nat, string>, dropped: Option<string>, id: string)
    requires Indexed(ids, id) && dropped != Some(id)
    ensures Indexed(WithoutId(ids, dropped), id)
  {
    var k: nat :| k in ids && ids[k] == id;
    assert k in WithoutId(ids, dropped);
  }

  function EntriesOf(ids: map<nat, string>, id: Option<string>): set<nat> {
    set k | k in ids && id == Some(ids[k])
  }

  function WithoutId(ids: map<nat, string>, id: Option<string>): map<nat, string> {
    ids - EntriesOf(ids, id)
  }

  /** The key SQLite hands out next: one past the largest there is, so one that was freed can come back. */
  function NextKey(ids: map<nat, string>): (key: nat)
    ensures forall k | k in ids :: k < key
    ensures ids == map[] ==> key == 1
    ensures ids != map[] ==> key > 0 && key - 1 in ids
  {
    if ids == map[] then 1
    else
      LargestKey(ids.Keys);
      var last: nat :| last in ids && forall k | k in ids :: k <= last;
      last + 1
  }

  lemma {:induction false} LargestKey(keys: set<nat>)
    requires keys != {}
    ensures exists last :: last in keys && forall k | k in keys :: k <= last
    decreases |keys|
  {
    var k: nat :| k in keys;
    var rest := keys - {k};
    if rest == {} {
      assert keys == {k};
    } else {
      LargestKey(rest);
      var last: nat :| last in rest && forall l | l in rest :: l <= last;
      assert forall l | l in keys :: l == k || l in rest;
      assert (if k < last then last else k) in keys;
    }
  }

  /** Indexing a post again gives its key back exactly if that was the largest, and the one before it is in use or
      it was 1. */
  lemma {:induction false} KeyComesBack(ids: map<nat, string>, k: nat)
    requires k in ids && IdsUnique(ids)
    ensures NextKey(WithoutId(ids, Some(ids[k]))) == k <==>
            k + 1 == NextKey(ids) && (k == 1 || (k > 0 && k - 1 in ids))
  {
    var left := WithoutId(ids, Some(ids[k]));
    assert forall l: nat :: l in left <==> l in ids && l != k;
  }

  /** A new entry, under a key past every other, closes what was open. */
  lemma {:induction false} Added(posts: map<nat, Post>, ids: map<nat, string>, fts: map<nat, Option<string>>,
                                 open: set<string>, id: string, caption: Option<string>, key: nat)
    requires AgreesBut(posts, ids, fts, open) && id in open && Posted(posts, id, caption)
    requires forall k | k in ids :: k < key
    ensures key !in ids && key !in fts && !Indexed(ids, id)
    ensures AgreesBut(posts, ids[key := id], fts[key := caption], open - {id})
  {
    var ids' := ids[key := id];
    forall j | HasId(posts, j) && j !in open - {id}
      ensures Indexed(ids', j)
    {
      if j == id {
        assert ids'[key] == id;
      } else {
        var k: nat :| k in ids && ids[k] == j;
        assert ids'[k] == j;
      }
    }
  }

  /** What no post has needs no entry. */
  lemma {:induction false} Closed(posts: map<nat, Post>, ids: map<nat, string>, fts: map<nat, Option<string>>,
                                  open: set<string>)
    requires AgreesBut(posts, ids, fts, open) && forall id | id in open :: !HasId(posts, id)
    ensures AgreesBut(posts, ids, fts, {})
  {
  }

  ghost predicate Scanned(posts: map<nat, Post>, scanned: seq<nat>, id: string) {
    exists r: nat :: r in scanned && r in posts && posts[r].id == Some(id)
  }

  /** One key for each id among the rows scanned so far. */
  ghost predicate Filled(posts: map<nat, Post>, ids: map<nat, string>, scanned: seq<nat>) {
    IdsUnique(ids) && forall id :: Indexed(ids, id) <==> Scanned(posts, scanned, id)
  }

  lemma {:induction false} FilledOneMore(posts: map<nat, Post>, ids: map<nat, string>, scanned: seq<nat>, r: nat,
                                         next: nat)
    requires KeyUnique(posts) && Filled(posts, ids, scanned) && r in posts && r !in scanned
    requires forall k | k in ids :: k < next
    ensures Filled(posts, if posts[r].id.Some? then ids[next := posts[r].id.value] else ids, scanned + [r])
  {
    var ids' := if posts[r].id.Some? then ids[next := posts[r].id.value] else ids;
    if posts[r].id.Some? {
      assert !Scanned(posts, scanned, posts[r].id.value);
      assert forall k: nat | k in ids :: Indexed(ids, ids[k]);
    }
    forall id
      ensures Indexed(ids', id) <==> Scanned(posts, scanned + [r], id)
    {
      IndexedOneMore(posts, ids, scanned, r, next, id);
    }
  }

  lemma {:induction false} IndexedOneMore(posts: map<nat, Post>, ids: map<nat, string>, scanned: seq<nat>, r: nat,
                                          next: nat, id: string)
    requires r in posts && (Indexed(ids, id) <==> Scanned(posts, scanned, id)) && next !in ids
    ensures Indexed(if posts[r].id.Some? then ids[next := posts[r].id.value] else ids, id) <==>
            Scanned(posts, scanned + [r], id)
  {
    var ids' := if posts[r].id.Some? then ids[next := posts[r].id.value] else ids;
    assert forall q :: q in scanned + [r] <==> q in scanned || q == r;
    if Indexed(ids, id) {
      var k: nat :| k in ids && ids[k] == id;
      assert ids'[k] == id;
    }
    if posts[r].id == Some(id) {
      assert ids'[next] == id;
    }
  }

  lemma {:induction false} EveryRowFilled(posts: map<nat, Post>, ids: map<nat, string>, scan: seq<nat>)
    requires Filled(posts, ids, scan) && forall r: nat :: r in posts <==> r in scan
    ensures forall id :: Indexed(ids, id) <==> HasId(posts, id)
    ensures forall k: nat | k in ids :: HasId(posts, ids[k])
  {
    forall id
      ensures Indexed(ids, id) <==> HasId(posts, id)
    {
      assert Scanned(posts, scan, id) <==> HasId(posts, id);
    }
    assert forall k: nat | k in ids :: Indexed(ids, ids[k]);
  }

  /** The caption of the one post with this id. */
  function CaptionOf(posts: map<nat, Post>, id: string): (caption: Option<string>)
    requires KeyUnique(posts) && HasId(posts, id)
    ensures Posted(posts, id, caption)
  {
    var r: nat :| r in posts && posts[r].id == Some(id);
    posts[r].caption
  }

  class Database {
    var posts: map<nat, Post>               // by rowid
    var ids: map<nat, string>               // posts_fts_ids: the index's key to the post's id
    var fts: map<nat, Option<string>>       // posts_fts: the caption under that key

    ghost predicate Agrees()
      reads this
    {
      AgreesBut(posts, ids, fts, {})
    }

    /** The migration: whatever the index held, it is emptied and filled from the posts, scanned in any order. */
    method Migrate(scan: seq<nat>)
      requires KeyUnique(posts) && forall r: nat :: r in posts <==> r in scan
      requires forall a, b | 0 <= a < b < |scan| :: scan[a] != scan[b]
      modifies this`ids, this`fts
      ensures Agrees()
    {
      ids := map[];
      for i := 0 to |scan|
        invariant posts == old(posts) && Filled(posts, ids, scan[..i])
      {
        var row := posts[scan[i]];
        assert scan[..i + 1] == scan[..i] + [scan[i]];
        FilledOneMore(posts, ids, scan[..i], scan[i], NextKey(ids));
        if row.id.Some? {
          ids := ids[NextKey(ids) := row.id.value];
        }
      }
      assert scan[..|scan|] == scan;
      EveryRowFilled(posts, ids, scan);
      fts := map k: nat | k in ids :: CaptionOf(posts, ids[k]);
    }

    /** The trigger statements that remove a row's entry. A NULL id matches nothing. */
    method DropEntry(id: Option<string>)
      modifies this`ids, this`fts
      ensures ids == WithoutId(old(ids), id) && fts == old(fts) - EntriesOf(old(ids), id)
    {
      var entries := EntriesOf(ids, id);
      fts := fts - entries;
      ids := WithoutId(ids, id);
    }

    /** The trigger statements that add a row's entry, under the key SQLite allocates. Neither insert can fail. */
    method AddEntry(row: Post, ghost open: set<string>)
      requires AgreesBut(posts, ids, fts, open)
      requires row.id.Some? ==> row.id.value in open && Posted(posts, row.id.value, row.caption)
      modifies this`ids, this`fts
      ensures row.id.Some? ==>
                var key := NextKey(old(ids));
                && key !in old(ids) && key !in old(fts) && !Indexed(old(ids), row.id.value)
                && ids == old(ids)[key := row.id.value] && fts == old(fts)[key := row.caption]
      ensures row.id.None? ==> ids == old(ids) && fts == old(fts)
      ensures AgreesBut(posts, ids, fts, if row.id.Some? then open - {row.id.value} else open)
    {
      if row.id.Some? {
        var key := NextKey(ids);
        Added(posts, ids, fts, open, row.id.value, row.caption, key);
        ids := ids[key := row.id.value];
        fts := fts[key := row.caption];
      }
    }

    /** INSERT: refused when the id is taken. */
    method Insert(rowid: nat, row: Post) returns (ok: bool)
      requires Agrees() && rowid !in posts
      modifies this
      ensures Agrees()
      ensures ok <==> row.id.None? || !HasId(old(posts), row.id.value)
      ensures posts == if ok then old(posts)[rowid := row] else old(posts)
      ensures ids == if ok then Reindexed(old(ids), row.id, row.id) else old(ids)
      ensures !ok ==> fts == old(fts)
    {
      if row.id.Some? && exists r | r in posts :: posts[r].id == row.id {
        return false;
      }
      ghost var before := posts;
      InsertedRow(before, rowid, row);
      assert before - RowsOf(before, row.id) == before;
      posts := posts[rowid := row];
      ok := true;
      AfterInsert(row, before);
    }

    /** INSERT OR REPLACE: the row holding the id goes first, and fires no delete trigger. */
    method Replace(rowid: nat, row: Post)
      requires Agrees() && rowid !in posts
      modifies this
      ensures Agrees() && ids == Reindexed(old(ids), row.id, row.id)
      ensures posts == (old(posts) - RowsOf(old(posts), row.id))[rowid := row]
    {
      ghost var before := posts;
      InsertedRow(before, rowid, row);
      posts := (posts - RowsOf(posts, row.id))[rowid := row];
      AfterInsert(row, before);
    }

    /** The insert trigger: drop any entry of the new row's id, then add its own. */
    method AfterInsert(row: Post, ghost before: map<nat, Post>)
      requires AgreesBut(before, ids, fts, {}) && KeyUnique(posts)
      requires row.id.Some? ==> Posted(posts, row.id.value, row.caption)
      requires SameBut(before, posts, IdSet(row))
      modifies this`ids, this`fts
      ensures Agrees() && ids == Reindexed(old(ids), row.id, row.id)
    {
      ghost var open := IdSet(row);
      Dropped(before, posts, ids, fts, row.id, open);
      DropEntry(row.id);
      AddEntry(row, open);
      assert row.id.Some? ==> open - {row.id.value} == {};
    }

    /** UPDATE of the id or the caption: refused when the new id is another row's. */
    method Update(rowid: nat, row: Post) returns (ok: bool)
      requires Agrees() && rowid in posts
      modifies this
      ensures Agrees()
      ensures ok <==> row.id.None? || row.id == old(posts)[rowid].id || !HasId(old(posts), row.id.value)
      ensures posts == if ok then old(posts)[rowid := row] else old(posts)
      ensures ids == if ok then Reindexed(old(ids), old(posts)[rowid].id, row.id) else old(ids)
      ensures !ok ==> fts == old(fts)
    {
      if row.id.Some? && exists r | r in posts :: r != rowid && posts[r].id == row.id {
        return false;
      }
      ghost var before := posts;
      var was := posts[rowid];
      posts := posts[rowid := row];
      ok := true;
      ghost var open := IdSet(was) + IdSet(row);
      UpdatedRow(before, rowid, row);
      Dropped(before, posts, ids, fts, was.id, open);
      DropEntry(was.id);
      AddEntry(row, open);
      Closed(posts, ids, fts, if row.id.Some? then open - {row.id.value} else open);
    }

    /** DELETE of a row. */
    method Delete(rowid: nat)
      requires Agrees() && rowid in posts
      modifies this
      ensures Agrees() && posts == old(posts) - {rowid} && ids == WithoutId(old(ids), old(posts)[rowid].id)
    {
      ghost var before := posts;
      var was := posts[rowid];
      posts := posts - {rowid};
      DeletedRow(before, rowid);
      Dropped(before, posts, ids, fts, was.id, IdSet(was));
      DropEntry(was.id);
      Closed(posts, ids, fts, IdSet(was));
    }
  }

  /** The keys once a row's entry under its old id has gone and one under its new id been added. */
  function Reindexed(ids: map<nat, string>, was: Option<string>, id: Option<string>): map<nat, string> {
    var left := WithoutId(ids, was);
    if id.Some? then left[NextKey(left) := id.value] else left
  }

  function IdSet(p: Post): set<string> {
    if p.id.Some? then {p.id.value} else {}
  }

  function RowsOf(posts: map<nat, Post>, id: Option<string>): set<nat> {
    set r | r in posts && id.Some? && posts[r].id == id
  }

  lemma {:induction false} PostedIn(before: map<nat, Post>, after: map<nat, Post>, id: string, caption: Option<string>)
    requires forall r: nat | r in before && before[r].id == Some(id) :: r in after && after[r] == before[r]
    ensures Posted(before, id, caption) ==> Posted(after, id, caption)
  {
  }

  lemma {:induction false} InsertedRow(before: map<nat, Post>, rowid: nat, row: Post)
    requires KeyUnique(before) && rowid !in before
    ensures var after := (before - RowsOf(before, row.id))[rowid := row];
            && KeyUnique(after) && SameBut(before, after, IdSet(row))
            && (row.id.Some? ==> Posted(after, row.id.value, row.caption))
  {
    var after := (before - RowsOf(before, row.id))[rowid := row];
    forall id, caption | id !in IdSet(row)
      ensures Posted(before, id, caption) <==> Posted(after, id, caption)
    {
      if Posted(before, id, caption) {
        var r: nat :| r in before && before[r] == Post(Some(id), caption);
        assert after[r] == before[r];
      }
      if Posted(after, id, caption) {
        var r: nat :| r in after && after[r] == Post(Some(id), caption);
        assert before[r] == after[r];
      }
    }
    assert after[rowid] == row;
  }

  lemma {:induction false} UpdatedRow(before: map<nat, Post>, rowid: nat, row: Post)
    requires KeyUnique(before) && rowid in before
    requires row.id.Some? ==> forall r: nat | r in before && r != rowid :: before[r].id != row.id
    ensures var after := before[rowid := row];
            && KeyUnique(after) && SameBut(before, after, IdSet(before[rowid]) + IdSet(row))
            && (forall j | j in IdSet(row) && before[rowid].id != Some(j) :: !HasId(before, j))
            && (forall j | j in IdSet(before[rowid]) && row.id != Some(j) :: !HasId(after, j))
            && (row.id.Some? ==> Posted(after, row.id.value, row.caption))
  {
    var after := before[rowid := row];
    forall id, caption | id !in IdSet(before[rowid]) + IdSet(row)
      ensures Posted(before, id, caption) <==> Posted(after, id, caption)
    {
      PostedIn(before, after, id, caption);
      PostedIn(after, before, id, caption);
    }
    assert after[rowid] == row;
  }

  lemma {:induction false} DeletedRow(before: map<nat, Post>, rowid: nat)
    requires KeyUnique(before) && rowid in before
    ensures var after := before - {rowid};
            && KeyUnique(after) && SameBut(before, after, IdSet(before[rowid]))
            && (forall j | j in IdSet(before[rowid]) :: !HasId(after, j))
  {
    var after := before - {rowid};
    forall id, caption | id !in IdSet(before[rowid])
      ensures Posted(before, id, caption) <==> Posted(after, id, caption)
    {
      PostedIn(before, after, id, caption);
      PostedIn(after, before, id, caption);
    }
  }
}
