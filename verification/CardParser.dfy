/**
 The feed-card parser: one pass over a dump's nodes in document order, building the cards in place.

 A node's resource-id comparisons and regex matches are taken as already made (the fields of `Node`); what
 the parser does with them is modelled branch by branch.
 */
module CardParser {
  import opened Text

  /** The groups of a header description that matched; `place` is "" when the group took no part. */
  datatype Header = Header(user: string, kind: string, date: string, place: string)

  datatype Node = Node(
    listId: bool,            // is the feed RecyclerView
    headerId: bool,          // is a card header
    header: Option<Header>,  // its description read as a header
    actionBar: bool,         // is the floating action bar
    bottom: Option<int>,     // the bottom edge of its bounds, when they parse
    mediaId: bool,           // is a card's media area
    shareId: bool,           // is the share button
    muteToggle: bool,        // its description starts as the mute toggle's does
    mediaAlt: bool,          // its description reads as a media description
    captionClass: bool,      // is of the caption widget's class
    truncated: bool,         // its text ends in the "... more" link
    timestamp: bool,         // its text reads as a posting time
    bounds: Option<string>,
    desc: string,
    text: string)
  {
    /** A node at which the card being built is left: the list itself, or any header. */
    predicate Boundary() {
      listId || headerId
    }
  }

  datatype Post = Post(
    kind: string, username: string, postedDate: string, place: string,
    caption: string, captionBounds: Option<string>, captionTruncated: bool,
    bounds: Option<string>, shareBounds: Option<string>, headerBounds: Option<string>,
    clipTop: int, alt: string, headless: bool, complete: bool, mergedReel: bool)

  /** Python's truth of an optional string. */
  predicate Truthy(s: Option<string>) {
    s.Some? && s.value != ""
  }

  function NewPost(user: string, kind: string, date: string, place: string, clipTop: int): Post {
    Post(kind, user, date, place, "", None, false, None, None, None, clipTop, "", false, false, false)
  }

  /** The first word of a media description, in lower case. */
  function Lead(alt: string): string {
    var ws := Words(alt);
    if ws == [] then "" else Lower(ws[0])
  }

  /** The header vocabulary's word for a media description, "" when it has none. */
  function AltKind(alt: string): string {
    match Lead(alt)
    case "reel" => "video"
    case "video" => "video"
    case "photo" => "photo"
    case "image" => "photo"
    case "carousel" => "carousel"
    case _ => ""
  }

  /** Replaces a trailing "more" link, with the ellipsis and the whitespace before it, by one ellipsis. */
  function DropMoreLink(s: string): string {
    if !EndsWith(s, "more") then s
    else
      var before := RStrip(s[..|s| - 4]);
      if EndsWith(before, "…") then RStrip(before[..|before| - 1]) + "…"
      else if EndsWith(before, "...") then RStrip(before[..|before| - 3]) + "…"
      else before + "…"
  }

  function SpaceForNbsp(s: string): string {
    seq(|s|, i requires 0 <= i < |s| => if s[i] == '\U{a0}' then ' ' else s[i])
  }

  function CleanCaption(text: string, user: string): string {
    var t := Strip(SpaceForNbsp(text));
    var rest := if user + " " <= t then t[|user| + 1..] else t;
    Strip(DropMoreLink(rest))
  }

  /** What a description's first word, in any case, says of its card's kind. */
  lemma {:induction false} KindByFirstWord(alt: string)
    ensures Words(alt) == [] ==> AltKind(alt) == ""
    ensures Words(alt) != [] ==>
              var first := Lower(Words(alt)[0]);
              && (first in ["reel", "video"] ==> AltKind(alt) == "video")
              && (first in ["photo", "image"] ==> AltKind(alt) == "photo")
              && (first == "carousel" ==> AltKind(alt) == "carousel")
              && (first !in ["reel", "video", "photo", "image", "carousel"] ==> AltKind(alt) == "")
  {
  }

  predicate AllSpace(s: string) {
    forall i | 0 <= i < |s| :: IsSpace(s[i])
  }

  /** Nothing to strip at either end, and no space but plain ones. */
  predicate IsBare(s: string) {
    s != "" && !IsSpace(s[0]) && !IsSpace(s[|s| - 1]) && '\U{a0}' !in s
  }

  lemma {:induction false} RStripped(b: string, g: string)
    requires AllSpace(g) && (b == "" || !IsSpace(b[|b| - 1]))
    ensures RStrip(b + g) == b
    decreases |g|
  {
    if g == "" {
      assert b + g == b;
    } else {
      assert (b + g)[..|b + g| - 1] == b + g[..|g| - 1];
      RStripped(b, g[..|g| - 1]);
    }
  }

  lemma {:induction false} LStripped(g: string, b: string)
    requires AllSpace(g) && (b == "" || !IsSpace(b[0]))
    ensures LStrip(g + b) == b
    decreases |g|
  {
    if g == "" {
      assert g + b == b;
    } else {
      assert (g + b)[1..] == g[1..] + b;
      LStripped(g[1..], b);
    }
  }

  /** A text that does not end in "more" has no link to drop; one that does loses it, with the space before it, one
      ellipsis of either kind, and the space before that, for an ellipsis. */
  lemma {:induction false} MoreLinkGoes(s: string, b: string, gap: string, dots: string, gap2: string)
    ensures !EndsWith(s, "more") ==> DropMoreLink(s) == s
    ensures AllSpace(gap) && AllSpace(gap2) && dots in ["…", "..."] && (b == "" || !IsSpace(b[|b| - 1])) ==>
              DropMoreLink(b + gap + dots + gap2 + "more") == b + "…"
    ensures AllSpace(gap) && IsBare(b) && !EndsWith(b, "…") && !EndsWith(b, "...") ==>
              DropMoreLink(b + gap + "more") == b + "…"
  {
    if AllSpace(gap) && AllSpace(gap2) && dots in ["…", "..."] && (b == "" || !IsSpace(b[|b| - 1])) {
      var all := b + gap + dots + gap2 + "more";
      assert EndsWith(all, "more") && all[..|all| - 4] == b + gap + dots + gap2;
      RStripped(b + gap + dots, gap2);
      RStripped(b, gap);
      DotsEnd(b + gap, dots);
    }
    if AllSpace(gap) && IsBare(b) && !EndsWith(b, "…") && !EndsWith(b, "...") {
      var all := b + gap + "more";
      assert EndsWith(all, "more") && all[..|all| - 4] == b + gap;
      RStripped(b, gap);
    }
  }

  lemma {:induction false} DotsEnd(b: string, dots: string)
    requires dots in ["…", "..."]
    ensures EndsWith(b + dots, dots) && (b + dots)[..|b + dots| - |dots|] == b
    ensures dots == "..." ==> !EndsWith(b + dots, "…")
  {
    assert dots == "..." ==> (b + dots)[|b + dots| - 1] == '.' && "…"[0] != '.';
  }

  /** A caption is shown after its author's name and cut with a link to more of it: neither is part of it, nor is the
      space around it, and a no-break space counts as a space. */
  lemma {:induction false} CaptionsAreCleaned(user: string, b: string, gap: string, gap2: string)
    requires IsWord(user) && '\U{a0}' !in user && IsBare(b) && AllSpace(gap) && AllSpace(gap2)
    requires !EndsWith(b, "more")
    ensures CleanCaption(gap + (user + " " + b) + gap2, user) == b
    ensures CleanCaption(gap + (user + " " + (b + "… more")) + gap2, user) == b + "…"
    ensures !(user + " " <= b) ==> CleanCaption(gap + b + gap2, user) == b
    ensures CleanCaption(gap + (user + "\U{a0}" + b) + gap2, user) == b
  {
    hide *;
    PlainIs(b);
    CutIs(b);
    NamedIs(user, b, gap, gap2);
    NamedIs(user, b + "… more", gap, gap2);
    UnnamedIs(user, b, gap, gap2);
    JoinedByNbsp(user, b, gap, gap2);
  }

  lemma {:induction false} PlainIs(b: string)
    requires IsBare(b) && !EndsWith(b, "more")
    ensures Strip(DropMoreLink(b)) == b
  {
    MoreLinkGoes(b, "", "", "", "");
    StripBare(b);
    hide Strip, DropMoreLink;
  }

  lemma {:induction false} CutIs(b: string)
    requires IsBare(b)
    ensures IsBare(b + "… more") && Strip(DropMoreLink(b + "… more")) == b + "…"
  {
    var rest := b + "… more";
    assert rest[0] == b[0] && rest[|rest| - 1] == 'e' && !IsSpace('e') && !IsSpace('…') && IsSpace(' ');
    assert (b + "…")[0] == b[0];
    MoreLinkGoes(rest, b, "", "…", " ");
    assert b + "" + "…" + " " + "more" == rest;
    StripBare(b + "…");
    hide Strip, DropMoreLink;
  }

  lemma {:induction false} NamedIs(user: string, rest: string, gap: string, gap2: string)
    requires IsWord(user) && '\U{a0}' !in user && IsBare(rest) && AllSpace(gap) && AllSpace(gap2)
    ensures CleanCaption(gap + (user + " " + rest) + gap2, user) == Strip(DropMoreLink(rest))
  {
    var named := user + " " + rest;
    assert named[0] == user[0] && named[|named| - 1] == rest[|rest| - 1];
    Surrounded(gap, named, gap2);
    assert user + " " <= named && named[|user| + 1..] == rest;
    hide SpaceForNbsp, Strip, DropMoreLink, IsBare;
  }

  lemma {:induction false} UnnamedIs(user: string, b: string, gap: string, gap2: string)
    requires IsBare(b) && AllSpace(gap) && AllSpace(gap2)
    ensures !(user + " " <= b) ==> CleanCaption(gap + b + gap2, user) == Strip(DropMoreLink(b))
  {
    Surrounded(gap, b, gap2);
    hide SpaceForNbsp, Strip, DropMoreLink, IsBare;
  }

  lemma {:induction false} JoinedByNbsp(user: string, b: string, gap: string, gap2: string)
    ensures CleanCaption(gap + (user + "\U{a0}" + b) + gap2, user) == CleanCaption(gap + (user + " " + b) + gap2, user)
  {
    assert SpaceForNbsp(gap + (user + "\U{a0}" + b) + gap2) == SpaceForNbsp(gap + (user + " " + b) + gap2);
    hide SpaceForNbsp, Strip, DropMoreLink;
  }

  lemma {:induction false} StripBare(b: string)
    requires IsBare(b)
    ensures Strip(b) == b
  {
    assert b + "" == b && "" + b == b;
    RStripped(b, "");
    LStripped("", b);
  }

  /** The space around a text goes, no-break spaces with it. */
  lemma {:induction false} Surrounded(gap: string, x: string, gap2: string)
    requires AllSpace(gap) && AllSpace(gap2) && IsBare(x)
    ensures Strip(SpaceForNbsp(gap + x + gap2)) == x
  {
    var g, g2 := SpaceForNbsp(gap), SpaceForNbsp(gap2);
    assert SpaceForNbsp(gap + x + gap2) == g + x + g2;
    assert IsSpace(' ');
    assert (g + x)[|g + x| - 1] == x[|x| - 1];
    RStripped(g + x, g2);
    LStripped(g, x);
  }

  // ---------------------------------------------------------------------------------------------
  // One node at a time

  /** The caption branch: it also names the author of a card whose header is off screen. */
  function FillCaption(c: Post, n: Node): Post {
    var user := if c.headless && c.username == "" then Until(n.text, ' ') else c.username;
    c.(username := user, captionTruncated := n.truncated, caption := CleanCaption(n.text, user),
       captionBounds := n.bounds, complete := c.complete || Truthy(c.shareBounds))
  }

  /** Which field of a card a node fills. */
  datatype Slot = MediaArea | ShareButton | MuteToggle | Description | Caption | Timestamp | Nothing

  /** The ordered choice: the first slot that applies. */
  function SlotFor(c: Post, n: Node): Slot {
    if c.bounds.None? && n.mediaId then MediaArea
    else if c.shareBounds.None? && n.shareId then ShareButton
    else if c.headless && (c.kind == "" || c.kind == "post") && n.muteToggle then MuteToggle
    else if c.alt == "" && n.mediaAlt then Description
    else if c.caption == "" && n.text != "" && n.captionClass then Caption
    else if n.timestamp && Truthy(c.shareBounds) then Timestamp
    else Nothing
  }

  function Put(c: Post, n: Node, slot: Slot): Post {
    match slot
    case MediaArea => c.(bounds := n.bounds)
    case ShareButton => c.(shareBounds := n.bounds, complete := c.complete || c.mergedReel)
    case MuteToggle => c.(kind := "video")
    case Description => c.(alt := n.desc, kind := if c.headless && c.kind == "" then AltKind(n.desc) else c.kind)
    case Caption => FillCaption(c, n)
    case Timestamp =>
      c.(postedDate := if c.headless && c.postedDate == "" then n.text else c.postedDate, complete := true)
    case Nothing => c
  }

  /** A node inside a card fills one field of it, or none. */
  function Fill(c: Post, n: Node): Post {
    Put(c, n, SlotFor(c, n))
  }

  /** Whether header `n` is card `c`'s own, found after its media: the collaborator Reel layout. */
  predicate IsLateHeader(c: Post, n: Node) {
    && n.header.Some?
    && c.headless && c.username == "" && c.caption == "" && !Truthy(c.shareBounds)
    && c.alt != "" && (Lead(c.alt) == "reel" || Lead(c.alt) == "video")
  }

  function TakeLateHeader(c: Post, n: Node): Post
    requires n.header.Some?
  {
    var m := n.header.value;
    c.(username := m.user, postedDate := m.date, place := m.place, headerBounds := n.bounds,
       headless := false, mergedReel := true)
  }

  /** The card a boundary node starts: the provisional top card, a header's card, or (a sponsored card) none. */
  function Open(n: Node, clipTop: int): Option<Post>
    requires n.Boundary()
  {
    if n.listId then Some(NewPost("", "", "", "", clipTop).(headless := true))
    else if n.header.Some? then
      var m := n.header.value;
      Some(NewPost(m.user, Lower(m.kind), m.date, m.place, clipTop).(headerBounds := n.bounds))
    else None
  }

  // ---------------------------------------------------------------------------------------------
  // What a screen's cards are, said without the loop: cut the nodes at the boundaries, fold each piece

  /** The nodes up to the next boundary. */
  function Body(ns: seq<Node>): (b: seq<Node>)
    ensures b <= ns
    ensures forall n | n in b :: !n.Boundary()
    ensures |b| < |ns| ==> ns[|b|].Boundary()
  {
    if ns == [] || ns[0].Boundary() then [] else [ns[0]] + Body(ns[1..])
  }

  function Rest(ns: seq<Node>): (r: seq<Node>)
    ensures |r| <= |ns|
    ensures r != [] ==> r[0].Boundary()
    ensures ns == Body(ns) + r
  {
    ns[|Body(ns)|..]
  }

  function FillAll(c: Post, ns: seq<Node>): Post
    decreases |ns|
  {
    if ns == [] then c else FillAll(Fill(c, ns[0]), ns[1..])
  }

  /** A card followed by a header was on screen down to its bottom, if its share button was. */
  function Close(c: Post, rest: seq<Node>): Post {
    if rest != [] && !rest[0].listId && rest[0].headerId && Truthy(c.shareBounds) then c.(complete := true) else c
  }

  predicate LateHeaderNext(c: Post, rest: seq<Node>) {
    rest != [] && !rest[0].listId && rest[0].headerId && IsLateHeader(c, rest[0])
  }

  /** The finished card `c` with `ns` still to read of it, and the cards after it. */
  function Finish(c: Post, ns: seq<Node>, clipTop: int): seq<Post>
    decreases |ns|, 1
  {
    var filled := FillAll(c, Body(ns));
    var rest := Rest(ns);
    if LateHeaderNext(filled, rest) then
      Finish(TakeLateHeader(filled, rest[0]), rest[1..], clipTop)
    else
      [Close(filled, rest)] + Cards(rest, clipTop)
  }

  /** The cards of nodes that start at a boundary. */
  function Cards(ns: seq<Node>, clipTop: int): seq<Post>
    requires ns != [] ==> ns[0].Boundary()
    decreases |ns|, 0
  {
    if ns == [] then []
    else
      match Open(ns[0], clipTop)
      case Some(c) => Finish(c, ns[1..], clipTop)
      case None => Cards(Rest(ns[1..]), clipTop)
  }

  /** The nodes from the feed list on; none when it isn't on screen. */
  function FromList(ns: seq<Node>): (r: seq<Node>)
    ensures r != [] ==> r[0].listId
    ensures |r| <= |ns|
  {
    if ns == [] || ns[0].listId then ns else FromList(ns[1..])
  }

  /** Where the action bar ends: read off the first such node only. */
  function ClipTop(ns: seq<Node>): int {
    if ns == [] then 0
    else if ns[0].actionBar then (if ns[0].bottom.Some? then ns[0].bottom.value else 0)
    else ClipTop(ns[1..])
  }

  function NameKind(c: Post): Post {
    if c.headless && c.kind == "" then c.(kind := "post") else c
  }

  predicate Identified(c: Post) {
    c.username != "" && (c.caption != "" || c.alt != "")
  }

  function Kept(cs: seq<Post>): seq<Post> {
    if cs == [] then []
    else (if Identified(NameKind(cs[0])) then [NameKind(cs[0])] else []) + Kept(cs[1..])
  }

  /** The cards of one screen. */
  function Screen(ns: seq<Node>): seq<Post> {
    Kept(Cards(FromList(ns), ClipTop(ns)))
  }

  // ---------------------------------------------------------------------------------------------
  // The loop

  /** The loop's variables: `posts`, whether `cur` is a card (it is then the last one), and `in_list`. */
  datatype Pass = Pass(posts: seq<Post>, open: bool, inList: bool) {
    predicate Valid() {
      (open ==> posts != []) && (posts != [] ==> inList)
    }
  }

  function Step(s: Pass, n: Node, clipTop: int): (r: Pass)
    requires s.Valid()
    ensures r.Valid()
  {
    if n.listId then
      Pass(s.posts + [Open(n, clipTop).value], true, true)
    else if !s.inList then s
    else if n.headerId then
      if s.open && IsLateHeader(Last(s.posts), n) then
        s.(posts := Init(s.posts) + [TakeLateHeader(Last(s.posts), n)])
      else
        var posts := if s.open then Init(s.posts) + [Close(Last(s.posts), [n])] else s.posts;
        if n.header.Some? then Pass(posts + [Open(n, clipTop).value], true, true)
        else Pass(posts, false, true)
    else if !s.open then s
    else s.(posts := Init(s.posts) + [Fill(Last(s.posts), n)])
  }

  function Last<T>(s: seq<T>): T
    requires s != []
  {
    s[|s| - 1]
  }

  function Init<T>(s: seq<T>): seq<T>
    requires s != []
  {
    s[..|s| - 1]
  }

  function Steps(s: Pass, ns: seq<Node>, clipTop: int): (r: Pass)
    requires s.Valid()
    ensures r.Valid()
    decreases |ns|
  {
    if ns == [] then s else Steps(Step(s, ns[0], clipTop), ns[1..], clipTop)
  }

  /** Reading a card's body fills that card and touches no other. */
  lemma {:induction false} StepsBody(s: Pass, ns: seq<Node>, clipTop: int)
    requires s.Valid() && s.open
    requires forall n | n in ns :: !n.Boundary()
    ensures Steps(s, ns, clipTop) == s.(posts := Init(s.posts) + [FillAll(Last(s.posts), ns)])
    decreases |ns|
  {
    if ns == [] {
      assert s.posts == Init(s.posts) + [Last(s.posts)];
    } else {
      assert !ns[0].Boundary();
      StepsBody(Step(s, ns[0], clipTop), ns[1..], clipTop);
    }
  }

  lemma {:induction false} StepsIdle(s: Pass, ns: seq<Node>, clipTop: int)
    requires s.Valid() && !s.open
    requires forall n | n in ns :: !n.Boundary()
    ensures Steps(s, ns, clipTop) == s
    decreases |ns|
  {
    if ns != [] {
      assert !ns[0].Boundary();
      StepsIdle(s, ns[1..], clipTop);
    }
  }

  lemma {:induction false} StepsAppend(s: Pass, a: seq<Node>, b: seq<Node>, clipTop: int)
    requires s.Valid()
    ensures Steps(s, a + b, clipTop) == Steps(Steps(s, a, clipTop), b, clipTop)
    decreases |a|
  {
    if a == [] {
      assert a + b == b;
    } else {
      assert (a + b)[1..] == a[1..] + b;
      StepsAppend(Step(s, a[0], clipTop), a[1..], b, clipTop);
    }
  }

  /** A card's body, then whatever comes next. */
  lemma {:induction false} BodyThenRest(s: Pass, ns: seq<Node>, clipTop: int) returns (t: Pass)
    requires s.Valid() && s.open
    ensures t.Valid() && t.open && t.inList
    ensures Init(t.posts) == Init(s.posts) && Last(t.posts) == FillAll(Last(s.posts), Body(ns))
    ensures Steps(s, ns, clipTop) == Steps(t, Rest(ns), clipTop)
  {
    var body, rest := Body(ns), Rest(ns);
    t := s.(posts := Init(s.posts) + [FillAll(Last(s.posts), body)]);
    StepsBody(s, body, clipTop);
    StepsAppend(s, body, rest, clipTop);
  }

  lemma {:induction false} LateHeaderStep(t: Pass, h: Node, clipTop: int)
    requires t.Valid() && t.open && h.headerId && !h.listId && IsLateHeader(Last(t.posts), h)
    ensures var u := Step(t, h, clipTop);
            u.open && Init(u.posts) == Init(t.posts) && Last(u.posts) == TakeLateHeader(Last(t.posts), h)
  {
  }

  /** From a card being read, the pass ends with that card finished and the declared cards after it. */
  lemma {:induction false} StepsFinish(s: Pass, ns: seq<Node>, clipTop: int)
    requires s.Valid() && s.open
    ensures Steps(s, ns, clipTop).posts == Init(s.posts) + Finish(Last(s.posts), ns, clipTop)
    decreases |ns|, 1
  {
    var t := BodyThenRest(s, ns, clipTop);
    var c, rest := Last(t.posts), Rest(ns);
    if LateHeaderNext(c, rest) {
      LateHeaderStep(t, rest[0], clipTop);
      StepsFinish(Step(t, rest[0], clipTop), rest[1..], clipTop);
    } else {
      StepsCards(t, rest, clipTop);
      FinishHere(Last(s.posts), ns, clipTop, Init(s.posts));
    }
  }

  lemma {:induction false} FinishHere(c: Post, ns: seq<Node>, clipTop: int, above: seq<Post>)
    requires !LateHeaderNext(FillAll(c, Body(ns)), Rest(ns))
    ensures above + [Close(FillAll(c, Body(ns)), Rest(ns))] + Cards(Rest(ns), clipTop) == above + Finish(c, ns, clipTop)
  {
  }

  /** From a boundary that isn't the open card's late header, the pass closes the open card and adds the declared
      cards. */
  lemma {:induction false} StepsCards(s: Pass, ns: seq<Node>, clipTop: int)
    requires s.Valid() && s.inList
    requires ns != [] ==> ns[0].Boundary()
    requires s.open ==> !LateHeaderNext(Last(s.posts), ns)
    ensures Steps(s, ns, clipTop).posts
         == (if s.open then Init(s.posts) + [Close(Last(s.posts), ns)] else s.posts) + Cards(ns, clipTop)
    decreases |ns|, 0
  {
    var before := if s.open then Init(s.posts) + [Close(Last(s.posts), ns)] else s.posts;
    if ns == [] {
      assert before == s.posts;
    } else {
      var t := Step(s, ns[0], clipTop);
      match Open(ns[0], clipTop)
      case Some(c) =>
        assert before == if s.open then Init(s.posts) + [Close(Last(s.posts), [ns[0]])] else s.posts;
        assert ns[0].listId ==> before == s.posts;
        assert t.posts == before + [c];
        assert Init(t.posts) == before;
        StepsFinish(t, ns[1..], clipTop);
      case None =>
        assert t == Pass(before, false, true);
        var body, rest := Body(ns[1..]), Rest(ns[1..]);
        StepsAppend(t, body, rest, clipTop);
        StepsIdle(t, body, clipTop);
        StepsCards(t, rest, clipTop);
    }
  }

  /** The single pass finds exactly the declared cards. */
  lemma {:induction false} PassFindsCards(ns: seq<Node>, clipTop: int)
    ensures Steps(Pass([], false, false), ns, clipTop).posts == Cards(FromList(ns), clipTop)
    decreases |ns|
  {
    var s := Pass([], false, false);
    if ns == [] {
    } else if ns[0].listId {
      var t := Step(s, ns[0], clipTop);
      assert Init(t.posts) == [];
      StepsFinish(t, ns[1..], clipTop);
    } else {
      PassFindsCards(ns[1..], clipTop);
    }
  }

  /** A card being built: the list of cards and the loop's current card share it, so a field written
      through one is read through the other. */
  class Card {
    var post: Post

    constructor (post: Post)
      ensures this.post == post
    {
      this.post := post;
    }
  }

  /** The cards hold these posts, each card its own. */
  ghost predicate Holds(cards: seq<Card>, posts: seq<Post>)
    reads cards
  {
    && |cards| == |posts|
    && (forall i, j | 0 <= i < j < |cards| :: cards[i] != cards[j])
    && (forall i | 0 <= i < |cards| :: cards[i].post == posts[i])
  }

  method FindClipTop(nodes: seq<Node>) returns (clipTop: int)
    ensures clipTop == ClipTop(nodes)
  {
    clipTop := 0;
    for i := 0 to |nodes|
      invariant clipTop == 0
      invariant ClipTop(nodes) == ClipTop(nodes[i..])
    {
      if nodes[i].actionBar {
        if nodes[i].bottom.Some? {
          clipTop := nodes[i].bottom.value;
        }
        return;
      }
    }
  }

  /** The pass over one screen, building the cards in place, then dropping what can't be identified. */
  method ParseHierarchy(nodes: seq<Node>) returns (found: seq<Post>)
    ensures found == Screen(nodes)
  {
    var clipTop := FindClipTop(nodes);
    var posts: seq<Card> := [];
    var cur: Card? := null;
    var inList := false;
    ghost var s := Pass([], false, false);
    for i := 0 to |nodes|
      invariant forall j | 0 <= j < |posts| :: fresh(posts[j])
      invariant s.Valid()
      invariant Holds(posts, s.posts)
      invariant s.open == (cur != null) && s.inList == inList
      invariant cur != null ==> posts != [] && cur == posts[|posts| - 1]
      invariant Steps(Pass([], false, false), nodes, clipTop) == Steps(s, nodes[i..], clipTop)
    {
      posts, cur, inList := ReadNode(posts, cur, inList, nodes[i], clipTop, s);
      s := Step(s, nodes[i], clipTop);
      assert nodes[i..][1..] == nodes[i + 1..];
    }
    PassFindsCards(nodes, clipTop);
    assert nodes[|nodes|..] == [];
    NameTopCard(posts, s.posts);
    found := KeepIdentified(posts, s.posts);
  }

  /** The loop's body: one node, in the loop's order of tests. */
  method ReadNode(posts: seq<Card>, cur: Card?, inList: bool, n: Node, clipTop: int, ghost s: Pass)
    returns (posts': seq<Card>, cur': Card?, inList': bool)
    requires s.Valid() && Holds(posts, s.posts) && s.open == (cur != null) && s.inList == inList
    requires cur != null ==> posts != [] && cur == posts[|posts| - 1]
    modifies posts
    ensures Holds(posts', Step(s, n, clipTop).posts)
    ensures Step(s, n, clipTop).open == (cur' != null) && Step(s, n, clipTop).inList == inList'
    ensures cur' != null ==> posts' != [] && cur' == posts'[|posts'| - 1]
    ensures posts <= posts' && forall j | |posts| <= j < |posts'| :: fresh(posts'[j])
  {
    posts', cur', inList' := posts, cur, inList;
    if n.listId {
      inList' := true;
      cur' := new Card(NewPost("", "", "", "", clipTop));
      cur'.post := cur'.post.(headless := true);
      posts' := posts + [cur'];
      return;
    }
    if !inList {
      return;
    }
    if n.headerId {
      posts', cur' := ReadHeader(posts, cur, n, clipTop, s);
      return;
    }
    if cur == null {
      return;
    }
    FillCard(cur, n);
  }

  /** A header: the open Reel's own, found late, or the end of the open card and the start of the next. */
  method ReadHeader(posts: seq<Card>, cur: Card?, n: Node, clipTop: int, ghost s: Pass)
    returns (posts': seq<Card>, cur': Card?)
    requires s.Valid() && s.inList && n.headerId && !n.listId
    requires Holds(posts, s.posts)
    requires s.open == (cur != null)
    requires cur != null ==> posts != [] && cur == posts[|posts| - 1]
    modifies posts
    ensures Holds(posts', Step(s, n, clipTop).posts)
    ensures Step(s, n, clipTop).open == (cur' != null) && Step(s, n, clipTop).inList
    ensures cur' != null ==> posts' != [] && cur' == posts'[|posts'| - 1]
    ensures posts <= posts' && forall j | |posts| <= j < |posts'| :: fresh(posts'[j])
  {
    posts', cur' := posts, cur;
    if cur != null && IsLateHeader(cur.post, n) {
      JoinHeader(posts, cur, n, s.posts);
    } else {
      ghost var closed := if s.open then Init(s.posts) + [Close(Last(s.posts), [n])] else s.posts;
      if cur != null {
        LeaveCard(posts, cur, n, s.posts);
      }
      cur' := null;
      if n.header.Some? {
        posts', cur' := StartCard(posts, n, clipTop, closed);
      }
    }
  }

  /** The open card's own header, found after its media. */
  method JoinHeader(posts: seq<Card>, cur: Card, n: Node, ghost was: seq<Post>)
    requires n.header.Some? && Holds(posts, was)
    requires posts != [] && cur == posts[|posts| - 1]
    modifies cur
    ensures Holds(posts, Init(was) + [TakeLateHeader(Last(was), n)])
  {
    cur.post := TakeLateHeader(cur.post, n);
  }

  /** The previous card's bottom was on screen if its share button was. */
  method LeaveCard(posts: seq<Card>, cur: Card, n: Node, ghost was: seq<Post>)
    requires n.headerId && !n.listId && Holds(posts, was)
    requires posts != [] && cur == posts[|posts| - 1]
    modifies cur
    ensures Holds(posts, Init(was) + [Close(Last(was), [n])])
  {
    if Truthy(cur.post.shareBounds) {
      cur.post := cur.post.(complete := true);
    }
  }

  method StartCard(posts: seq<Card>, n: Node, clipTop: int, ghost was: seq<Post>)
    returns (posts': seq<Card>, cur: Card)
    requires n.headerId && !n.listId && n.header.Some? && Holds(posts, was)
    ensures fresh(cur) && posts' == posts + [cur] && cur.post == Open(n, clipTop).value
    ensures Holds(posts', was + [Open(n, clipTop).value])
  {
    var m := n.header.value;
    cur := new Card(NewPost(m.user, Lower(m.kind), m.date, m.place, clipTop));
    cur.post := cur.post.(headerBounds := n.bounds);
    posts' := posts + [cur];
  }

  /** Fills one field of the current card from a node inside it. */
  method FillCard(cur: Card, n: Node)
    modifies cur
    ensures cur.post == Fill(old(cur.post), n)
  {
    var p := cur.post;
    ghost var slot := SlotFor(p, n);
    if p.bounds.None? && n.mediaId {
      assert slot == MediaArea;
      p := p.(bounds := n.bounds);
    } else if p.shareBounds.None? && n.shareId {
      assert slot == ShareButton;
      p := p.(shareBounds := n.bounds);
      if p.mergedReel {
        p := p.(complete := true);
      }
    } else if p.headless && (p.kind == "" || p.kind == "post") && n.muteToggle {
      assert slot == MuteToggle;
      p := p.(kind := "video");
    } else if p.alt == "" && n.mediaAlt {
      assert slot == Description;
      p := p.(alt := n.desc);
      if p.headless && p.kind == "" {
        p := p.(kind := AltKind(n.desc));
      }
    } else {
      p := FillText(p, n);
    }
    cur.post := p;
  }

  /** The branches that read a node's text: the caption, then the timestamp. */
  method FillText(card: Post, n: Node) returns (p: Post)
    requires SlotFor(card, n) in {Caption, Timestamp, Nothing}
    ensures p == Fill(card, n)
  {
    p := card;
    if p.caption == "" && n.text != "" && n.captionClass {
      p := ReadCaption(p, n);
    } else if n.timestamp && Truthy(p.shareBounds) {
      if p.headless && p.postedDate == "" {
        p := p.(postedDate := n.text);
      }
      p := p.(complete := true);
    }
  }

  method ReadCaption(card: Post, n: Node) returns (p: Post)
    ensures p == FillCaption(card, n)
  {
    p := card;
    if p.headless && p.username == "" {
      p := p.(username := Until(n.text, ' '));
    }
    p := p.(captionTruncated := n.truncated);
    p := p.(caption := CleanCaption(n.text, p.username));
    p := p.(captionBounds := n.bounds);
    if Truthy(p.shareBounds) {
      p := p.(complete := true);
    }
  }

  /** Calls a top card nothing gave a kind a "post", in place. */
  method NameTopCard(cards: seq<Card>, ghost was: seq<Post>)
    requires Holds(cards, was)
    modifies cards
    ensures forall j | 0 <= j < |cards| :: cards[j].post == NameKind(was[j])
  {
    for i := 0 to |cards|
      invariant forall j | 0 <= j < |cards| :: cards[j].post == if j < i then NameKind(was[j]) else was[j]
    {
      if cards[i].post.headless && cards[i].post.kind == "" {
        cards[i].post := cards[i].post.(kind := "post");
      }
    }
  }

  /** Lists the cards that can be identified. */
  method KeepIdentified(cards: seq<Card>, ghost was: seq<Post>) returns (found: seq<Post>)
    requires |cards| == |was| && forall j | 0 <= j < |cards| :: cards[j].post == NameKind(was[j])
    ensures found == Kept(was)
  {
    found := [];
    for i := 0 to |cards|
      invariant found + Kept(was[i..]) == Kept(was)
    {
      var p := cards[i].post;
      assert was[i..][0] == was[i] && was[i..][1..] == was[i + 1..];
      if Identified(p) {
        found := found + [p];
      }
    }
  }

  // ---------------------------------------------------------------------------------------------
  // What the cards of a screen can be relied on for

  /** Whether the nodes read so far leave a card waiting for header `h` as its own late one. */
  ghost predicate AwaitsHeader(before: seq<Node>, h: Node, clipTop: int) {
    var s := Steps(Pass([], false, false), before, clipTop);
    s.open && IsLateHeader(Last(s.posts), h)
  }

  /** The card a header starts, from its own nodes alone. */
  function CardOf(h: Node, body: seq<Node>, clipTop: int): Post
    requires h.headerId && !h.listId && h.header.Some?
  {
    FillAll(Open(h, clipTop).value, body)
  }

  /** A header that isn't awaited starts its card afresh, whatever came before it. */
  lemma {:induction false} HeaderStartsAfresh(before: seq<Node>, h: Node, rest: seq<Node>, clipTop: int)
    returns (above: seq<Post>)
    requires FromList(before) != []
    requires h.headerId && !h.listId && h.header.Some? && !AwaitsHeader(before, h, clipTop)
    ensures Cards(FromList(before + [h] + rest), clipTop) == above + Finish(Open(h, clipTop).value, rest, clipTop)
  {
    var start := Pass([], false, false);
    var ns := before + [h] + rest;
    var s := Steps(start, before, clipTop);
    InListAfter(start, before, clipTop);
    var t := Step(s, h, clipTop);
    assert t.open && Last(t.posts) == Open(h, clipTop).value;
    assert ns == before + ([h] + rest);
    StepsAppend(start, before, [h] + rest, clipTop);
    assert ([h] + rest)[0] == h && ([h] + rest)[1..] == rest;
    StepsFinish(t, rest, clipTop);
    PassFindsCards(ns, clipTop);
    above := Init(t.posts);
  }

  /**
   Scrolling moves a card, and changes what is above and below it, but not what it is: with its own nodes
   on screen between two boundaries, a header's card is the same on every screen that shows it. Only
   `clip_top` and whether another header follows come from outside.
   */
  lemma {:induction false} CardIsItsOwnNodes(before: seq<Node>, h: Node, body: seq<Node>, after: seq<Node>,
                                             clipTop: int)
    returns (above: seq<Post>)
    requires FromList(before) != []
    requires h.headerId && !h.listId && h.header.Some? && !AwaitsHeader(before, h, clipTop)
    requires forall n | n in body :: !n.Boundary()
    requires after != [] ==> after[0].Boundary()
    ensures Cards(FromList(before + [h] + body + after), clipTop)
         == above + [Close(CardOf(h, body, clipTop), after)] + Cards(after, clipTop)
  {
    above := HeaderStartsAfresh(before, h, body + after, clipTop);
    assert before + [h] + (body + after) == before + [h] + body + after;
    BodyOf(body, after);
    NeverHeadless(Open(h, clipTop).value, body);
  }

  lemma {:induction false} InListAfter(s: Pass, ns: seq<Node>, clipTop: int)
    requires s.Valid()
    requires s.inList || FromList(ns) != []
    ensures Steps(s, ns, clipTop).inList
    decreases |ns|
  {
    if ns != [] {
      InListAfter(Step(s, ns[0], clipTop), ns[1..], clipTop);
    }
  }

  lemma {:induction false} BodyOf(body: seq<Node>, after: seq<Node>)
    requires forall n | n in body :: !n.Boundary()
    requires after != [] ==> after[0].Boundary()
    ensures Body(body + after) == body && Rest(body + after) == after
    decreases |body|
  {
    if body == [] {
      assert body + after == after;
    } else {
      assert !body[0].Boundary();
      assert (body + after)[1..] == body[1..] + after;
      BodyOf(body[1..], after);
      assert body == [body[0]] + body[1..];
    }
  }

  lemma {:induction false} NeverHeadless(c: Post, ns: seq<Node>)
    requires !c.headless
    ensures !FillAll(c, ns).headless
    decreases |ns|
  {
    if ns != [] {
      NeverHeadless(Fill(c, ns[0]), ns[1..]);
    }
  }

  /** First write wins: reading on never changes a caption, description, author, media area or share
      button a card already has, nor withdraws its completeness. */
  ghost predicate Extends(c: Post, d: Post) {
    && (c.caption != "" ==> d.caption == c.caption && d.captionBounds == c.captionBounds
                            && d.captionTruncated == c.captionTruncated)
    && (c.alt != "" ==> d.alt == c.alt)
    && (c.username != "" ==> d.username == c.username)
    && (!c.headless ==> d.username == c.username && d.kind == c.kind && d.postedDate == c.postedDate)
    && (c.bounds.Some? ==> d.bounds == c.bounds)
    && (c.shareBounds.Some? ==> d.shareBounds == c.shareBounds)
    && (c.complete ==> d.complete)
    && d.place == c.place && d.headerBounds == c.headerBounds && d.clipTop == c.clipTop
    && d.headless == c.headless && d.mergedReel == c.mergedReel
  }

  lemma {:induction false} FirstWriteWins(c: Post, ns: seq<Node>)
    ensures Extends(c, FillAll(c, ns))
    decreases |ns|
  {
    if ns != [] {
      var d := Fill(c, ns[0]);
      FillExtends(c, ns[0]);
      FirstWriteWins(d, ns[1..]);
      ExtendsTransitively(c, d, FillAll(d, ns[1..]));
    }
  }

  lemma {:induction false} FillExtends(c: Post, n: Node)
    ensures Extends(c, Fill(c, n))
  {
  }

  lemma {:induction false} ExtendsTransitively(c: Post, d: Post, e: Post)
    requires Extends(c, d) && Extends(d, e)
    ensures Extends(c, e)
  {
  }

  // ---------------------------------------------------------------------------------------------
  // Which nodes are a card's own

  /** A card after one more node of its own: a header that joins it, or a node that fills a field. */
  function Advance(c: Post, n: Node): Post {
    if n.Boundary() && n.header.Some? then TakeLateHeader(c, n) else Fill(c, n)
  }

  function Grown(c: Post, own: seq<Node>): Post
    decreases |own|
  {
    if own == [] then c else Grown(Advance(c, own[0]), own[1..])
  }

  /** Any boundary among a card's nodes is a header it was waiting for. */
  predicate OnlyItsOwn(c: Post, own: seq<Node>)
    decreases |own|
  {
    own == [] || ((own[0].Boundary() ==> LateHeaderNext(c, own)) && OnlyItsOwn(Advance(c, own[0]), own[1..]))
  }

  /** Card `d` is made of nodes `i` to `j` and no others: started by the first, ended by the next boundary. */
  ghost predicate Owns(ns: seq<Node>, i: int, j: int, clipTop: int, d: Post) {
    && 0 <= i < j <= |ns| && ns[i].Boundary() && Open(ns[i], clipTop).Some?
    && (j < |ns| ==> ns[j].Boundary())
    && var c, own := Open(ns[i], clipTop).value, ns[i + 1..j];
       OnlyItsOwn(c, own) && !LateHeaderNext(Grown(c, own), ns[j..]) && d == Close(Grown(c, own), ns[j..])
  }

  /** The cards' runs of nodes, one each, in order and apart. */
  ghost predicate Owners(ns: seq<Node>, spans: seq<(nat, nat)>, clipTop: int, cards: seq<Post>, from: nat) {
    && |spans| == |cards|
    && (forall t | 0 <= t < |cards| :: from <= spans[t].0 && Owns(ns, spans[t].0, spans[t].1, clipTop, cards[t]))
    && (forall t, u | 0 <= t < u < |cards| :: spans[t].1 <= spans[u].0)
  }

  lemma {:induction false} GrownFurther(c: Post, own: seq<Node>, more: seq<Node>)
    ensures Grown(c, own + more) == Grown(Grown(c, own), more)
    ensures OnlyItsOwn(c, own) && OnlyItsOwn(Grown(c, own), more) ==> OnlyItsOwn(c, own + more)
    decreases |own|
  {
    if own == [] {
      assert own + more == more;
    } else {
      assert (own + more)[1..] == own[1..] + more;
      GrownFurther(Advance(c, own[0]), own[1..], more);
    }
  }

  lemma {:induction false} GrownByBody(c: Post, body: seq<Node>)
    requires forall n | n in body :: !n.Boundary()
    ensures Grown(c, body) == FillAll(c, body) && OnlyItsOwn(c, body)
    decreases |body|
  {
    if body != [] {
      assert !body[0].Boundary();
      GrownByBody(Fill(c, body[0]), body[1..]);
    }
  }

  /** A card begun at node `i` and read up to node `k` goes on to the end of its body. */
  lemma {:induction false} OwnBody(ns: seq<Node>, i: nat, k: nat, c: Post)
    requires i < k <= |ns| && OnlyItsOwn(c, ns[i + 1..k])
    ensures var j := k + |Body(ns[k..])|;
            && j <= |ns| && ns[j..] == Rest(ns[k..]) && OnlyItsOwn(c, ns[i + 1..j])
            && Grown(c, ns[i + 1..j]) == FillAll(Grown(c, ns[i + 1..k]), Body(ns[k..]))
  {
    hide Fill, Advance, Grown, OnlyItsOwn, FillAll;
    var body := Body(ns[k..]);
    GrownByBody(Grown(c, ns[i + 1..k]), body);
    GrownFurther(c, ns[i + 1..k], body);
    assert ns[i + 1..k] + body == ns[i + 1..k + |body|];
  }

  /** Card `c`, begun at node `i` and read up to node `k`. */
  ghost predicate Begun(ns: seq<Node>, i: nat, k: nat, clipTop: int, c: Post) {
    && i < k <= |ns| && ns[i].Boundary() && Open(ns[i], clipTop).Some?
    && OnlyItsOwn(Open(ns[i], clipTop).value, ns[i + 1..k]) && c == Grown(Open(ns[i], clipTop).value, ns[i + 1..k])
  }

  lemma {:induction false} BegunBody(ns: seq<Node>, i: nat, k: nat, clipTop: int, c: Post)
    requires Begun(ns, i, k, clipTop, c)
    ensures var j := k + |Body(ns[k..])|;
            j <= |ns| && ns[j..] == Rest(ns[k..]) && Begun(ns, i, j, clipTop, FillAll(c, Body(ns[k..])))
  {
    OwnBody(ns, i, k, Open(ns[i], clipTop).value);
  }

  lemma {:induction false} BegunJoined(ns: seq<Node>, i: nat, j: nat, clipTop: int, c: Post)
    requires Begun(ns, i, j, clipTop, c) && LateHeaderNext(c, ns[j..])
    ensures Begun(ns, i, j + 1, clipTop, TakeLateHeader(c, ns[j]))
  {
    JoinedHeader(ns, i, j, Open(ns[i], clipTop).value);
  }

  lemma {:induction false} BegunOwns(ns: seq<Node>, i: nat, j: nat, clipTop: int, c: Post)
    requires Begun(ns, i, j, clipTop, c) && !LateHeaderNext(c, ns[j..]) && (j < |ns| ==> ns[j].Boundary())
    ensures Owns(ns, i, j, clipTop, Close(c, ns[j..]))
  {
  }

  lemma {:induction false} FinishOwners(ns: seq<Node>, i: nat, k: nat, clipTop: int, c: Post)
    returns (spans: seq<(nat, nat)>)
    requires i < k <= |ns| && Begun(ns, i, k, clipTop, c)
    ensures Owners(ns, spans, clipTop, Finish(c, ns[k..], clipTop), i)
    decreases |ns| - k, 1
  {
    hide Owners, Begun, FillAll, Close, Owns, TakeLateHeader, Open, Grown, OnlyItsOwn, Lead, Truthy;
    var j := k + |Body(ns[k..])|;
    BegunBody(ns, i, k, clipTop, c);
    var filled := FillAll(c, Body(ns[k..]));
    if LateHeaderNext(filled, ns[j..]) {
      BegunJoined(ns, i, j, clipTop, filled);
      assert ns[j..][1..] == ns[j + 1..];
      spans := FinishOwners(ns, i, j + 1, clipTop, TakeLateHeader(filled, ns[j]));
    } else {
      var after := CardsOwners(ns, j, clipTop);
      spans := [(i, j)] + after;
      BegunOwns(ns, i, j, clipTop, filled);
      OneMoreOwner(ns, i, j, clipTop, Close(filled, ns[j..]), after, Cards(ns[j..], clipTop));
    }
  }

  lemma {:induction false} OneMoreOwner(ns: seq<Node>, i: nat, j: nat, clipTop: int, d: Post, spans: seq<(nat, nat)>,
                                        cards: seq<Post>)
    requires Owns(ns, i, j, clipTop, d) && Owners(ns, spans, clipTop, cards, j)
    ensures Owners(ns, [(i, j)] + spans, clipTop, [d] + cards, i)
  {
    assert i < j;
    hide Owns;
  }

  lemma {:induction false} JoinedHeader(ns: seq<Node>, i: nat, j: nat, c: Post)
    requires i < j < |ns| && OnlyItsOwn(c, ns[i + 1..j]) && LateHeaderNext(Grown(c, ns[i + 1..j]), ns[j..])
    ensures OnlyItsOwn(c, ns[i + 1..j + 1])
    ensures Grown(c, ns[i + 1..j + 1]) == TakeLateHeader(Grown(c, ns[i + 1..j]), ns[j])
  {
    GrownFurther(c, ns[i + 1..j], [ns[j]]);
    var grown := Grown(c, ns[i + 1..j]);
    assert [ns[j]][1..] == [];
    assert ns[j..][0] == ns[j];
    assert LateHeaderNext(grown, [ns[j]]);
    assert OnlyItsOwn(grown, [ns[j]]);
    assert ns[i + 1..j] + [ns[j]] == ns[i + 1..j + 1];
  }

  lemma {:induction false} CardsOwners(ns: seq<Node>, j: nat, clipTop: int) returns (spans: seq<(nat, nat)>)
    requires j <= |ns| && (j < |ns| ==> ns[j].Boundary())
    ensures Owners(ns, spans, clipTop, Cards(ns[j..], clipTop), j)
    decreases |ns| - j, 0
  {
    if j == |ns| {
      spans := [];
    } else {
      assert ns[j..][1..] == ns[j + 1..];
      if Open(ns[j], clipTop).Some? {
        assert ns[j + 1..j + 1] == [];
        spans := FinishOwners(ns, j, j + 1, clipTop, Open(ns[j], clipTop).value);
      } else {
        var next := j + 1 + |Body(ns[j + 1..])|;
        assert ns[next..] == Rest(ns[j + 1..]);
        spans := CardsOwners(ns, next, clipTop);
      }
    }
  }

  /** Every card of a screen is made of a run of nodes of its own, apart from every other card's. */
  lemma {:induction false} CardsOwnTheirNodes(ns: seq<Node>, clipTop: int) returns (spans: seq<(nat, nat)>)
    ensures Owners(FromList(ns), spans, clipTop, Cards(FromList(ns), clipTop), 0)
  {
    assert FromList(ns)[0..] == FromList(ns);
    spans := CardsOwners(FromList(ns), 0, clipTop);
  }

  // ---------------------------------------------------------------------------------------------
  // When a header is a card's own, said of its nodes

  /** Node `m` is taken for the media area: by its id, unless one with bounds came before. */
  predicate IsMedia(ns: seq<Node>, m: nat)
    requires m < |ns|
  {
    ns[m].mediaId && forall k | 0 <= k < m :: !(IsMedia(ns, k) && ns[k].bounds.Some?)
  }

  /** For the share button: by its id, unless it is the media area or a button with bounds came before. */
  predicate IsShare(ns: seq<Node>, m: nat)
    requires m < |ns|
  {
    ns[m].shareId && !IsMedia(ns, m) && forall k | 0 <= k < m :: !(IsShare(ns, k) && ns[k].bounds.Some?)
  }

  /** For the mute toggle of a card without a header: unless its kind is known from one, or from a description. */
  predicate IsMute(ns: seq<Node>, m: nat)
    requires m < |ns|
    decreases m, 0
  {
    && ns[m].muteToggle && !IsMedia(ns, m) && !IsShare(ns, m)
    && forall k | 0 <= k < m :: !(IsMute(ns, k) || (IsDescription(ns, k) && AltKind(ns[k].desc) != ""))
  }

  /** For the media description: if it is none of the above and none has been read before. */
  predicate IsDescription(ns: seq<Node>, m: nat)
    requires m < |ns|
    decreases m, 1
  {
    && ns[m].mediaAlt && !IsMedia(ns, m) && !IsShare(ns, m) && !IsMute(ns, m)
    && forall k | 0 <= k < m :: !(IsDescription(ns, k) && ns[k].desc != "")
  }

  /** For a caption that names the card's author or says anything. */
  predicate IsNamingCaption(ns: seq<Node>, m: nat)
    requires m < |ns|
  {
    && ns[m].captionClass && ns[m].text != ""
    && !IsMedia(ns, m) && !IsShare(ns, m) && !IsMute(ns, m) && !IsDescription(ns, m)
    && (ns[m].text[0] != ' ' || CleanCaption(ns[m].text, "") != "")
  }

  /** A description's first word, in any case. */
  predicate OpensWith(desc: string, word: string) {
    Words(desc) != [] && Lower(Words(desc)[0]) == word
  }

  predicate IsReelDescription(ns: seq<Node>, m: nat)
    requires m < |ns|
  {
    IsDescription(ns, m) && ns[m].desc != "" && (OpensWith(ns[m].desc, "reel") || OpensWith(ns[m].desc, "video"))
  }

  ghost predicate HasMedia(ns: seq<Node>) {
    exists m: nat :: m < |ns| && IsMedia(ns, m) && ns[m].bounds.Some?
  }

  ghost predicate HasShare(ns: seq<Node>) {
    exists m: nat :: m < |ns| && IsShare(ns, m) && ns[m].bounds.Some?
  }

  /** A share button with bounds to tap is among the nodes. */
  ghost predicate HasTappable(ns: seq<Node>) {
    exists m: nat :: m < |ns| && IsShare(ns, m) && ns[m].bounds.Some? && |ns[m].bounds.value| > 0
  }

  ghost predicate KnowsKind(ns: seq<Node>) {
    exists m: nat :: m < |ns| && (IsMute(ns, m) || (IsDescription(ns, m) && AltKind(ns[m].desc) != ""))
  }

  ghost predicate IsDescribed(ns: seq<Node>) {
    exists m: nat :: m < |ns| && IsDescription(ns, m) && ns[m].desc != ""
  }

  ghost predicate IsReel(ns: seq<Node>) {
    exists m: nat :: m < |ns| && IsReelDescription(ns, m)
  }

  ghost predicate IsNamed(ns: seq<Node>) {
    exists m: nat :: m < |ns| && IsNamingCaption(ns, m)
  }

  /** What a card is taken for does not depend on the nodes after it. */
  lemma {:induction false} SameRole(ns: seq<Node>, n: Node, m: nat)
    requires m < |ns|
    ensures IsMedia(ns + [n], m) == IsMedia(ns, m) && IsShare(ns + [n], m) == IsShare(ns, m)
    ensures IsMute(ns + [n], m) == IsMute(ns, m) && IsDescription(ns + [n], m) == IsDescription(ns, m)
    decreases m
  {
    forall k: nat | k < m
      ensures IsMedia(ns + [n], k) == IsMedia(ns, k) && IsShare(ns + [n], k) == IsShare(ns, k)
      ensures IsMute(ns + [n], k) == IsMute(ns, k) && IsDescription(ns + [n], k) == IsDescription(ns, k)
    {
      SameRole(ns, n, k);
    }
  }

  lemma {:induction false} SameRoles(ns: seq<Node>, n: Node)
    ensures forall m: nat | m < |ns| ::
              && (ns + [n])[m] == ns[m]
              && IsMedia(ns + [n], m) == IsMedia(ns, m) && IsShare(ns + [n], m) == IsShare(ns, m)
              && IsMute(ns + [n], m) == IsMute(ns, m) && IsDescription(ns + [n], m) == IsDescription(ns, m)
              && IsNamingCaption(ns + [n], m) == IsNamingCaption(ns, m)
              && IsReelDescription(ns + [n], m) == IsReelDescription(ns, m)
  {
    forall m: nat | m < |ns|
      ensures IsMedia(ns + [n], m) == IsMedia(ns, m) && IsShare(ns + [n], m) == IsShare(ns, m)
      ensures IsMute(ns + [n], m) == IsMute(ns, m) && IsDescription(ns + [n], m) == IsDescription(ns, m)
    {
      SameRole(ns, n, m);
    }
    hide IsMedia, IsShare, IsMute, IsDescription;
  }

  /** What one more node is taken for, from what has been read. */
  lemma {:induction false} RoleOfNext(ns: seq<Node>, n: Node)
    ensures var all, m := ns + [n], |ns|;
            && all[m] == n
            && (IsMedia(all, m) <==> n.mediaId && !HasMedia(ns))
            && (IsShare(all, m) <==> n.shareId && !IsMedia(all, m) && !HasShare(ns))
            && (IsMute(all, m) <==> n.muteToggle && !IsMedia(all, m) && !IsShare(all, m) && !KnowsKind(ns))
            && (IsDescription(all, m) <==>
                  n.mediaAlt && !IsMedia(all, m) && !IsShare(all, m) && !IsMute(all, m) && !IsDescribed(ns))
  {
    SameRoles(ns, n);
    hide AltKind;
  }

  /** What one more node adds to what has been read. */
  lemma {:induction false} ReadOneMore(ns: seq<Node>, n: Node)
    ensures var all, m := ns + [n], |ns|;
            && (HasMedia(all) <==> HasMedia(ns) || (IsMedia(all, m) && n.bounds.Some?))
            && (HasShare(all) <==> HasShare(ns) || (IsShare(all, m) && n.bounds.Some?))
            && (HasTappable(all) <==> HasTappable(ns) || (IsShare(all, m) && Truthy(n.bounds)))
            && (IsNamed(all) <==> IsNamed(ns) || IsNamingCaption(all, m))
            && (IsReel(all) <==> IsReel(ns) || IsReelDescription(all, m))
  {
    SameRoles(ns, n);
    hide IsMedia, IsShare, IsMute, IsDescription, IsNamingCaption, IsReelDescription;
    var all, m := ns + [n], |ns|;
    assert all[m] == n;
    forall k: nat | k < |ns| && IsMedia(ns, k) && ns[k].bounds.Some?
      ensures HasMedia(all) { assert IsMedia(all, k); }
    forall k: nat | k < |ns| && IsShare(ns, k) && ns[k].bounds.Some?
      ensures HasShare(all) { assert IsShare(all, k); }
    forall k: nat | k < |ns| && IsShare(ns, k) && ns[k].bounds.Some? && |ns[k].bounds.value| > 0
      ensures HasTappable(all) { assert IsShare(all, k); }
    forall k: nat | k < |ns| && IsNamingCaption(ns, k)
      ensures IsNamed(all) { assert IsNamingCaption(all, k); }
    forall k: nat | k < |ns| && IsReelDescription(ns, k)
      ensures IsReel(all) { assert IsReelDescription(all, k); }
  }

  lemma {:induction false} KnownOneMore(ns: seq<Node>, n: Node)
    ensures var all, m := ns + [n], |ns|;
            && (KnowsKind(all) <==> KnowsKind(ns) || IsMute(all, m) || (IsDescription(all, m) && AltKind(n.desc) != ""))
            && (IsDescribed(all) <==> IsDescribed(ns) || (IsDescription(all, m) && n.desc != ""))
  {
    SameRoles(ns, n);
    hide IsMedia, IsShare, IsMute, IsDescription, AltKind;
    var all, m := ns + [n], |ns|;
    assert all[m] == n;
    forall k: nat | k < |ns| && (IsMute(ns, k) || (IsDescription(ns, k) && AltKind(ns[k].desc) != ""))
      ensures KnowsKind(all) { assert IsMute(all, k) == IsMute(ns, k); }
    forall k: nat | k < |ns| && IsDescription(ns, k) && ns[k].desc != ""
      ensures IsDescribed(all) { assert IsDescription(all, k); }
  }

  predicate SaysReel(desc: string) {
    desc != "" && (OpensWith(desc, "reel") || OpensWith(desc, "video"))
  }

  /** A top card's fields as the nodes read have left them. */
  ghost predicate Reflects(c: Post, ns: seq<Node>) {
    && c.headless && c.kind != "post"
    && (c.bounds.Some? <==> HasMedia(ns)) && (c.shareBounds.Some? <==> HasShare(ns))
    && (Truthy(c.shareBounds) <==> HasTappable(ns)) && (c.kind != "" <==> KnowsKind(ns))
    && (c.alt != "" <==> IsDescribed(ns)) && (SaysReel(c.alt) <==> IsReel(ns))
    && (c.username == "" && c.caption == "" <==> !IsNamed(ns))
  }

  /** The ordered choice over the card's fields is the choice over its nodes. */
  lemma {:induction false} SlotIsRole(c: Post, ns: seq<Node>, n: Node)
    requires Reflects(c, ns)
    ensures var all, m, slot := ns + [n], |ns|, SlotFor(c, n);
            && (slot == MediaArea <==> IsMedia(all, m)) && (slot == ShareButton <==> IsShare(all, m))
            && (slot == MuteToggle <==> IsMute(all, m)) && (slot == Description <==> IsDescription(all, m))
            && all[m] == n && (slot == Caption ==> c.caption == "")
            && (IsNamingCaption(all, m) && !IsNamed(ns) ==> slot == Caption)
            && (slot == Caption && (n.text[0] != ' ' || CleanCaption(n.text, "") != "") ==> IsNamingCaption(all, m))
            && (slot == Caption ==> n.text != "")
  {
    RoleOfNext(ns, n);
    hide HasMedia, HasShare, HasTappable, KnowsKind, IsDescribed, IsReel, IsNamed, CleanCaption, SaysReel;
    hide IsMedia, IsShare, IsMute, IsDescription;
  }

  /** What the nodes read come to when one more fills a slot. */
  ghost predicate ReadInto(ns: seq<Node>, n: Node, slot: Slot)
    requires slot == Caption ==> n.text != ""
  {
    var all := ns + [n];
    && (HasMedia(all) <==> HasMedia(ns) || (slot == MediaArea && n.bounds.Some?))
    && (HasShare(all) <==> HasShare(ns) || (slot == ShareButton && n.bounds.Some?))
    && (HasTappable(all) <==> HasTappable(ns) || (slot == ShareButton && Truthy(n.bounds)))
    && (KnowsKind(all) <==>
          KnowsKind(ns) || slot == MuteToggle || (slot == Description && AltKind(n.desc) != ""))
    && (IsDescribed(all) <==> IsDescribed(ns) || (slot == Description && n.desc != ""))
    && (IsReel(all) <==> IsReel(ns) || (slot == Description && SaysReel(n.desc)))
    && (IsNamed(all) <==>
          IsNamed(ns) || (slot == Caption && (n.text[0] != ' ' || CleanCaption(n.text, "") != "")))
  }

  lemma {:induction false} NextIsRead(c: Post, ns: seq<Node>, n: Node)
    requires Reflects(c, ns)
    ensures (SlotFor(c, n) == Caption ==> n.text != "" && c.caption == "") && ReadInto(ns, n, SlotFor(c, n))
  {
    SlotIsRole(c, ns, n);
    ReadOneMore(ns, n);
    KnownOneMore(ns, n);
    hide HasMedia, HasShare, HasTappable, KnowsKind, IsDescribed, IsReel, IsNamed, AltKind, CleanCaption, OpensWith;
    hide IsMedia, IsShare, IsMute, IsDescription, IsNamingCaption, SlotFor, Truthy, Reflects;
  }

  lemma {:induction false} ReflectsOneMore(c: Post, ns: seq<Node>, n: Node)
    requires Reflects(c, ns)
    ensures Reflects(Fill(c, n), ns + [n])
  {
    NextIsRead(c, ns, n);
    KindOfAlt(n.desc);
    hide HasMedia, HasShare, HasTappable, KnowsKind, IsDescribed, IsReel, IsNamed, AltKind, CleanCaption, SaysReel;
    if SlotFor(c, n) == Caption {
      CaptionNames(c, ns, n);
      hide FillCaption, SlotFor;
      FillCaptionElse(c, n);
    }
  }

  lemma {:induction false} FillCaptionElse(c: Post, n: Node)
    ensures var d := FillCaption(c, n);
            d.headless == c.headless && d.kind == c.kind && d.bounds == c.bounds && d.shareBounds == c.shareBounds
            && d.alt == c.alt
  {
    hide CleanCaption;
  }

  lemma {:induction false} CaptionNames(c: Post, ns: seq<Node>, n: Node)
    requires c.headless && (c.username == "" && c.caption == "" <==> !IsNamed(ns)) && c.caption == "" && n.text != ""
    ensures var d := FillCaption(c, n);
            d.username == "" && d.caption == "" <==>
              !(IsNamed(ns) || n.text[0] != ' ' || CleanCaption(n.text, "") != "")
  {
    FirstField(n.text);
    hide CleanCaption, IsNamed;
  }

  /** A top card's fields, read up to some node, say about the nodes what the parser goes by. */
  lemma {:induction false} ReflectsAll(c: Post, body: seq<Node>)
    requires c == NewPost("", "", "", "", c.clipTop).(headless := true)
    ensures Reflects(FillAll(c, body), body)
    decreases |body|
  {
    if body == [] {
      assert !SaysReel("");
    } else {
      var most, n := body[..|body| - 1], body[|body| - 1];
      ReflectsAll(c, most);
      assert body == most + [n];
      FillAllAppend(c, most, n);
      ReflectsOneMore(FillAll(c, most), most, n);
    }
  }

  lemma {:induction false} FillAllAppend(c: Post, ns: seq<Node>, n: Node)
    ensures FillAll(c, ns + [n]) == Fill(FillAll(c, ns), n)
    decreases |ns|
  {
    if ns == [] {
      assert ns + [n] == [n] && [n][1..] == [];
      assert FillAll(Fill(c, n), []) == Fill(c, n);
    } else {
      assert (ns + [n])[1..] == ns[1..] + [n];
      FillAllAppend(Fill(c, ns[0]), ns[1..], n);
    }
  }

  /** On screen from the list on there is nothing but a Reel's leading media: no caption to name it, no share button
      to tap. */
  ghost predicate OnlyLeadingReel(body: seq<Node>) {
    IsReel(body) && !IsNamed(body) && !HasTappable(body)
  }

  lemma {:induction false} TopCardWaits(n: Node, clipTop: int, body: seq<Node>, h: Node)
    requires n.listId
    ensures IsLateHeader(FillAll(Open(n, clipTop).value, body), h) <==> h.header.Some? && OnlyLeadingReel(body)
  {
    var c := Open(n, clipTop).value;
    ReflectsAll(c, body);
    LeadOpens(FillAll(c, body).alt);
    hide FillAll, HasMedia, HasShare, HasTappable, KnowsKind, IsDescribed, IsReel, IsNamed, Lead, OpensWith;
  }

  lemma {:induction false} LeadOpens(alt: string)
    ensures Lead(alt) == "reel" <==> OpensWith(alt, "reel")
    ensures Lead(alt) == "video" <==> OpensWith(alt, "video")
  {
  }

  lemma {:induction false} HeadedNeverWaits(n: Node, clipTop: int, body: seq<Node>, h: Node)
    requires n.headerId && !n.listId && n.header.Some?
    ensures !IsLateHeader(FillAll(Open(n, clipTop).value, body), h)
  {
    NeverHeadless(Open(n, clipTop).value, body);
  }

  /**
   Which headers join a card instead of ending it. The first boundary after a card's start joins it if and only if
   the card was started by the list, the boundary is a header whose description could be read, and the nodes between
   are a Reel's leading media alone: a reel or video description, no caption that says anything or names anyone, and no
   share button with bounds. A second boundary never does.
   */
  lemma {:induction false} JoiningHeader(ns: seq<Node>, i: nat, j: nat, clipTop: int, d: Post, k: nat)
    requires Owns(ns, i, j, clipTop, d) && i < k <= j && k < |ns|
    requires ns[k].Boundary() && forall m | i < m < k :: !ns[m].Boundary()
    ensures k < j <==>
            && ns[i].listId && ns[k].headerId && !ns[k].listId && ns[k].header.Some?
            && OnlyLeadingReel(ns[i + 1..k])
    ensures forall l | k < l < j :: !ns[l].Boundary()
  {
    var c := Open(ns[i], clipTop).value;
    var own, body := ns[i + 1..j], ns[i + 1..k];
    assert own == body + ns[k..j];
    GrownByBody(c, body);
    GrownFurther(c, body, ns[k..j]);
    OwnSplits(c, body, ns[k..j]);
    if ns[i].listId {
      TopCardWaits(ns[i], clipTop, body, ns[k]);
    } else {
      HeadedNeverWaits(ns[i], clipTop, body, ns[k]);
    }
    hide Fill, FillAll, IsReel, IsNamed, HasTappable, IsLateHeader, Open, Close;
    if k < j {
      assert ns[k..j][0] == ns[k] && ns[k..j][1..] == ns[k + 1..j];
      assert LateHeaderNext(FillAll(c, body), ns[k..j]);
      JoinedTakesNoMore(TakeLateHeader(FillAll(c, body), ns[k]), ns[k + 1..j]);
      forall l | k < l < j
        ensures !ns[l].Boundary()
      {
        assert ns[l] == ns[k + 1..j][l - k - 1];
      }
    } else {
      assert ns[k..j] == [] && ns[j..][0] == ns[k];
    }
  }

  /** A card is known by its header, wherever that was: author, time and place are the joining header's if one joined,
      and the starting header's, with its kind, if the card was started by one. */
  lemma {:induction false} KnownByItsHeader(ns: seq<Node>, i: nat, j: nat, clipTop: int, d: Post, k: nat)
    requires Owns(ns, i, j, clipTop, d) && i <= k < j && ns[k].headerId && !ns[k].listId
    ensures ns[k].header.Some?
    ensures var h := ns[k].header.value;
            && d.username == h.user && d.postedDate == h.date && d.place == h.place && d.headerBounds == ns[k].bounds
            && !d.headless && (d.mergedReel <==> i < k) && (k == i ==> d.kind == Lower(h.kind))
  {
    var c, own := Open(ns[i], clipTop).value, ns[i + 1..j];
    if k == i {
      GrownExtends(c, own);
    } else {
      assert own == ns[i + 1..k] + ns[k..j] && ns[k..j][0] == ns[k] && ns[k..j][1..] == ns[k + 1..j];
      OwnSplits(c, ns[i + 1..k], ns[k..j]);
      GrownFurther(c, ns[i + 1..k], ns[k..j]);
      var waiting := Grown(c, ns[i + 1..k]);
      assert LateHeaderNext(waiting, ns[k..j]);
      GrownExtends(TakeLateHeader(waiting, ns[k]), ns[k + 1..j]);
    }
    hide Fill, Grown, OnlyItsOwn, IsLateHeader;
  }

  lemma {:induction false} GrownExtends(c: Post, own: seq<Node>)
    requires !c.headless && OnlyItsOwn(c, own)
    ensures Extends(c, Grown(c, own))
    decreases |own|
  {
    if own != [] {
      FillExtends(c, own[0]);
      var d := Fill(c, own[0]);
      GrownExtends(d, own[1..]);
      ExtendsTransitively(c, d, Grown(d, own[1..]));
    }
  }

  /** The header that ends a card vouches for its bottom: the card is complete if it was, or if its share button can be
      tapped and what ends it is a header. Nothing else of it changes at its end. */
  lemma {:induction false} EndedByAHeader(ns: seq<Node>, i: nat, j: nat, clipTop: int, d: Post)
    requires Owns(ns, i, j, clipTop, d)
    ensures var grown := Grown(Open(ns[i], clipTop).value, ns[i + 1..j]);
            && d == grown.(complete := d.complete)
            && (d.complete <==>
                  grown.complete || (j < |ns| && !ns[j].listId && d.shareBounds.Some? && |d.shareBounds.value| > 0))
  {
    hide Grown, Open, OnlyItsOwn;
  }

  lemma {:induction false} OwnSplits(c: Post, own: seq<Node>, more: seq<Node>)
    requires OnlyItsOwn(c, own + more)
    ensures OnlyItsOwn(c, own) && OnlyItsOwn(Grown(c, own), more)
    decreases |own|
  {
    if own == [] {
      assert own + more == more;
    } else {
      assert (own + more)[1..] == own[1..] + more && (own + more)[0] == own[0];
      OwnSplits(Advance(c, own[0]), own[1..], more);
    }
  }

  /** A card that has its header takes no other. */
  lemma {:induction false} JoinedTakesNoMore(c: Post, own: seq<Node>)
    requires !c.headless && OnlyItsOwn(c, own)
    ensures forall n | n in own :: !n.Boundary()
    decreases |own|
  {
    if own != [] {
      FillExtends(c, own[0]);
      JoinedTakesNoMore(Advance(c, own[0]), own[1..]);
    }
  }

  lemma {:induction false} KindOfAlt(desc: string)
    ensures AltKind(desc) != "post"
  {
  }

  lemma {:induction false} FirstField(text: string)
    ensures text != "" ==> (Until(text, ' ') != "" <==> text[0] != ' ')
  {
  }

  // ---------------------------------------------------------------------------------------------
  // What completeness stands for

  /** A share button with these bounds is among the nodes. */
  ghost predicate SharesAt(ns: seq<Node>, bounds: Option<string>) {
    exists n :: n in ns && n.shareId && n.bounds == bounds
  }

  /** A card's share bounds are those of a share button among its nodes, and it is only complete with one: with
      bounds to tap, unless it is a collaborator Reel. */
  ghost predicate SoundlyComplete(c: Post, own: seq<Node>) {
    && (c.shareBounds.Some? ==> SharesAt(own, c.shareBounds))
    && (c.complete ==> SharesAt(own, c.shareBounds) && (Truthy(c.shareBounds) || c.mergedReel))
  }

  lemma {:induction false} GrownSound(c: Post, seen: seq<Node>, own: seq<Node>)
    requires SoundlyComplete(c, seen)
    ensures SoundlyComplete(Grown(c, own), seen + own)
    decreases |own|
  {
    if own == [] {
      assert seen + own == seen;
    } else {
      AdvanceSound(c, seen, own[0]);
      GrownSound(Advance(c, own[0]), seen + [own[0]], own[1..]);
      assert seen + [own[0]] + own[1..] == seen + own;
    }
  }

  lemma {:induction false} AdvanceSound(c: Post, seen: seq<Node>, n: Node)
    requires SoundlyComplete(c, seen)
    ensures SoundlyComplete(Advance(c, n), seen + [n])
  {
    hide CleanCaption, AltKind;
    var now := seen + [n];
    assert n in now;
    assert n.shareId ==> SharesAt(now, n.bounds);
    if SharesAt(seen, c.shareBounds) {
      var m :| m in seen && m.shareId && m.bounds == c.shareBounds;
      assert m in now;
    }
  }

  /** A card's own nodes: a complete card has its share button among them. */
  ghost predicate Vouched(ns: seq<Node>, i: int, j: int, clipTop: int, c: Post) {
    && (exists d :: Owns(ns, i, j, clipTop, d) && c == NameKind(d))
    && 0 <= i < j <= |ns| && SoundlyComplete(c, ns[i..j])
  }

  ghost predicate HasOwnNodes(ns: seq<Node>, clipTop: int, c: Post) {
    exists i, j :: Vouched(ns, i, j, clipTop, c)
  }

  lemma {:induction false} OwnedIsVouched(ns: seq<Node>, i: int, j: int, clipTop: int, d: Post)
    requires Owns(ns, i, j, clipTop, d)
    ensures Vouched(ns, i, j, clipTop, NameKind(d))
  {
    var c := Open(ns[i], clipTop).value;
    GrownSound(c, [ns[i]], ns[i + 1..j]);
    assert [ns[i]] + ns[i + 1..j] == ns[i..j];
  }

  /** Every card a screen returns has an author and a caption or media description, and is complete only with a
      share button among its own nodes, whose bounds are the card's. */
  lemma {:induction false} ScreenCardsAreIdentified(ns: seq<Node>)
    ensures forall c | c in Screen(ns) :: Identified(c) && HasOwnNodes(FromList(ns), ClipTop(ns), c)
  {
    hide Vouched, Identified, Owns, SoundlyComplete, Cards, FromList, ClipTop;
    var shown, clipTop := FromList(ns), ClipTop(ns);
    var spans := CardsOwnTheirNodes(ns, clipTop);
    var cards := Cards(shown, clipTop);
    KeptFrom(cards);
    forall c | c in Screen(ns)
      ensures Identified(c) && HasOwnNodes(shown, clipTop, c)
    {
      var d :| d in cards && c == NameKind(d);
      var t :| 0 <= t < |cards| && cards[t] == d;
      OwnedIsVouched(shown, spans[t].0, spans[t].1, clipTop, d);
      assert Vouched(shown, spans[t].0, spans[t].1, clipTop, c);
    }
  }

  /** Exactly the cards with an author, and a caption or description, are returned; one without a header whose kind
      nothing told is called a post. */
  lemma {:induction false} KeptExactly(cs: seq<Post>)
    ensures forall c ::
              c in Kept(cs) <==>
                exists d | d in cs && |d.username| > 0 && (|d.caption| > 0 || |d.alt| > 0) ::
                  c == if d.headless && |d.kind| == 0 then d.(kind := "post") else d
  {
    if cs != [] {
      KeptExactly(cs[1..]);
      assert forall d :: d in cs <==> d == cs[0] || d in cs[1..];
    }
  }

  lemma {:induction false} KeptFrom(cs: seq<Post>)
    ensures forall c | c in Kept(cs) :: Identified(c) && exists d | d in cs :: c == NameKind(d)
  {
    if cs != [] {
      KeptFrom(cs[1..]);
    }
  }

  /** The bounds of the first share button that has any. */
  function FirstShareBounds(ns: seq<Node>): Option<string> {
    if ns == [] then None
    else if ns[0].shareId && ns[0].bounds.Some? then ns[0].bounds
    else FirstShareBounds(ns[1..])
  }

  /**
   A collaborator Reel is complete exactly with a share button after its header, whatever its bounds: so it is
   complete with nothing to tap exactly when no share button seen has bounds. (A media area is never a share button.)
   */
  lemma {:induction false} ReelCompletesWithItsShareButton(c: Post, body: seq<Node>)
    requires c.mergedReel && c.shareBounds.None? && !c.complete
    requires forall n | n in body :: !(n.mediaId && n.shareId)
    ensures FillAll(c, body).complete <==> exists n :: n in body && n.shareId
    ensures FillAll(c, body).shareBounds == FirstShareBounds(body)
  {
    ReelShares(c, body);
  }

  lemma {:induction false} ReelShares(c: Post, body: seq<Node>)
    requires c.mergedReel && (c.shareBounds.Some? ==> c.complete)
    requires forall n | n in body :: !(n.mediaId && n.shareId)
    ensures FillAll(c, body).complete <==> c.complete || exists n :: n in body && n.shareId
    ensures FillAll(c, body).shareBounds == if c.shareBounds.Some? then c.shareBounds else FirstShareBounds(body)
    decreases |body|
  {
    if body != [] {
      var n, rest := body[0], body[1..];
      assert n in body;
      ReelShares(Fill(c, n), rest);
      assert forall m :: m in body <==> m == n || m in rest;
    }
  }

  function PlainNode(): Node {
    Node(false, false, None, false, None, false, false, false, false, false, false, false, None, "", "")
  }

  /** Such a card: a Reel's media description, its header, and a share button without bounds. */
  lemma {:induction false} ReelWithNothingToTap()
    ensures exists ns, c :: c in Screen(ns) && c.complete && c.shareBounds.None?
  {
    var top := PlainNode().(listId := true);
    var alt := PlainNode().(mediaAlt := true, desc := "reel");
    var header := PlainNode().(headerId := true, header := Some(Header("a", "video", "1 day ago", "")));
    var share := PlainNode().(shareId := true);
    var ns := [top, alt, header, share];
    var empty := NewPost("", "", "", "", 0).(headless := true);
    var reel := Fill(empty, alt);
    ReelWord();
    assert ns[1..] == [alt, header, share] && ns[1..][1..] == [header, share] && [header, share][1..] == [share]
      && [share][1..] == [];
    assert Body([header, share]) == [] && Body(ns[1..]) == [alt];
    assert Rest(ns[1..]) == [header, share];
    assert FillAll(empty, [alt]) == reel by { assert [alt][1..] == []; }
    assert LateHeaderNext(reel, [header, share]);
    var joined := TakeLateHeader(reel, header);
    var done := Fill(joined, share);
    assert Body([]) == [] && Body([share]) == [share] && Rest([share]) == [];
    assert FillAll(joined, [share]) == done;
    assert Finish(joined, [share], 0) == [done] + Cards([], 0) == [done];
    assert Cards(ns, 0) == Finish(empty, ns[1..], 0) == [done];
    assert FromList(ns) == ns;
    assert ClipTop(ns) == 0 by {
      assert ClipTop([]) == 0 && ClipTop([share]) == 0 && ClipTop([header, share]) == 0 && ClipTop(ns[1..]) == 0;
    }
    assert Screen(ns) == Kept([done]) == [done] + Kept([]) by { assert [done][1..] == []; }
    assert done in Screen(ns);
  }

  lemma {:induction false} ReelWord()
    ensures Lead("reel") == "reel"
  {
    assert Run("") == "" && Run("l") == "l" && Run("el") == "el" && Run("eel") == "eel" && Run("reel") == "reel";
    assert "reel"[4..] == "";
    assert Words("reel") == ["reel"];
    assert Lower("reel") == "reel";
  }
}
