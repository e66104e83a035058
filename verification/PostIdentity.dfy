/**
 What identifies a post: the key a card is hashed under, and the caption comparisons that decide whether
 two sightings are one post. What hashes a key is any function of it.
 */
module PostIdentity {
  import opened Text
  import opened CardParser

  /** Longer captions are cut to this before hashing. */
  const CAPTION_KEY_CHARS: nat := 40

  const ELLIPSIS: char := '…'

  function Flat(s: string): string {
    Join(Words(s), " ")
  }

  /** A caption with its truncation marker dropped, as `flat_caption` shows it collapsed. */
  function FlatCaption(caption: string): string {
    Flat(RTrim(caption, ELLIPSIS))
  }

  /** The line of a caption that counts: the first, without a truncation marker. */
  function FirstLine(caption: string): string {
    Until(RTrim(caption, ELLIPSIS), '\n')
  }

  function CaptionKey(caption: string): string {
    Truncate(Flat(FirstLine(caption)), CAPTION_KEY_CHARS)
  }

  function WithoutDigits(s: string): string {
    if s == [] then [] else (if '0' <= s[0] <= '9' then [] else [s[0]]) + WithoutDigits(s[1..])
  }

  function AltKey(alt: string): string {
    WithoutDigits(Until(alt, ','))
  }

  /** What a card is hashed under. */
  function PostKey(p: Post): string {
    p.username + "|" + if p.caption != "" then CaptionKey(p.caption) else AltKey(p.alt)
  }

  /** Of a media description no digit counts, nor anything from the first comma on; all else does. */
  lemma {:induction false} WhatCountsOfAlt(a: string, b: string, d: char)
    ensures '0' <= d <= '9' ==> AltKey(a + [d] + b) == AltKey(a + b)
    ensures AltKey(a + "," + b) == AltKey(a)
    ensures (forall i | 0 <= i < |a| :: a[i] != ',' && !('0' <= a[i] <= '9')) ==> AltKey(a) == a
  {
    if '0' <= d <= '9' {
      DigitsDontCount(a, b, d);
    }
    UntilComma(a, b);
    if forall i | 0 <= i < |a| :: a[i] != ',' && !('0' <= a[i] <= '9') {
      PlainAlt(a);
    }
  }

  lemma {:induction false} UntilComma(a: string, b: string)
    ensures Until(a + "," + b, ',') == Until(a, ',')
    decreases |a|
  {
    if a != "" && a[0] != ',' {
      assert (a + "," + b)[1..] == a[1..] + "," + b;
      UntilComma(a[1..], b);
    }
  }

  lemma {:induction false} DigitsDontCount(a: string, b: string, d: char)
    requires '0' <= d <= '9'
    ensures AltKey(a + [d] + b) == AltKey(a + b)
    decreases |a|
  {
    if a == "" {
      assert ([] + [d] + b)[1..] == b && [] + b == b;
      assert ([d] + Until(b, ','))[1..] == Until(b, ',');
    } else if a[0] != ',' {
      assert (a + [d] + b)[1..] == a[1..] + [d] + b && (a + b)[1..] == a[1..] + b;
      DigitsDontCount(a[1..], b, d);
      assert ([a[0]] + Until(a[1..] + [d] + b, ','))[1..] == Until(a[1..] + [d] + b, ',');
      assert ([a[0]] + Until(a[1..] + b, ','))[1..] == Until(a[1..] + b, ',');
    }
  }

  lemma {:induction false} PlainAlt(a: string)
    requires forall i | 0 <= i < |a| :: a[i] != ',' && !('0' <= a[i] <= '9')
    ensures AltKey(a) == a
    decreases |a|
  {
    if a != "" {
      PlainAlt(a[1..]);
      assert ([a[0]] + Until(a[1..], ','))[1..] == Until(a[1..], ',');
      assert a == [a[0]] + a[1..];
    }
  }

  /** Two cards have one key exactly if they have one author (whose name has no bar in it) and their captions, or else
      their descriptions, one key. */
  lemma {:induction false} KeyIsAuthorAndText(p: Post, q: Post)
    requires '|' !in p.username && '|' !in q.username
    ensures PostKey(p) == PostKey(q) <==>
            p.username == q.username
            && (if p.caption != "" then CaptionKey(p.caption) else AltKey(p.alt))
               == (if q.caption != "" then CaptionKey(q.caption) else AltKey(q.alt))
  {
    var a := if p.caption != "" then CaptionKey(p.caption) else AltKey(p.alt);
    var b := if q.caption != "" then CaptionKey(q.caption) else AltKey(q.alt);
    hide CaptionKey, AltKey;
    UntilBar(p.username, a);
    UntilBar(q.username, b);
    assert a == PostKey(p)[|p.username| + 1..] && b == PostKey(q)[|q.username| + 1..];
  }

  lemma {:induction false} UntilBar(user: string, text: string)
    requires '|' !in user
    ensures Until(user + "|" + text, '|') == user
    decreases |user|
  {
    if user != "" {
      assert (user + "|" + text)[1..] == user[1..] + "|" + text;
      UntilBar(user[1..], text);
      assert user == [user[0]] + user[1..];
    }
  }

  predicate WordChar(c: char) {
    'a' <= c <= 'z' || 'A' <= c <= 'Z' || '0' <= c <= '9' || c == '_'
  }

  /** Whether `s` (lower case) opens with `head` as a whole word and says "by" as a word later on its first line. */
  predicate Credits(s: string, head: string) {
    && head <= s
    && (|head| == |s| || !WordChar(s[|head|]))
    && exists j | |head| < j <= |s| :: SaysBy(s, |head|, j)
  }

  predicate SaysBy(s: string, from: nat, j: nat) {
    && from < j && j + 2 <= |s| && s[j..j + 2] == "by"
    && !WordChar(s[j - 1]) && (j + 2 == |s| || !WordChar(s[j + 2]))
    && '\n' !in s[from..j]
  }

  /** A caption that is only Instagram's media description, or missing. */
  predicate IsWeak(caption: string) {
    || caption == ""
    || (var s := Lower(caption);
        Credits(s, "photo") || Credits(s, "video") || Credits(s, "reel") || Credits(s, "image")
          || Credits(s, "carousel"))
  }

  /** ASCII letters, digits and the underscore, by their codes. */
  lemma {:induction false} WordChars(c: char)
    ensures WordChar(c) <==>
            var n := c as int;
            n in {95} || (48 <= n && n < 58) || (65 <= n && n < 91) || (97 <= n && n < 123)
  {
  }

  /** A kind of media, then, on its line and apart from it and from what follows, "by". */
  ghost predicate NamesAuthor(s: string, kind: string, gap: string, rest: string) {
    && s == kind + gap + "by" + rest
    && gap != "" && !WordChar(gap[0]) && !WordChar(gap[|gap| - 1]) && '\n' !in gap
    && (rest == "" || !WordChar(rest[0]))
  }

  /** A caption is weak exactly if there is none, or it opens, in any case, with a kind of media that is then said to be
      by someone. */
  lemma {:induction false} WeakCaptions(caption: string)
    ensures IsWeak(caption) <==>
            || caption == ""
            || exists kind, gap, rest ::
                 kind in ["photo", "video", "reel", "image", "carousel"] && NamesAuthor(Lower(caption), kind, gap, rest)
  {
    var kinds := ["photo", "video", "reel", "image", "carousel"];
    var s := Lower(caption);
    CreditsNames(s, "photo");
    CreditsNames(s, "video");
    CreditsNames(s, "reel");
    CreditsNames(s, "image");
    CreditsNames(s, "carousel");
    assert kinds[0] == "photo" && kinds[1] == "video" && kinds[2] == "reel" && kinds[3] == "image"
           && kinds[4] == "carousel";
    hide Credits, NamesAuthor;
  }

  lemma {:induction false} CreditsNames(s: string, kind: string)
    requires kind != "" && WordChar(kind[|kind| - 1])
    ensures Credits(s, kind) <==> exists gap, rest :: NamesAuthor(s, kind, gap, rest)
  {
    if Credits(s, kind) {
      var j :| |kind| < j <= |s| && SaysBy(s, |kind|, j);
      assert NamesAuthor(s, kind, s[|kind|..j], s[j + 2..]);
    }
    if exists gap, rest :: NamesAuthor(s, kind, gap, rest) {
      var gap, rest :| NamesAuthor(s, kind, gap, rest);
      var j := |kind| + |gap|;
      assert s[|kind|..j] == gap && s[j..j + 2] == "by" && s[j + 2..] == rest;
      assert s[|kind|] == gap[0] && s[j - 1] == gap[|gap| - 1];
      assert SaysBy(s, |kind|, j);
    }
  }

  predicate SameCaption(stored: string, shown: string) {
    || IsWeak(stored) || IsWeak(shown)
    || (var a, b := FlatCaption(stored), FlatCaption(shown); a != "" && b != "" && (a <= b || b <= a))
  }

  // ---------------------------------------------------------------------------------------------

  /** Real captions are the same if, flattened, they agree as far as both go and there is something of either. */
  lemma {:induction false} SameCaptionMeans(stored: string, shown: string)
    ensures IsWeak(stored) || IsWeak(shown) ==> SameCaption(stored, shown)
    ensures !IsWeak(stored) && !IsWeak(shown) ==>
              var a, b := FlatCaption(stored), FlatCaption(shown);
              SameCaption(stored, shown) <==>
                |a| > 0 && |b| > 0 && forall i | 0 <= i < |a| && i < |b| :: a[i] == b[i]
  {
    var a, b := FlatCaption(stored), FlatCaption(shown);
    hide IsWeak, FlatCaption;
    if forall i | 0 <= i < |a| && i < |b| :: a[i] == b[i] {
      assert |a| <= |b| ==> a == b[..|a|];
      assert |b| <= |a| ==> b == a[..|b|];
    }
  }

  lemma {:induction false} WordsOfRun(s: string)
    requires s != [] && forall i | 0 <= i < |s| :: !IsSpace(s[i])
    ensures Run(s) == s && Words(s) == [s]
  {
    if |s| == 1 {
      assert s == [s[0]] + Run(s[1..]);
    } else {
      WordsOfRun(s[1..]);
      assert s == [s[0]] + s[1..];
    }
    assert s[|s|..] == [];
  }

  lemma {:induction false} RunOfLonger(a: string, b: string)
    requires a <= b && |a| > |Run(b)|
    ensures Run(a) == Run(b)
  {
    if !IsSpace(b[0]) {
      assert a[0] == b[0] && a[1..] <= b[1..];
      RunOfLonger(a[1..], b[1..]);
    }
  }

  lemma {:induction false} FlatEmpty(s: string)
    ensures Flat(s) == "" <==> Words(s) == []
  {
    if Words(s) != [] {
      assert IsWord(Words(s)[0]);
    }
  }

  lemma {:induction false} FlatFirst(s: string)
    requires s != [] && !IsSpace(s[0])
    ensures var w := Run(s); var rest := s[|w|..];
            Run(s) != [] && Flat(s) == if Flat(rest) == "" then w else w + " " + Flat(rest)
  {
    var w := Run(s);
    assert w == [s[0]] + Run(s[1..]);
    var rest := Words(s[|w|..]);
    FlatEmpty(s[|w|..]);
    assert ([w] + rest)[1..] == rest;
  }

  lemma {:induction false} FlatOfRun(s: string)
    requires forall i | 0 <= i < |s| :: !IsSpace(s[i])
    ensures Flat(s) == s
  {
    if s != [] {
      WordsOfRun(s);
    }
  }

  /** Flattening keeps "starts with". */
  lemma {:induction false} FlatPrefix(a: string, b: string)
    requires a <= b
    ensures Flat(a) <= Flat(b)
    decreases |b|
  {
    if a == [] {
    } else if IsSpace(b[0]) {
      assert a[1..] <= b[1..];
      FlatPrefix(a[1..], b[1..]);
    } else {
      var w := Run(b);
      FlatFirst(b);
      if |a| <= |w| {
        assert a == w[..|a|];
        FlatOfRun(a);
      } else {
        RunOfLonger(a, b);
        FlatFirst(a);
        assert a[|w|..] <= b[|w|..];
        FlatPrefix(a[|w|..], b[|w|..]);
      }
    }
  }

  /** `s` with each line break shown as a space, the way a collapsed caption shows it. */
  function OneLine(s: string): (r: string)
    ensures |r| == |s|
    ensures forall i | 0 <= i < |s| :: r[i] == if s[i] == '\n' then ' ' else s[i]
  {
    seq(|s|, i requires 0 <= i < |s| => if s[i] == '\n' then ' ' else s[i])
  }

  lemma {:induction false} RunOneLine(s: string)
    ensures Run(OneLine(s)) == Run(s)
  {
    if s != [] && !IsSpace(s[0]) {
      RunOneLine(s[1..]);
      assert OneLine(s)[1..] == OneLine(s[1..]);
    }
  }

  /** Flattening doesn't see the difference between a line break and a space. */
  lemma {:induction false} WordsOneLine(s: string)
    ensures Words(OneLine(s)) == Words(s)
    decreases |s|
  {
    if s == [] {
    } else if IsSpace(s[0]) {
      WordsOneLine(s[1..]);
      assert OneLine(s)[1..] == OneLine(s[1..]);
    } else {
      var w := Run(s);
      RunOneLine(s);
      assert w == [s[0]] + Run(s[1..]);
      WordsOneLine(s[|w|..]);
      assert OneLine(s)[|w|..] == OneLine(s[|w|..]);
    }
  }

  lemma {:induction false} UntilAbsent(s: string, c: char)
    requires c !in s
    ensures Until(s, c) == s
  {
    if s != [] {
      UntilAbsent(s[1..], c);
      assert s == [s[0]] + s[1..];
    }
  }

  /** A collapsed caption as Instagram shows it: the start of the full one on one line, then the marker. */
  ghost predicate Collapses(full: string, shown: string) {
    exists n: nat :: n <= |full| && shown == OneLine(full)[..n] + [ELLIPSIS]
  }

  /** The stored and the collapsed caption are both starts of the same flat text. */
  lemma {:induction false} CollapsedIsStart(full: string, shown: string)
    requires Collapses(full, shown)
    ensures FlatCaption(shown) <= FlatCaption(full)
    ensures Flat(FirstLine(full)) <= FlatCaption(full)
    ensures Flat(FirstLine(shown)) == FlatCaption(shown)
  {
    var q, t := RTrim(shown, ELLIPSIS), RTrim(full, ELLIPSIS);
    CollapsedText(full, shown);
    WordsOneLine(t);
    FlatPrefix(q, OneLine(t));
    FlatPrefix(FirstLine(full), t);
    UntilAbsent(q, '\n');
  }

  lemma {:induction false} CollapsedText(full: string, shown: string)
    requires Collapses(full, shown)
    ensures RTrim(shown, ELLIPSIS) <= OneLine(RTrim(full, ELLIPSIS))
    ensures '\n' !in RTrim(shown, ELLIPSIS)
  {
    var n: nat :| n <= |full| && shown == OneLine(full)[..n] + [ELLIPSIS];
    var q, t := RTrim(shown, ELLIPSIS), RTrim(full, ELLIPSIS);
    assert |q| < |shown|;
    forall i | 0 <= i < |q|
      ensures i < |full| && q[i] == OneLine(full)[i]
    {
      assert q[i] == shown[i];
    }
    assert q != [] ==> OneLine(full)[|q| - 1] != ELLIPSIS;
    assert |q| <= |t|;
    assert forall i | 0 <= i < |t| :: OneLine(t)[i] == OneLine(full)[i];
  }

  /**
   A post hashes alike collapsed and expanded exactly when the collapsed form and the first line agree on
   how much of the text they show, up to the forty characters that count. When a line break or the cut
   comes earlier in one of them the hashes differ, and only a row keeping the two can answer to either.
   */
  lemma {:induction false} CollapsedKeyAgrees(full: string, shown: string)
    requires Collapses(full, shown)
    ensures CaptionKey(shown) == CaptionKey(full)
       <==> (|FlatCaption(shown)| == |Flat(FirstLine(full))|
             || (|FlatCaption(shown)| >= CAPTION_KEY_CHARS && |Flat(FirstLine(full))| >= CAPTION_KEY_CHARS))
  {
    CollapsedIsStart(full, shown);
    var text := FlatCaption(full);
    var a, b := FlatCaption(shown), Flat(FirstLine(full));
    assert a == text[..|a|] && b == text[..|b|];
    if |a| >= CAPTION_KEY_CHARS && |b| >= CAPTION_KEY_CHARS {
      assert Truncate(a, CAPTION_KEY_CHARS) == text[..CAPTION_KEY_CHARS] == Truncate(b, CAPTION_KEY_CHARS);
    } else if |a| != |b| {
      assert |Truncate(a, CAPTION_KEY_CHARS)| != |Truncate(b, CAPTION_KEY_CHARS)|;
    }
  }

  /** They do differ: a caption of two short lines hashes as its first, and collapsed as both. */
  lemma {:induction false} TwoLinesTwoKeys()
    ensures Collapses("a\nb", "a b…") && CaptionKey("a\nb") != CaptionKey("a b…")
  {
    var full, shown := "a\nb", "a b…";
    assert OneLine(full)[..3] == "a b";
    assert shown == OneLine(full)[..3] + [ELLIPSIS];
    CollapsedKeyAgrees(full, shown);
    hide *;
    FirstOfTwoLines();
    BothWords();
  }

  lemma {:induction false} FirstOfTwoLines()
    ensures RTrim("a\nb", ELLIPSIS) == "a\nb" && FirstLine("a\nb") == "a" && |Flat("a")| == 1
  {
    assert "a\nb"[1..] == "\nb" && Until("\nb", '\n') == "";
    FlatOfRun("a");
  }

  lemma {:induction false} BothWords()
    ensures RTrim("a b…", ELLIPSIS) == "a b" && |FlatCaption("a b…")| > 1
  {
    assert "a b…"[..3] == "a b" && RTrim("a b", ELLIPSIS) == "a b";
    FlatFirst("a b");
    assert Run("a b") == "a" by {
      assert "a b"[1..] == " b" && Run(" b") == "";
    }
    assert "a b"[1..] == " b" && " b"[1..] == "b";
    FlatOfRun("b");
    assert Words(" b") == Words("b");
  }

  /** A stored caption and its collapsed form always count as the same caption, unless nothing but
      whitespace is shown. */
  lemma {:induction false} CollapsedIsSameCaption(full: string, shown: string)
    requires Collapses(full, shown)
    requires !IsWeak(full) && !IsWeak(shown)
    ensures SameCaption(full, shown) <==> FlatCaption(shown) != ""
  {
    CollapsedIsStart(full, shown);
  }

  /** Once a card's caption is read and its author known, nothing read after it changes its key. */
  lemma {:induction false} KeyIsSettledByTheCaption(c: Post, ns: seq<Node>)
    requires c.caption != "" && c.username != ""
    ensures PostKey(FillAll(c, ns)) == PostKey(c)
  {
    FirstWriteWins(c, ns);
  }

  /** Bounds may change, but not whether there are any. */
  predicate BoundsToo(a: Option<string>, b: Option<string>) {
    a.Some? == b.Some? && Truthy(a) == Truthy(b)
  }

  /** One media description at two sightings: counts and the slide shown may differ. */
  predicate SameAlt(a: string, b: string) {
    AltKey(a) == AltKey(b) && (a == "" <==> b == "")
  }

  /** A header at two sightings: the date shown may differ. */
  predicate SameHeader(h: Node, k: Node) {
    && h.headerId && !h.listId && k.headerId && !k.listId && h.header.Some? && k.header.Some?
    && h.header.value.user == k.header.value.user && h.header.value.kind == k.header.value.kind
    && h.header.value.place == k.header.value.place && BoundsToo(h.bounds, k.bounds)
  }

  /** A node of a card's body at two sightings: it may have moved, a description's counts may have changed, and so
      may any text but a caption's. */
  predicate SameNode(n: Node, m: Node) {
    && !n.Boundary() && !m.Boundary()
    && n.mediaId == m.mediaId && n.shareId == m.shareId && n.mediaAlt == m.mediaAlt
    && n.captionClass == m.captionClass && n.timestamp == m.timestamp
    && BoundsToo(n.bounds, m.bounds)
    && (n.mediaAlt ==> SameAlt(n.desc, m.desc))
    && (n.captionClass ==> n.text == m.text && n.truncated == m.truncated)
  }

  predicate SameNodes(ns: seq<Node>, ms: seq<Node>) {
    |ns| == |ms| && forall i | 0 <= i < |ns| :: SameNode(ns[i], ms[i])
  }

  /** One card at two sightings: the same but for where it is, its dates, its description's counts, how much of it is
      complete, and where the action bar ends. */
  ghost predicate SameCard(c: Post, d: Post) {
    && c.kind == d.kind && c.username == d.username && c.place == d.place
    && c.caption == d.caption && c.captionTruncated == d.captionTruncated && SameAlt(c.alt, d.alt)
    && !c.headless && !d.headless && !c.mergedReel && !d.mergedReel
    && BoundsToo(c.bounds, d.bounds) && BoundsToo(c.shareBounds, d.shareBounds)
    && BoundsToo(c.headerBounds, d.headerBounds) && BoundsToo(c.captionBounds, d.captionBounds)
  }

  lemma {:induction false} SameCardFilled(c: Post, d: Post, ns: seq<Node>, ms: seq<Node>)
    requires SameCard(c, d) && SameNodes(ns, ms)
    ensures SameCard(FillAll(c, ns), FillAll(d, ms))
    decreases |ns|
  {
    if ns != [] {
      assert SameNode(ns[0], ms[0]);
      SameCardStep(c, d, ns[0], ms[0]);
      SameCardFilled(Fill(c, ns[0]), Fill(d, ms[0]), ns[1..], ms[1..]);
    }
  }

  lemma {:induction false} SameCardStep(c: Post, d: Post, n: Node, m: Node)
    requires SameCard(c, d) && SameNode(n, m)
    ensures SameCard(Fill(c, n), Fill(d, m))
  {
    assert SlotFor(c, n) == SlotFor(d, m);
    SamePut(c, d, n, m, SlotFor(c, n));
  }

  lemma {:induction false} SamePut(c: Post, d: Post, n: Node, m: Node, slot: Slot)
    requires SameCard(c, d) && SameNode(n, m) && slot == SlotFor(c, n) == SlotFor(d, m)
    ensures SameCard(Put(c, n, slot), Put(d, m, slot))
  {
    hide CleanCaption, AltKey, Until, AltKind;
  }

  /**
   Identity is stable under scrolling. Two screens show a header's card whole, the second with every node moved,
   other counts in its media description and another date, among other cards and under another action bar: both
   hold a card of one key, the same but for that, and either both screens return it or neither does.
   */
  lemma {:induction false} ScrollingKeepsIdentity(before: seq<Node>, h: Node, body: seq<Node>, after: seq<Node>,
                                                  before': seq<Node>, h': Node, body': seq<Node>,
                                                  after': seq<Node>) returns (c: Post, d: Post)
    requires SameHeader(h, h') && SameNodes(body, body')
    requires FromList(before) != [] && !AwaitsHeader(before, h, ClipTop(before + [h] + body + after))
    requires FromList(before') != [] && !AwaitsHeader(before', h', ClipTop(before' + [h'] + body' + after'))
    requires after != [] ==> after[0].Boundary()
    requires after' != [] ==> after'[0].Boundary()
    ensures SameCard(c, d) && PostKey(c) == PostKey(d)
    ensures Identified(c) <==> Identified(d)
    ensures Identified(c) ==> c in Screen(before + [h] + body + after) && d in Screen(before' + [h'] + body' + after')
  {
    c := WholeCard(before, h, body, after);
    d := WholeCard(before', h', body', after');
    var clip, clip' := ClipTop(before + [h] + body + after), ClipTop(before' + [h'] + body' + after');
    SameCardFilled(Open(h, clip).value, Open(h', clip').value, body, body');
  }

  /** A header's card, shown whole, is returned if it can be identified. */
  lemma {:induction false} WholeCard(before: seq<Node>, h: Node, body: seq<Node>, after: seq<Node>) returns (c: Post)
    requires h.headerId && !h.listId && h.header.Some? && forall n | n in body :: !n.Boundary()
    requires FromList(before) != [] && !AwaitsHeader(before, h, ClipTop(before + [h] + body + after))
    requires after != [] ==> after[0].Boundary()
    ensures c == Close(CardOf(h, body, ClipTop(before + [h] + body + after)), after) && !c.headless
    ensures Identified(c) ==> c in Screen(before + [h] + body + after)
  {
    var ns := before + [h] + body + after;
    var above := CardIsItsOwnNodes(before, h, body, after, ClipTop(ns));
    c := Close(CardOf(h, body, ClipTop(ns)), after);
    NeverHeadless(Open(h, ClipTop(ns)).value, body);
    assert c in Cards(FromList(ns), ClipTop(ns));
    if Identified(c) {
      KeptWhole(Cards(FromList(ns), ClipTop(ns)), c);
    }
  }

  lemma {:induction false} KeptWhole(cs: seq<Post>, c: Post)
    requires c in cs && !c.headless && Identified(c)
    ensures c in CardParser.Kept(cs)
  {
    if c != cs[0] {
      KeptWhole(cs[1..], c);
    }
  }
}
