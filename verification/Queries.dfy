/**
 What the feed server prints for SQLite to read: a WHERE clause with its arguments, a LIKE pattern, and a
 full-text query. Each is read back here the way SQLite reads it.
 */
module Queries {
  import opened Text
  import opened Timestamps

  // --- LIKE

  /** Escapes what means something in a pattern: `re.sub(r"([\\%_])", r"\\\1", q)`. */
  function Escape(q: string): string {
    if q == "" then ""
    else (if q[0] == '\\' || q[0] == '%' || q[0] == '_' then ['\\', q[0]] else [q[0]]) + Escape(q[1..])
  }

  function Pattern(q: string): string {
    "%" + Escape(q) + "%"
  }

  predicate SameLetter(a: char, b: char) {
    LowerChar(a) == LowerChar(b)
  }

  /** SQLite's LIKE with `\` as the escape character: letters match in either case, ASCII alone. */
  predicate Like(pattern: string, text: string)
    decreases |pattern|, |text|
  {
    if pattern == "" then text == ""
    else if pattern[0] == '%' then Like(pattern[1..], text) || (text != "" && Like(pattern, text[1..]))
    else if pattern[0] == '_' then text != "" && Like(pattern[1..], text[1..])
    else if pattern[0] == '\\' then |pattern| > 1 && text != "" && SameLetter(pattern[1], text[0])
      && Like(pattern[2..], text[1..])
    else text != "" && SameLetter(pattern[0], text[0]) && Like(pattern[1..], text[1..])
  }

  /** The marks of a pattern: an underscore stands for any one character, a percent sign for any number, and an escaped
      character for itself, in either case. */
  lemma {:induction false} LikeMarks(rest: string, c: char, text: string)
    ensures Like("_" + rest, text) <==> |text| > 0 && Like(rest, text[1..])
    ensures Like("%" + rest, text) <==> exists i | 0 <= i <= |text| :: Like(rest, text[i..])
    ensures Like("\\" + [c] + rest, text) <==> |text| > 0 && LowerChar(c) == LowerChar(text[0]) && Like(rest, text[1..])
  {
    assert ("_" + rest)[1..] == rest && ("\\" + [c] + rest)[2..] == rest;
    PercentIsAnywhere(rest, text);
  }

  /** What C reads of a string: up to its first NUL. */
  function CString(s: string): string {
    if s == "" || s[0] == '\0' then "" else [s[0]] + CString(s[1..])
  }

  /** LIKE reads pattern and text as C strings. */
  predicate Matches(pattern: string, text: string) {
    Like(CString(pattern), CString(text))
  }

  ghost predicate Contains(text: string, part: string) {
    exists i :: 0 <= i <= |text| && part <= text[i..]
  }

  predicate StartsLike(text: string, q: string) {
    |q| <= |text| && Lower(text[..|q|]) == Lower(q)
  }

  lemma {:induction false} EscapedReadsAsItself(q: string, rest: string, text: string)
    ensures Like(Escape(q) + rest, text) <==> StartsLike(text, q) && Like(rest, text[|q|..])
  {
    if q == "" {
      assert Escape(q) + rest == rest;
      assert text[|q|..] == text;
      assert Lower(text[..0]) == Lower(q);
    } else {
      var p := Escape(q) + rest;
      var tail := Escape(q[1..]) + rest;
      assert p == (if q[0] == '\\' || q[0] == '%' || q[0] == '_' then ['\\', q[0]] else [q[0]]) + tail;
      if text != "" {
        EscapedReadsAsItself(q[1..], rest, text[1..]);
        if |q| <= |text| {
          assert text[1..][|q[1..]|..] == text[|q|..];
        }
        StartsStep(text, q);
      }
      if q[0] == '\\' || q[0] == '%' || q[0] == '_' {
        assert p[2..] == tail;
      } else {
        assert p[1..] == tail;
      }
    }
  }

  lemma {:induction false} StartsStep(text: string, q: string)
    requires text != "" && q != ""
    ensures StartsLike(text, q) <==> SameLetter(q[0], text[0]) && StartsLike(text[1..], q[1..])
  {
    if |q| <= |text| {
      assert Lower(text[..|q|]) == [LowerChar(text[0])] + Lower(text[1..][..|q[1..]|]);
      assert Lower(q) == [LowerChar(q[0])] + Lower(q[1..]);
    }
  }

  /** A leading `%` lets the rest match from anywhere. */
  lemma {:induction false} PercentIsAnywhere(rest: string, text: string)
    ensures Like("%" + rest, text) <==> exists i :: 0 <= i <= |text| && Like(rest, text[i..])
  {
    var p := "%" + rest;
    assert p[1..] == rest;
    assert text[0..] == text;
    if text != "" {
      PercentIsAnywhere(rest, text[1..]);
      if Like(p, text[1..]) {
        var i :| 0 <= i <= |text[1..]| && Like(rest, text[1..][i..]);
        assert text[1..][i..] == text[i + 1..];
      }
      if i :| 0 < i <= |text| && Like(rest, text[i..]) {
        assert text[1..][i - 1..] == text[i..];
      }
    }
  }

  lemma {:induction false} PercentIsAll(text: string)
    ensures Like("%", text)
  {
    PercentIsAnywhere("", text);
    assert "%" + "" == "%";
    assert text[|text|..] == "";
    assert Like("", text[|text|..]);
  }

  lemma {:induction false} CStringConcat(a: string, b: string)
    ensures CString(a + b) == if '\0' in a then CString(a) else a + CString(b)
  {
    if a == "" {
      assert a + b == b;
    } else {
      CStringConcat(a[1..], b);
      assert (a + b)[1..] == a[1..] + b;
      assert a == [a[0]] + a[1..];
    }
  }

  /** Escaping and cutting at a NUL can be done in either order. */
  lemma {:induction false} EscapeCString(q: string)
    ensures CString(Escape(q)) == Escape(CString(q))
    ensures '\0' in Escape(q) <==> '\0' in q
  {
    if q != "" {
      EscapeCString(q[1..]);
      var head := if q[0] == '\\' || q[0] == '%' || q[0] == '_' then ['\\', q[0]] else [q[0]];
      CStringConcat(head, Escape(q[1..]));
      assert '\0' in q <==> q[0] == '\0' || '\0' in q[1..];
      assert '\0' in head <==> q[0] == '\0';
      if q[0] != '\0' {
        assert ([q[0]] + CString(q[1..]))[1..] == CString(q[1..]);
      }
    }
  }

  /** What SQLite is left with of a pattern. */
  lemma {:induction false} PatternCString(q: string)
    ensures CString(Pattern(q)) == if '\0' in q then "%" + Escape(CString(q)) else Pattern(q)
  {
    EscapeCString(q);
    CStringConcat("%", Escape(q) + "%");
    CStringConcat(Escape(q), "%");
    assert "%" + Escape(q) + "%" == "%" + (Escape(q) + "%");
    CStringConcat("%", "");
    assert "%" + "" == "%";
  }

  lemma {:induction false} NoNul(s: string)
    requires '\0' !in s
    ensures CString(s) == s
  {
    if s != "" {
      NoNul(s[1..]);
    }
  }

  lemma {:induction false} StartsLikeContains(text: string, q: string, i: nat)
    requires i <= |text|
    ensures StartsLike(text[i..], q) <==> Lower(q) <= Lower(text)[i..]
  {
    if i + |q| <= |text| {
      assert Lower(text[i..][..|q|]) == Lower(text)[i..][..|q|];
      if Lower(q) <= Lower(text)[i..] {
        assert Lower(text)[i..][..|q|] == Lower(q);
      }
    }
  }

  /** A pattern with nothing after the text matches at the end alone; one closed by `%`, anywhere. */
  lemma {:induction false} AnywhereOrAtTheEnd(q: string, text: string)
    ensures Like(Pattern(q), text) <==> Contains(Lower(text), Lower(q))
    ensures Like("%" + Escape(q), text) <==> EndsWith(Lower(text), Lower(q))
  {
    assert Pattern(q) == "%" + (Escape(q) + "%");
    PercentIsAnywhere(Escape(q) + "%", text);
    PercentIsAnywhere(Escape(q), text);
    forall i: nat | i <= |text|
      ensures Like(Escape(q) + "%", text[i..]) <==> Lower(q) <= Lower(text)[i..]
      ensures Like(Escape(q), text[i..]) <==> Lower(q) == Lower(text)[i..]
    {
      FromHere(q, text, i);
    }
    if EndsWith(Lower(text), Lower(q)) {
      assert Like(Escape(q), text[|text| - |q|..]);
    }
  }

  lemma {:induction false} FromHere(q: string, text: string, i: nat)
    requires i <= |text|
    ensures Like(Escape(q) + "%", text[i..]) <==> Lower(q) <= Lower(text)[i..]
    ensures Like(Escape(q), text[i..]) <==> Lower(q) == Lower(text)[i..]
  {
    assert Escape(q) == Escape(q) + "";
    EscapedReadsAsItself(q, "%", text[i..]);
    EscapedReadsAsItself(q, "", text[i..]);
    StartsLikeContains(text, q, i);
    if |q| <= |text| - i {
      PercentIsAll(text[i..][|q|..]);
    }
  }

  /** The caption search finds the text itself, whatever is in it, as far as a NUL: up to there it has to end the
      caption, and past it nothing counts. */
  lemma {:induction false} LikeFindsTheText(q: string, caption: string)
    ensures Matches(Pattern(q), caption) <==>
            if '\0' in q then EndsWith(Lower(CString(caption)), Lower(CString(q)))
            else Contains(Lower(CString(caption)), Lower(q))
  {
    PatternCString(q);
    AnywhereOrAtTheEnd(q, CString(caption));
    AnywhereOrAtTheEnd(CString(q), CString(caption));
  }

  /** So the pattern finds just the captions that contain the text, unless the text has a NUL and the caption ends
      with what comes before it. (No caption read off a screen has one.) */
  lemma {:induction false} NulIsTheOneException(q: string, caption: string)
    requires '\0' !in caption
    ensures (Matches(Pattern(q), caption) <==> Contains(Lower(caption), Lower(q))) <==>
            ('\0' !in q || !EndsWith(Lower(caption), Lower(CString(q))))
  {
    LikeFindsTheText(q, caption);
    NoNul(caption);
    if '\0' in q {
      var k :| 0 <= k < |q| && q[k] == '\0';
      assert Lower(q)[k] == '\0';
      forall i: nat | i <= |caption|
        ensures !(Lower(q) <= Lower(caption)[i..])
      {
        if i + k < |caption| {
          LowerIsNotNul(caption[i + k]);
          assert Lower(caption)[i..][k] == LowerChar(caption[i + k]);
        }
      }
    }
  }

  /** Such a text and caption: searching for `a`, NUL, `b` finds the caption `xa`. */
  lemma {:induction false} NulFindsAnEnding()
    ensures var q, caption := "a\0b", "xa";
            Matches(Pattern(q), caption) && !Contains(Lower(caption), Lower(q)) && '\0' !in caption
  {
    var q, caption := "a\0b", "xa";
    NoNul(caption);
    assert CString(q) == "a" by {
      assert CString(q[1..]) == "";
    }
    assert Lower(caption)[1..] == Lower("a");
    LikeFindsTheText(q, caption);
  }

  lemma {:induction false} LowerIsNotNul(c: char)
    requires c != '\0'
    ensures LowerChar(c) != '\0'
  {
  }

  // --- the full-text query

  const MAX_SEARCH_WORDS := 32

  /** `q.replace("\x00", " ")`. */
  function Blanked(q: string): (r: string)
    ensures '\0' !in r
  {
    seq(|q|, i requires 0 <= i < |q| => if q[i] == '\0' then ' ' else q[i])
  }

  function SearchWords(q: string): seq<string> {
    var ws := Words(Blanked(q));
    if |ws| <= MAX_SEARCH_WORDS then ws else ws[..MAX_SEARCH_WORDS]
  }

  /** What is searched for: the first thirty-two of the words typed, a NUL parting words as a blank does. */
  lemma {:induction false} SearchesWhatIsTyped(ws: seq<string>, a: string, b: string)
    requires forall w | w in ws :: IsWord(w) && '\0' !in w
    ensures SearchWords(Join(ws, " ")) == if |ws| <= 32 then ws else ws[..32]
    ensures SearchWords(a + "\0" + b) == SearchWords(a + " " + b)
  {
    JoinedWords(ws);
    assert Blanked(a + "\0" + b) == Blanked(a + " " + b);
  }

  lemma {:induction false} JoinedWords(ws: seq<string>)
    requires forall w | w in ws :: IsWord(w) && '\0' !in w
    ensures Words(Join(ws, " ")) == ws && '\0' !in Join(ws, " ") && Blanked(Join(ws, " ")) == Join(ws, " ")
  {
    if |ws| == 1 {
      WordsAreRuns("", ' ', ws[0]);
      assert ws[0] + "" == ws[0];
    } else if |ws| > 1 {
      JoinedWords(ws[1..]);
      var rest := Join(ws[1..], " ");
      assert " " + rest == [' '] + rest && ws[0] + " " + rest == ws[0] + (" " + rest);
      WordsAreRuns(rest, ' ', "");
      WordsAreRuns(" " + rest, ' ', ws[0]);
    }
  }

  function Doubled(w: string): string {
    if w == "" then "" else (if w[0] == '"' then "\"\"" else [w[0]]) + Doubled(w[1..])
  }

  function Quote(w: string): string {
    "\"" + Doubled(w) + "\"*"
  }

  function Quotes(ws: seq<string>): seq<string> {
    seq(|ws|, i requires 0 <= i < |ws| => Quote(ws[i]))
  }

  function FtsQuery(q: string): string {
    Join(Quotes(SearchWords(q)), " ")
  }

  datatype Token = Str(text: string) | Bare(word: string) | Mark(c: char)

  predicate IsBareChar(c: char) {
    'a' <= c <= 'z' || 'A' <= c <= 'Z' || '0' <= c <= '9' || c == '_' || c == '\U{1a}' || c >= '\U{80}'
  }

  function BareRun(s: string): (r: string)
    ensures r <= s && (s != "" && IsBareChar(s[0]) ==> r != "")
  {
    if s == "" || !IsBareChar(s[0]) then [] else [s[0]] + BareRun(s[1..])
  }

  /** A string, from just past its opening quote: its text and what follows it, or none if it is never closed. */
  function Closed(s: string): (r: Option<(string, string)>)
    ensures r.Some? ==> |r.value.1| < |s|
  {
    if s == "" then None
    else if s[0] == '"' && (|s| == 1 || s[1] != '"') then Some(("", s[1..]))
    else
      var more := Closed(if s[0] == '"' then s[2..] else s[1..]);
      if more.None? then None else Some(([s[0]] + more.value.0, more.value.1))
  }

  /** FTS5's reading of a query: quoted strings, bare words and marks; none for a syntax error. */
  function Lex(s: string): Option<seq<Token>>
    decreases |s|
  {
    if s == "" then Some([])
    else if s[0] in " \t\n\r" then Lex(s[1..])
    else if s[0] == '"' then
      var str := Closed(s[1..]);
      if str.None? then None else Before(Str(str.value.0), Lex(str.value.1))
    else if s[0] in "(){}[]:,+*-^" then Before(Mark(s[0]), Lex(s[1..]))
    else if IsBareChar(s[0]) then Before(Bare(BareRun(s)), Lex(s[|BareRun(s)|..]))
    else None
  }

  function Before(t: Token, more: Option<seq<Token>>): Option<seq<Token>> {
    if more.None? then None else Some([t] + more.value)
  }

  /** Why the words are quoted: a word that isn't reads as a bare word, which may be an operator, and the punctuation
      of the query language as itself. */
  lemma {:induction false} UnquotedIsNoText(w: string)
    requires w != "" && forall i | 0 <= i < |w| :: MayBeBare(w[i] as int)
    ensures Lex(w) == Some([Bare(w)])
  {
    BareRunIsAll(w);
    BareIsNoMark(w[0]);
    assert w[|w|..] == "" && Lex("") == Some([]) && [Bare(w)] + [] == [Bare(w)];
  }

  lemma {:induction false} BareIsNoMark(c: char)
    requires MayBeBare(c as int)
    ensures c !in " \t\n\r" && c != '"' && c !in "(){}[]:,+*-^" && IsBareChar(c)
  {
  }

  lemma {:induction false} MarksAreMarks(c: char)
    ensures c in "(){}[]:,+*-^" ==> Lex([c]) == Some([Mark(c)])
    ensures !MayBeBare(c as int) && c !in " \t\n\r(){}[]:,+*-^" ==> Lex([c]).None?
  {
    assert [c][1..] == "" && Lex("") == Some([]) && Closed("") == None && [Mark(c)] + [] == [Mark(c)];
    assert c in "(){}[]:,+*-^" ==> c !in " \t\n\r" && c != '"';
    assert c !in " \t\n\r(){}[]:,+*-^" ==> c !in " \t\n\r" && c !in "(){}[]:,+*-^" by {
      InBoth(c, " \t\n\r", "(){}[]:,+*-^");
      assert " \t\n\r(){}[]:,+*-^" == " \t\n\r" + "(){}[]:,+*-^";
    }
  }

  lemma {:induction false} InBoth(c: char, a: string, b: string)
    ensures c in a + b <==> c in a || c in b
  {
  }

  /** ASCII letters and digits, the underscore, the substitute character, and anything past ASCII. */
  predicate MayBeBare(code: int) {
    code in {26, 95} || 48 <= code < 58 || 65 <= code < 91 || 97 <= code < 123 || code >= 128
  }

  lemma {:induction false} BareRunIsAll(w: string)
    requires forall i | 0 <= i < |w| :: MayBeBare(w[i] as int)
    ensures BareRun(w) == w
  {
    if w != "" {
      BareRunIsAll(w[1..]);
      assert w == [w[0]] + w[1..];
    }
  }

  /** Each word a quoted string with the prefix mark. */
  function PrefixTerms(ws: seq<string>): seq<Token> {
    if ws == [] then [] else [Str(ws[0]), Mark('*')] + PrefixTerms(ws[1..])
  }

  lemma {:induction false} ClosedReadsBack(w: string, rest: string)
    ensures Closed(Doubled(w) + "\"*" + rest) == Some((w, "*" + rest))
  {
    var s := Doubled(w) + "\"*" + rest;
    if w == "" {
      assert s == "\"*" + rest;
      assert s[1..] == "*" + rest;
    } else {
      ClosedReadsBack(w[1..], rest);
      assert w == [w[0]] + w[1..];
      var tail := Doubled(w[1..]) + "\"*" + rest;
      if w[0] == '"' {
        assert s == "\"\"" + tail;
        assert s[2..] == tail;
      } else {
        assert s == [w[0]] + tail;
        assert s[1..] == tail;
      }
    }
  }

  lemma {:induction false} LexTerm(w: string, rest: string)
    ensures Lex(Quote(w) + rest) == Before(Str(w), Before(Mark('*'), Lex(rest)))
  {
    var s := Quote(w) + rest;
    assert s == "\"" + (Doubled(w) + "\"*" + rest);
    assert s[1..] == Doubled(w) + "\"*" + rest;
    ClosedReadsBack(w, rest);
    LexStar(rest);
    hide Closed, Doubled, BareRun, Before;
  }

  lemma {:induction false} LexStar(rest: string)
    ensures Lex("*" + rest) == Before(Mark('*'), Lex(rest))
  {
    assert ("*" + rest)[1..] == rest;
  }

  lemma {:induction false} LexTerms(ws: seq<string>)
    ensures Lex(Join(Quotes(ws), " ")) == Some(PrefixTerms(ws))
  {
    if ws != [] {
      LexTerms(ws[1..]);
      assert Quotes(ws)[1..] == Quotes(ws[1..]);
      if |ws| == 1 {
        LexTerm(ws[0], "");
        TwoMore(ws);
        assert Quote(ws[0]) + "" == Quote(ws[0]);
        assert PrefixTerms(ws[1..]) == [];
      } else {
        var rest := Join(Quotes(ws[1..]), " ");
        assert Join(Quotes(ws), " ") == Quote(ws[0]) + (" " + rest);
        hide Lex, Join, Quote, Before;
        LexTerm(ws[0], " " + rest);
        LexSpace(rest);
        TwoMore(ws);
      }
    }
  }

  lemma {:induction false} TwoMore(ws: seq<string>)
    requires ws != []
    ensures Before(Str(ws[0]), Before(Mark('*'), Some(PrefixTerms(ws[1..])))) == Some(PrefixTerms(ws))
  {
    assert [Str(ws[0])] + ([Mark('*')] + PrefixTerms(ws[1..])) == [Str(ws[0]), Mark('*')] + PrefixTerms(ws[1..]);
  }

  lemma {:induction false} LexSpace(rest: string)
    ensures Lex(" " + rest) == Lex(rest)
  {
    assert (" " + rest)[1..] == rest;
  }

  lemma {:induction false} WordsHaveNoNul(s: string)
    requires '\0' !in s
    ensures forall w | w in Words(s) :: '\0' !in w
    decreases |s|
  {
    if s != "" {
      if IsSpace(s[0]) {
        WordsHaveNoNul(s[1..]);
      } else {
        assert Run(s) == [s[0]] + Run(s[1..]);
        WordsHaveNoNul(s[|Run(s)|..]);
      }
    }
  }

  lemma {:induction false} DoubledHasNoNul(w: string)
    requires '\0' !in w
    ensures '\0' !in Doubled(w)
  {
    if w != "" {
      DoubledHasNoNul(w[1..]);
    }
  }

  lemma {:induction false} TermsHaveNoNul(ws: seq<string>)
    requires forall w | w in ws :: '\0' !in w
    ensures '\0' !in Join(Quotes(ws), " ")
  {
    if ws != [] {
      DoubledHasNoNul(ws[0]);
      TermsHaveNoNul(ws[1..]);
      assert Quotes(ws)[1..] == Quotes(ws[1..]);
    }
  }

  /** Whatever is typed reads as its first words, each a string to be matched as a prefix, and nothing else: no
      operator, no bare word, no error. Text with no words reads as nothing. */
  lemma {:induction false} SearchReadsBack(q: string)
    ensures Lex(CString(FtsQuery(q))) == Some(PrefixTerms(SearchWords(q)))
    ensures FtsQuery(q) == "" <==> Words(Blanked(q)) == []
  {
    WordsHaveNoNul(Blanked(q));
    TermsHaveNoNul(SearchWords(q));
    NoNul(FtsQuery(q));
    LexTerms(SearchWords(q));
    if SearchWords(q) != [] {
      assert Quotes(SearchWords(q))[0] == Quote(SearchWords(q)[0]);
    }
  }

  // --- the posts filter

  datatype Post = Post(username: string, kind: Option<string>, postedAt: Option<string>, scrapedAt: string,
                       caption: Option<string>)

  datatype PostFilter = PostFilter(user: string, kinds: seq<string>, since: string, q: string)

  /** What the filter means: a part left empty narrows nothing. */
  predicate Selects(f: PostFilter, p: Post) {
    && (f.user != "" ==> p.username == f.user)
    && (f.kinds != [] ==> p.kind.Some? && p.kind.value in f.kinds)
    && (f.since != "" ==> AtMost(f.since, if p.postedAt.Some? then p.postedAt.value else p.scrapedAt))
    && (f.q != "" ==> p.caption.Some? && Matches(Pattern(f.q), p.caption.value))
  }

  datatype Clause = UserIs | KindIn(holes: nat) | SinceAtLeast | CaptionLike

  function Holes(c: Clause): nat {
    if c.KindIn? then c.holes else 1
  }

  /** One clause with its `?`s filled in. A comparison with NULL selects nothing. */
  predicate Holds(c: Clause, args: seq<string>, p: Post)
    requires |args| == Holes(c)
  {
    match c
    case UserIs => p.username == args[0]
    case KindIn(_) => p.kind.Some? && p.kind.value in args
    case SinceAtLeast => AtMost(args[0], if p.postedAt.Some? then p.postedAt.value else p.scrapedAt)
    case CaptionLike => p.caption.Some? && Matches(args[0], p.caption.value)
  }

  /** The clauses joined with AND, each taking its arguments from the front of the list. */
  predicate AllHold(clauses: seq<Clause>, args: seq<string>, p: Post) {
    if clauses == [] then args == []
    else
      && Holes(clauses[0]) <= |args|
      && Holds(clauses[0], args[..Holes(clauses[0])], p)
      && AllHold(clauses[1..], args[Holes(clauses[0])..], p)
  }

  function AllHoles(clauses: seq<Clause>): nat {
    if clauses == [] then 0 else Holes(clauses[0]) + AllHoles(clauses[1..])
  }

  lemma {:induction false} OneMoreClause(clauses: seq<Clause>, args: seq<string>, c: Clause, more: seq<string>, p: Post)
    requires |args| == AllHoles(clauses) && |more| == Holes(c)
    ensures AllHold(clauses + [c], args + more, p) <==> AllHold(clauses, args, p) && Holds(c, more, p)
  {
    if clauses == [] {
      assert clauses + [c] == [c];
      assert args + more == more;
      assert more[..Holes(c)] == more;
    } else {
      var n := Holes(clauses[0]);
      OneMoreClause(clauses[1..], args[n..], c, more, p);
      assert (clauses + [c])[1..] == clauses[1..] + [c];
      assert (args + more)[..n] == args[..n];
      assert (args + more)[n..] == args[n..] + more;
    }
  }

  lemma {:induction false} OneMoreForAll(clauses: seq<Clause>, args: seq<string>, c: Clause, more: seq<string>)
    requires |args| == AllHoles(clauses) && |more| == Holes(c)
    ensures forall p :: AllHold(clauses + [c], args + more, p) <==> AllHold(clauses, args, p) && Holds(c, more, p)
    ensures AllHoles(clauses + [c]) == |args + more|
  {
    forall p
      ensures AllHold(clauses + [c], args + more, p) <==> AllHold(clauses, args, p) && Holds(c, more, p)
    {
      OneMoreClause(clauses, args, c, more, p);
    }
    OneMoreHole(clauses, c);
  }

  lemma {:induction false} OneMoreHole(clauses: seq<Clause>, c: Clause)
    ensures AllHoles(clauses + [c]) == AllHoles(clauses) + Holes(c)
  {
    if clauses == [] {
      assert clauses + [c] == [c];
    } else {
      OneMoreHole(clauses[1..], c);
      assert (clauses + [c])[1..] == clauses[1..] + [c];
    }
  }

  /** The clauses with their arguments, in step: together they select what the filter means. */
  method Where(f: PostFilter) returns (clauses: seq<Clause>, args: seq<string>)
    ensures forall p :: AllHold(clauses, args, p) <==> Selects(f, p)
    ensures |args| == AllHoles(clauses)
  {
    clauses, args := [], [];
    if f.user != "" {
      OneMoreForAll(clauses, args, UserIs, [f.user]);
      clauses, args := clauses + [UserIs], args + [f.user];
    }
    if f.kinds != [] {
      OneMoreForAll(clauses, args, KindIn(|f.kinds|), f.kinds);
      clauses, args := clauses + [KindIn(|f.kinds|)], args + f.kinds;
    }
    if f.since != "" {
      OneMoreForAll(clauses, args, SinceAtLeast, [f.since]);
      clauses, args := clauses + [SinceAtLeast], args + [f.since];
    }
    if f.q != "" {
      OneMoreForAll(clauses, args, CaptionLike, [Pattern(f.q)]);
      clauses, args := clauses + [CaptionLike], args + [Pattern(f.q)];
    }
  }
}
