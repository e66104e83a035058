/** Python's string operations on `seq<char>`, as far as the other modules need them. */
module Text {

  datatype Option<+T> = None | Some(value: T)

  /** What `str.split()` and `str.strip()` treat as whitespace. */
  predicate IsSpace(c: char) {
    || '\t' <= c <= '\r'
    || '\U{1c}' <= c <= ' '
    || c == '\U{85}' || c == '\U{a0}' || c == '\U{1680}'
    || '\U{2000}' <= c <= '\U{200a}'
    || c == '\U{2028}' || c == '\U{2029}' || c == '\U{202f}' || c == '\U{205f}' || c == '\U{3000}'
  }

  /** A non-empty run of characters with no whitespace in it: what `str.split()` returns a list of. */
  predicate IsWord(w: string) {
    w != [] && forall i | 0 <= i < |w| :: !IsSpace(w[i])
  }

  function LStrip(s: string): string {
    if s != [] && IsSpace(s[0]) then LStrip(s[1..]) else s
  }

  function RStrip(s: string): string {
    if s != [] && IsSpace(s[|s| - 1]) then RStrip(s[..|s| - 1]) else s
  }

  function Strip(s: string): string {
    LStrip(RStrip(s))
  }

  /** Drops every trailing `c`, as `str.rstrip(c)`. */
  function RTrim(s: string, c: char): (r: string)
    ensures r <= s
    ensures r != [] ==> r[|r| - 1] != c
    ensures forall i | |r| <= i < |s| :: s[i] == c
  {
    if s != [] && s[|s| - 1] == c then RTrim(s[..|s| - 1], c) else s
  }

  /** The longest prefix of `s` without `c`: `s.split(c, 1)[0]`. */
  function Until(s: string, c: char): (r: string)
    ensures r <= s && c !in r
    ensures |r| < |s| ==> s[|r|] == c
  {
    if s == [] || s[0] == c then [] else [s[0]] + Until(s[1..], c)
  }

  /** The longest prefix of `s` with no whitespace in it. */
  function Run(s: string): (r: string)
    ensures r <= s
    ensures forall i | 0 <= i < |r| :: !IsSpace(r[i])
    ensures |r| < |s| ==> IsSpace(s[|r|])
  {
    if s == [] || IsSpace(s[0]) then [] else [s[0]] + Run(s[1..])
  }

  /** `s.split()`. */
  function Words(s: string): (ws: seq<string>)
    ensures forall w | w in ws :: IsWord(w)
    decreases |s|
  {
    if s == [] then []
    else if IsSpace(s[0]) then Words(s[1..])
    else
      var w := Run(s);
      assert w != [] by { assert w == [s[0]] + Run(s[1..]); }
      [w] + Words(s[|w|..])
  }

  /** Which words a text has: none if it is empty, those after a blank, and a run up to one with those after it. */
  lemma {:induction false} WordsAreRuns(s: string, c: char, w: string)
    ensures Words("") == []
    ensures IsSpace(c) ==> Words([c] + s) == Words(s)
    ensures IsWord(w) && (s == "" || IsSpace(s[0])) ==> Words(w + s) == [w] + Words(s)
  {
    assert ([c] + s)[1..] == s;
    if IsWord(w) && (s == "" || IsSpace(s[0])) {
      RunIs(w, s);
      assert !IsSpace((w + s)[0]) && (w + s)[|w|..] == s;
    }
  }

  lemma {:induction false} RunIs(w: string, s: string)
    requires (forall i | 0 <= i < |w| :: !IsSpace(w[i])) && (s == "" || IsSpace(s[0]))
    ensures Run(w + s) == w
    decreases |w|
  {
    if w == "" {
      assert w + s == s;
    } else {
      assert (w + s)[1..] == w[1..] + s;
      RunIs(w[1..], s);
      assert w == [w[0]] + w[1..];
    }
  }

  function Join(ws: seq<string>, sep: string): string {
    if ws == [] then "" else if |ws| == 1 then ws[0] else ws[0] + sep + Join(ws[1..], sep)
  }

  function LowerChar(c: char): char {
    if 'A' <= c <= 'Z' then (c as int + 32) as char else c
  }

  /** ASCII lower case: enough wherever the result is only compared with ASCII words. */
  function Lower(s: string): (r: string)
    ensures |r| == |s|
    ensures forall i | 0 <= i < |s| :: r[i] == LowerChar(s[i])
  {
    seq(|s|, i requires 0 <= i < |s| => LowerChar(s[i]))
  }

  predicate EndsWith(s: string, tail: string) {
    |tail| <= |s| && s[|s| - |tail|..] == tail
  }

  function Truncate(s: string, n: nat): string {
    if |s| <= n then s else s[..n]
  }

  // ---------------------------------------------------------------------------------------------
  // What they come to

  /** The whitespace characters, by their codes. */
  lemma {:induction false} SpacesByCode(c: char)
    ensures IsSpace(c) <==>
            var n := c as int;
            || (9 <= n && n < 14) || (28 <= n && n < 33) || (8192 <= n && n < 8203)
            || n in {133, 160, 5760, 8232, 8233, 8239, 8287, 12288}
  {
  }

  /** Twenty-six letters have another in lower case, thirty-two codes on. */
  lemma {:induction false} LowerByCode(c: char)
    ensures LowerChar(c) as int == if 64 < c as int && (c as int) < 91 then c as int + 32 else c as int
  {
  }

  /** What is stripped is all the space at the ends. */
  lemma {:induction false} StripTakesTheEnds(s: string)
    ensures LStrip(s) == "" || !IsSpace(LStrip(s)[0])
    ensures RStrip(s) == "" || !IsSpace(RStrip(s)[|RStrip(s)| - 1])
    ensures |LStrip(s)| <= |s| && s[|s| - |LStrip(s)|..] == LStrip(s)
    ensures forall i | 0 <= i < |s| - |LStrip(s)| :: IsSpace(s[i])
    ensures RStrip(s) <= s && forall i | |RStrip(s)| <= i < |s| :: IsSpace(s[i])
  {
    LeftEnd(s);
    RightEnd(s);
  }

  lemma {:induction false} LeftEnd(s: string)
    ensures LStrip(s) == "" || !IsSpace(LStrip(s)[0])
    ensures |LStrip(s)| <= |s| && s[|s| - |LStrip(s)|..] == LStrip(s)
    ensures forall i | 0 <= i < |s| - |LStrip(s)| :: IsSpace(s[i])
    decreases |s|
  {
    hide IsSpace;
    if s != "" && IsSpace(s[0]) {
      LeftEnd(s[1..]);
      assert forall i | 0 < i < |s| :: s[i] == s[1..][i - 1];
    }
  }

  lemma {:induction false} RightEnd(s: string)
    ensures RStrip(s) == "" || !IsSpace(RStrip(s)[|RStrip(s)| - 1])
    ensures RStrip(s) <= s && forall i | |RStrip(s)| <= i < |s| :: IsSpace(s[i])
    decreases |s|
  {
    hide IsSpace;
    if s != "" && IsSpace(s[|s| - 1]) {
      RightEnd(s[..|s| - 1]);
    }
  }

  /** One word more is joined on with one separator, the first with none. */
  lemma {:induction false} JoinOneMore(ws: seq<string>, w: string, sep: string)
    ensures Join([], sep) == "" && Join([w], sep) == w
    ensures ws != [] ==> Join(ws + [w], sep) == Join(ws, sep) + sep + w
  {
    if |ws| == 1 {
      assert (ws + [w])[1..] == [w];
    } else if |ws| > 1 {
      JoinOneMore(ws[1..], w, sep);
      assert (ws + [w])[1..] == ws[1..] + [w] && (ws + [w])[0] == ws[0];
    }
  }

  lemma {:induction false} EndsAndStarts(s: string, head: string, n: nat)
    ensures EndsWith(head + s, s)
    ensures EndsWith(head, s) ==> head == head[..|head| - |s|] + s
    ensures Truncate(s, n) <= s && |Truncate(s, n)| == if |s| < n then |s| else n
  {
  }
}
