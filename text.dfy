/** The Python string operations the bot relies on, as functions over `string`
    (a sequence of Unicode code points, as in Python 3): `t in s`, `s.replace(p, r)`,
    `s.split()`, `' '.join(ws)`, `s.split(c)`, `s.strip()` and the character classes
    `str.isspace` and `str.isalpha`. */
module Text {

  /** `c.isspace()`: the characters CPython's `str.split()` and `str.strip()` treat
      as whitespace. */
  predicate IsSpace(c: char) {
    c == ' ' || ('\U{9}' <= c <= '\U{D}') || ('\U{1C}' <= c <= '\U{1F}')
    || c == '\U{85}' || c == '\U{A0}' || c == '\U{1680}'
    || ('\U{2000}' <= c <= '\U{200A}') || c == '\U{2028}' || c == '\U{2029}'
    || c == '\U{202F}' || c == '\U{205F}' || c == '\U{3000}'
  }

  /** `c.isalpha()` for the code points below U+0530 (Latin, IPA, spacing
      modifiers, Greek, Cyrillic and its supplement), as Unicode 15 classifies
      them; characters from U+0530 on count as non-letters. */
  predicate IsAlpha(c: char) {
    ('A' <= c <= 'Z') || ('a' <= c <= 'z') || c == '\U{AA}' || c == '\U{B5}' || c == '\U{BA}'
    || ('\U{C0}' <= c <= '\U{D6}') || ('\U{D8}' <= c <= '\U{F6}') || ('\U{F8}' <= c <= '\U{2C1}')
    || ('\U{2C6}' <= c <= '\U{2D1}') || ('\U{2E0}' <= c <= '\U{2E4}') || c == '\U{2EC}' || c == '\U{2EE}'
    || ('\U{370}' <= c <= '\U{374}') || ('\U{376}' <= c <= '\U{377}') || ('\U{37A}' <= c <= '\U{37D}')
    || c == '\U{37F}' || c == '\U{386}' || ('\U{388}' <= c <= '\U{38A}') || c == '\U{38C}'
    || ('\U{38E}' <= c <= '\U{3A1}') || ('\U{3A3}' <= c <= '\U{3F5}') || ('\U{3F7}' <= c <= '\U{481}')
    || ('\U{48A}' <= c <= '\U{52F}')
  }

  /** `t in s` for strings: `t` occurs somewhere in `s`. */
  predicate Contains(s: string, t: string)
    decreases |s|
  {
    t <= s || (s != [] && Contains(s[1..], t))
  }

  lemma {:induction false} ContainsMiddle(u: string, t: string, v: string)
    ensures Contains(u + t + v, t)
  {
    if u == [] {
      assert u + t + v == t + v;
    } else {
      assert (u + t + v)[1..] == u[1..] + t + v;
      ContainsMiddle(u[1..], t, v);
    }
  }

  /** An occurrence of `t` in `s`, at index `i`. */
  lemma {:induction false} Occurrence(s: string, t: string) returns (i: nat)
    requires Contains(s, t)
    ensures i + |t| <= |s| && s[i..i + |t|] == t
    decreases |s|
  {
    if t <= s {
      i := 0;
    } else {
      var k := Occurrence(s[1..], t);
      i := k + 1;
      assert s[i..i + |t|] == s[1..][k..k + |t|];
    }
  }

  /** For a single character, `[c] in s` is membership. */
  lemma {:induction false} ContainsChar(s: string, c: char)
    ensures Contains(s, [c]) <==> c in s
    decreases |s|
  {
    if s != [] {
      ContainsChar(s[1..], c);
      assert s == [s[0]] + s[1..];
    }
  }

  lemma ContainsTransitive(s: string, t: string, w: string)
    requires Contains(s, t) && Contains(t, w)
    ensures Contains(s, w)
  {
    var i := Occurrence(s, t);
    var k := Occurrence(t, w);
    assert s[i + k..i + k + |w|] == w by {
      forall j | 0 <= j < |w| ensures s[i + k + j] == w[j] {
        assert s[i..i + |t|][k + j] == t[k + j];
        assert t[k..k + |w|][j] == w[j];
      }
    }
    assert s == s[..i + k] + w + s[i + k + |w|..];
    ContainsMiddle(s[..i + k], w, s[i + k + |w|..]);
  }

  // ---------------------------------------------------------------------------
  // str.replace

  /** `s.replace(pat, rep)`: scanning left to right, every occurrence of `pat` that
      does not overlap an earlier replaced one is replaced by `rep`. */
  function ReplaceAll(s: string, pat: string, rep: string): string
    requires pat != []
    decreases |s|
  {
    if s == [] then []
    else if pat <= s then rep + ReplaceAll(s[|pat|..], pat, rep)
    else [s[0]] + ReplaceAll(s[1..], pat, rep)
  }

  /** Every character of the result comes from the input or from the replacement. */
  lemma {:induction false} ReplaceAllChars(s: string, pat: string, rep: string, c: char)
    requires pat != []
    ensures c in ReplaceAll(s, pat, rep) ==> c in s || c in rep
    decreases |s|
  {
    if s == [] {
    } else if pat <= s {
      ReplaceAllChars(s[|pat|..], pat, rep, c);
      assert c in s[|pat|..] ==> c in s;
    } else {
      ReplaceAllChars(s[1..], pat, rep, c);
      assert c in s[1..] ==> c in s;
    }
  }

  /** Replacing a one-character pattern by text without that character leaves no
      occurrence of it. */
  lemma {:induction false} ReplaceAllRemoves(s: string, c: char, rep: string)
    requires c !in rep
    ensures c !in ReplaceAll(s, [c], rep)
    decreases |s|
  {
    if s == [] {
    } else if [c] <= s {
      ReplaceAllRemoves(s[1..], c, rep);
    } else {
      assert s[0] != c;
      ReplaceAllRemoves(s[1..], c, rep);
    }
  }

  /** A pattern that does not occur is not replaced. */
  lemma {:induction false} ReplaceAllAbsent(s: string, pat: string, rep: string)
    requires pat != [] && !Contains(s, pat)
    ensures ReplaceAll(s, pat, rep) == s
    decreases |s|
  {
    if s != [] {
      ReplaceAllAbsent(s[1..], pat, rep);
    }
  }

  /** A pattern that occurs is replaced at least once. */
  lemma {:induction false} ReplaceAllFires(s: string, pat: string, rep: string)
    requires pat != [] && Contains(s, pat)
    ensures Contains(ReplaceAll(s, pat, rep), rep)
    decreases |s|
  {
    if pat <= s {
      ReplaceAllHead(s, pat, rep);
      ContainsMiddle([], rep, ReplaceAll(s[|pat|..], pat, rep));
      assert [] + rep + ReplaceAll(s[|pat|..], pat, rep) == rep + ReplaceAll(s[|pat|..], pat, rep);
    } else {
      ReplaceAllFires(s[1..], pat, rep);
      ReplaceAllCopy(s, pat, rep);
      var r := ReplaceAll(s[1..], pat, rep);
      assert ([s[0]] + r)[1..] == r;
    }
  }

  /** No occurrence of `pat` can overlap an occurrence of `t`: the first character
      of `t` is not inside `pat`, and wherever `pat` could start inside `t` the next
      character already disagrees. */
  predicate Apart(pat: string, t: string) {
    && pat != [] && t != []
    && t[0] !in pat[1..]
    && forall j :: 0 <= j < |t| && t[j] == pat[0] ==> j + 1 < |t| && 1 < |pat| && t[j + 1] != pat[1]
  }

  /** Text apart from the pattern is copied unchanged across the replacement. */
  lemma {:induction false} ReplaceAllSkips(t: string, v: string, pat: string, rep: string, k: nat)
    requires Apart(pat, t) && k <= |t|
    ensures ReplaceAll(t[k..] + v, pat, rep) == t[k..] + ReplaceAll(v, pat, rep)
    decreases |t| - k
  {
    if k < |t| {
      var s := t[k..] + v;
      assert s[1..] == t[k + 1..] + v;
      ReplaceAllSkips(t, v, pat, rep, k + 1);
    } else {
      assert t[k..] + v == v;
    }
  }

  /** A match of a pattern apart from `t` at the start of `u + t + v` lies within `u`. */
  lemma MatchWithin(u: string, t: string, v: string, pat: string)
    requires Apart(pat, t) && u != []
    ensures pat <= u + t + v <==> |pat| <= |u| && pat <= u
  {
    var s := u + t + v;
    if |u| < |pat| {
      assert pat[1..][|u| - 1] == pat[|u|];
      assert s[|u|] == t[0];
    } else if pat <= u {
      assert forall i :: 0 <= i < |pat| ==> s[i] == u[i];
    } else {
      assert forall i :: 0 <= i < |pat| ==> s[i] == u[i];
    }
  }

  /** Replacing a pattern apart from `t` treats the text before and after an
      occurrence of `t` separately and keeps `t` itself. */
  lemma {:induction false} ReplaceAllAround(u: string, t: string, v: string, pat: string, rep: string)
    requires Apart(pat, t)
    ensures ReplaceAll(u + t + v, pat, rep) == ReplaceAll(u, pat, rep) + t + ReplaceAll(v, pat, rep)
    decreases |u|
  {
    var s := u + t + v;
    if u == [] {
      assert s == t[0..] + v;
      ReplaceAllSkips(t, v, pat, rep, 0);
    } else {
      MatchWithin(u, t, v, pat);
      if pat <= s {
        ReplaceAllAround(u[|pat|..], t, v, pat, rep);
        assert s[|pat|..] == u[|pat|..] + t + v;
        AroundAfterMatch(u, t, v, s, pat, rep);
      } else {
        ReplaceAllAround(u[1..], t, v, pat, rep);
        assert s[1..] == u[1..] + t + v;
        AroundAfterSkip(u, t, v, s, pat, rep);
      }
    }
  }

  /** One replacement at the start of `s`. */
  lemma ReplaceAllHead(s: string, pat: string, rep: string)
    requires pat != [] && pat <= s
    ensures ReplaceAll(s, pat, rep) == rep + ReplaceAll(s[|pat|..], pat, rep)
  {
  }

  /** One character copied from the start of `s`. */
  lemma ReplaceAllCopy(s: string, pat: string, rep: string)
    requires pat != [] && s != [] && !(pat <= s)
    ensures ReplaceAll(s, pat, rep) == [s[0]] + ReplaceAll(s[1..], pat, rep)
  {
  }

  lemma ConcatAssoc(r: string, a: string, t: string, b: string)
    ensures r + (a + t + b) == (r + a) + t + b
  {
  }

  /** The step of `ReplaceAllAround` where `u` starts with the pattern. */
  lemma AroundAfterMatch(u: string, t: string, v: string, w: string, pat: string, rep: string)
    requires pat != [] && pat <= u && pat <= w && w == u + t + v
    requires ReplaceAll(w[|pat|..], pat, rep) == ReplaceAll(u[|pat|..], pat, rep) + t + ReplaceAll(v, pat, rep)
    ensures ReplaceAll(w, pat, rep) == ReplaceAll(u, pat, rep) + t + ReplaceAll(v, pat, rep)
  {
    ReplaceAllHead(w, pat, rep);
    ReplaceAllHead(u, pat, rep);
    ConcatAssoc(rep, ReplaceAll(u[|pat|..], pat, rep), t, ReplaceAll(v, pat, rep));
  }

  /** The step of `ReplaceAllAround` where `u` does not start with the pattern. */
  lemma AroundAfterSkip(u: string, t: string, v: string, w: string, pat: string, rep: string)
    requires pat != [] && u != [] && !(pat <= u) && !(pat <= w) && w == u + t + v
    requires ReplaceAll(w[1..], pat, rep) == ReplaceAll(u[1..], pat, rep) + t + ReplaceAll(v, pat, rep)
    ensures ReplaceAll(w, pat, rep) == ReplaceAll(u, pat, rep) + t + ReplaceAll(v, pat, rep)
  {
    ReplaceAllCopy(w, pat, rep);
    ReplaceAllCopy(u, pat, rep);
    assert w[0] == u[0];
    ConcatAssoc([u[0]], ReplaceAll(u[1..], pat, rep), t, ReplaceAll(v, pat, rep));
  }

  /** An occurrence of `t` survives the replacement of a pattern apart from it. */
  lemma ReplaceAllKeeps(s: string, t: string, pat: string, rep: string)
    requires Apart(pat, t) && Contains(s, t)
    ensures Contains(ReplaceAll(s, pat, rep), t)
  {
    var i := Occurrence(s, t);
    assert s == s[..i] + t + s[i + |t|..];
    ReplaceAllAround(s[..i], t, s[i + |t|..], pat, rep);
    ContainsMiddle(ReplaceAll(s[..i], pat, rep), t, ReplaceAll(s[i + |t|..], pat, rep));
  }

  // ---------------------------------------------------------------------------
  // str.split() and ' '.join(...)

  /** A token of `s.split()`: non-empty and free of whitespace. */
  predicate IsWord(w: string) {
    w != [] && forall i :: 0 <= i < |w| ==> !IsSpace(w[i])
  }

  /** The length of the run of non-whitespace characters at the start of `s`. */
  function WordLength(s: string): (n: nat)
    ensures n <= |s|
    ensures forall i :: 0 <= i < n ==> !IsSpace(s[i])
    ensures n < |s| ==> IsSpace(s[n])
    decreases |s|
  {
    if s == [] || IsSpace(s[0]) then 0 else 1 + WordLength(s[1..])
  }

  /** `s.split()`: the maximal runs of non-whitespace characters, in order. */
  function Words(s: string): (ws: seq<string>)
    ensures forall k :: 0 <= k < |ws| ==> IsWord(ws[k])
    decreases |s|
  {
    if s == [] then []
    else if IsSpace(s[0]) then Words(s[1..])
    else
      var n := WordLength(s);
      [s[..n]] + Words(s[n..])
  }

  /** `' '.join(ws)`. */
  function JoinSpaced(ws: seq<string>): string
  {
    if ws == [] then []
    else if |ws| == 1 then ws[0]
    else ws[0] + " " + JoinSpaced(ws[1..])
  }

  /** `' '.join(s.split())`: runs of whitespace become one space, and leading and
      trailing whitespace disappears. */
  function Collapse(s: string): string {
    JoinSpaced(Words(s))
  }

  /** The spacing of text with single spaces between words: no whitespace at either
      end, and each whitespace character is a space with a word character on both
      sides. */
  predicate WellSpaced(r: string) {
    && (r != [] ==> !IsSpace(r[0]) && !IsSpace(r[|r| - 1]))
    && forall i :: 0 <= i < |r| && IsSpace(r[i]) ==>
         r[i] == ' ' && 0 < i < |r| - 1 && !IsSpace(r[i - 1]) && !IsSpace(r[i + 1])
  }

  lemma {:induction false} JoinSpacedWellSpaced(ws: seq<string>)
    requires forall k :: 0 <= k < |ws| ==> IsWord(ws[k])
    ensures WellSpaced(JoinSpaced(ws))
  {
    if |ws| > 1 {
      JoinSpacedWellSpaced(ws[1..]);
      var w, rest := ws[0], JoinSpaced(ws[1..]);
      var r := w + " " + rest;
      assert ws[1..][0] == ws[1];
      assert rest != [] && rest[0] == ws[1][0] by {
        if |ws[1..]| > 1 { assert rest == ws[1] + " " + JoinSpaced(ws[2..]); }
      }
      forall i | 0 <= i < |r| && IsSpace(r[i])
        ensures r[i] == ' ' && 0 < i < |r| - 1 && !IsSpace(r[i - 1]) && !IsSpace(r[i + 1])
      {
        if i > |w| {
          assert r[i] == rest[i - |w| - 1];
        }
      }
    }
  }

  /** The spacing the whitespace collapse produces. */
  lemma CollapseWellSpaced(s: string)
    ensures WellSpaced(Collapse(s))
  {
    JoinSpacedWellSpaced(Words(s));
  }

  lemma {:induction false} WordLengthOfWord(w: string, rest: string)
    requires IsWord(w) && (rest == [] || IsSpace(rest[0]))
    ensures WordLength(w + rest) == |w|
    decreases |w|
  {
    assert (w + rest)[1..] == w[1..] + rest;
    if |w| > 1 {
      WordLengthOfWord(w[1..], rest);
    } else {
      assert w[1..] + rest == rest;
    }
  }

  /** Splitting the joined words gives the words back. */
  lemma {:induction false} WordsOfJoinSpaced(ws: seq<string>)
    requires forall k :: 0 <= k < |ws| ==> IsWord(ws[k])
    ensures Words(JoinSpaced(ws)) == ws
  {
    if ws == [] {
    } else if |ws| == 1 {
      var w := ws[0];
      WordLengthOfWord(w, []);
      assert w + [] == w;
      assert w[|w|..] == [];
      assert w[..|w|] == w;
    } else {
      var w, rest := ws[0], JoinSpaced(ws[1..]);
      var s := w + " " + rest;
      WordLengthOfWord(w, " " + rest);
      assert s == w + (" " + rest);
      assert s[..|w|] == w;
      assert s[|w|..] == " " + rest;
      assert (" " + rest)[1..] == rest;
      WordsOfJoinSpaced(ws[1..]);
    }
  }

  /** The whitespace collapse keeps the tokens of its input, in their order. */
  lemma CollapseWords(s: string)
    ensures Words(Collapse(s)) == Words(s)
  {
    WordsOfJoinSpaced(Words(s));
  }

  /** Each joined word occurs in the joined text. */
  lemma {:induction false} JoinSpacedContains(ws: seq<string>, k: nat)
    requires k < |ws|
    ensures Contains(JoinSpaced(ws), ws[k])
  {
    if |ws| == 1 {
      ContainsMiddle([], ws[0], []);
      assert [] + ws[0] + [] == ws[0];
    } else if k == 0 {
      ContainsMiddle([], ws[0], " " + JoinSpaced(ws[1..]));
      assert [] + ws[0] + (" " + JoinSpaced(ws[1..])) == JoinSpaced(ws);
    } else {
      JoinSpacedContains(ws[1..], k - 1);
      ContainsTransitive(JoinSpaced(ws), JoinSpaced(ws[1..]), ws[k]) by {
        ContainsMiddle(ws[0] + " ", JoinSpaced(ws[1..]), []);
        assert ws[0] + " " + JoinSpaced(ws[1..]) + [] == JoinSpaced(ws);
      }
    }
  }

  /** A whitespace-free text inside `u + t + v` lies inside one of its words. */
  lemma {:induction false} WordsContain(u: string, t: string, v: string) returns (k: nat)
    requires IsWord(t)
    ensures k < |Words(u + t + v)| && Contains(Words(u + t + v)[k], t)
    decreases |u|
  {
    var s := u + t + v;
    if IsSpace(s[0]) {
      assert s[1..] == u[1..] + t + v;
      k := WordsContain(u[1..], t, v);
    } else {
      var n := WordLength(s);
      assert forall j :: |u| <= j < |u| + |t| ==> s[j] == t[j - |u|];
      if |u| + |t| <= n {
        k := 0;
        assert s[..n] == u + t + s[|u| + |t|..n];
        ContainsMiddle(u, t, s[|u| + |t|..n]);
      } else {
        assert s[n..] == u[n..] + t + v;
        var k' := WordsContain(u[n..], t, v);
        k := k' + 1;
      }
    }
  }

  /** The whitespace collapse keeps every whitespace-free piece of text. */
  lemma CollapseKeeps(s: string, t: string)
    requires IsWord(t) && Contains(s, t)
    ensures Contains(Collapse(s), t)
  {
    var i := Occurrence(s, t);
    assert s == s[..i] + t + s[i + |t|..];
    var k := WordsContain(s[..i], t, s[i + |t|..]);
    JoinSpacedContains(Words(s), k);
    ContainsTransitive(Collapse(s), Words(s)[k], t);
  }

  // ---------------------------------------------------------------------------
  // str.strip()

  function StripLeft(s: string): (r: string)
    ensures |r| <= |s| && r == s[|s| - |r|..]
    ensures r != [] ==> !IsSpace(r[0])
    ensures forall i :: 0 <= i < |s| - |r| ==> IsSpace(s[i])
    decreases |s|
  {
    if s != [] && IsSpace(s[0]) then StripLeft(s[1..]) else s
  }

  function StripRight(s: string): (r: string)
    ensures |r| <= |s| && r == s[..|r|]
    ensures r != [] ==> !IsSpace(r[|r| - 1])
    ensures forall i :: |r| <= i < |s| ==> IsSpace(s[i])
    decreases |s|
  {
    if s != [] && IsSpace(s[|s| - 1]) then StripRight(s[..|s| - 1]) else s
  }

  /** `s.strip()`: `s` without its leading and trailing whitespace. */
  function Strip(s: string): string {
    StripRight(StripLeft(s))
  }

  /** Text without whitespace at either end is its own strip. */
  lemma StripTrimmed(s: string)
    requires s != [] ==> !IsSpace(s[0]) && !IsSpace(s[|s| - 1])
    ensures Strip(s) == s
  {
  }

  // ---------------------------------------------------------------------------
  // str.split(sep) and sep.join(...)

  /** `s.split(c)`: the pieces between the occurrences of `c`; there is always
      one more piece than there are separators, and none contains `c`. */
  function SplitOn(s: string, c: char): (parts: seq<string>)
    ensures |parts| >= 1
    ensures forall k :: 0 <= k < |parts| ==> c !in parts[k]
    decreases |s|
  {
    if s == [] then [[]]
    else
      var rest := SplitOn(s[1..], c);
      if s[0] == c then [[]] + rest
      else [[s[0]] + rest[0]] + rest[1..]
  }

  /** A split has one more piece than the text has separators. */
  lemma {:induction false} SplitOnCount(s: string, c: char)
    ensures |SplitOn(s, c)| == multiset(s)[c] + 1
    decreases |s|
  {
    if s != [] {
      SplitOnCount(s[1..], c);
      assert s == [s[0]] + s[1..];
    }
  }

  /** `c.join(parts)`. */
  function JoinOn(parts: seq<string>, c: char): string
    requires parts != []
  {
    if |parts| == 1 then parts[0] else parts[0] + [c] + JoinOn(parts[1..], c)
  }

  /** Joining the pieces of a split gives the text back. */
  lemma {:induction false} JoinOnSplitOn(s: string, c: char)
    ensures JoinOn(SplitOn(s, c), c) == s
    decreases |s|
  {
    if s != [] {
      var rest := SplitOn(s[1..], c);
      JoinOnSplitOn(s[1..], c);
      if s[0] == c {
        assert SplitOn(s, c)[1..] == rest;
      } else {
        var parts := SplitOn(s, c);
        assert parts[1..] == rest[1..];
        if |rest| > 1 {
          assert JoinOn(rest, c) == rest[0] + [c] + JoinOn(rest[1..], c);
        }
      }
    }
  }

  /** A separator-free prefix extends the first piece of the split. */
  lemma {:induction false} SplitOnPrefix(p: string, tail: string, c: char)
    requires c !in p
    ensures SplitOn(p + tail, c) == [p + SplitOn(tail, c)[0]] + SplitOn(tail, c)[1..]
    decreases |p|
  {
    var ts := SplitOn(tail, c);
    if p == [] {
      assert p + tail == tail;
      assert p + ts[0] == ts[0];
      assert ts == [ts[0]] + ts[1..];
    } else {
      assert (p + tail)[1..] == p[1..] + tail;
      assert c !in p[1..] by { assert forall i :: 0 <= i < |p[1..]| ==> p[1..][i] == p[i + 1]; }
      SplitOnPrefix(p[1..], tail, c);
      assert [p[0]] + (p[1..] + ts[0]) == p + ts[0];
    }
  }

  /** Splitting a join of separator-free pieces gives the pieces back. */
  lemma {:induction false} SplitOnJoinOn(parts: seq<string>, c: char)
    requires parts != []
    requires forall k :: 0 <= k < |parts| ==> c !in parts[k]
    ensures SplitOn(JoinOn(parts, c), c) == parts
    decreases |parts|
  {
    var p := parts[0];
    if |parts| == 1 {
      SplitOnPrefix(p, [], c);
      assert p + [] == p;
    } else {
      var rest := JoinOn(parts[1..], c);
      assert JoinOn(parts, c) == p + ([c] + rest);
      SplitOnPrefix(p, [c] + rest, c);
      assert ([c] + rest)[1..] == rest;
      SplitOnJoinOn(parts[1..], c);
      assert p + [] == p;
    }
  }
}
