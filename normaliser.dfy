/** `MathBot.preprocess_expression`: the user's text becomes the expression the
    dispatcher inspects. A fixed table of Russian command words is applied in
    order: its first four entries (`реши`, `решить`, `посчитай`, `вычисли`) are
    deleted, and the other five are renamed to the English names of library calls.
    Then `^` becomes `**`, `π` becomes `pi` and `∞` becomes `oo`; finally
    whitespace is collapsed. */
module Normaliser {
  import opened Text

  /** The Russian-to-English table, in the order `dict.items()` visits it. */
  const CommandWords: seq<(string, string)> := [
    ("реши", ""),
    ("решить", ""),
    ("посчитай", ""),
    ("вычисли", ""),
    ("производная", "diff"),
    ("интеграл", "integrate"),
    ("предел", "limit"),
    ("упростить", "simplify"),
    ("уравнение", "solve")
  ]

  predicate Patterns(rules: seq<(string, string)>) {
    forall k :: 0 <= k < |rules| ==> rules[k].0 != []
  }

  /** `for rus, eng in rules: text = text.replace(rus, eng)`. */
  function ApplyRules(s: string, rules: seq<(string, string)>): string
    requires Patterns(rules)
  {
    if rules == [] then s
    else
      var last := rules[|rules| - 1];
      ReplaceAll(ApplyRules(s, rules[..|rules| - 1]), last.0, last.1)
  }

  /** The table's substitutions, then the three glyph rewrites. */
  function Substituted(text: string): string {
    var s := ApplyRules(text, CommandWords);
    ReplaceAll(ReplaceAll(ReplaceAll(s, "^", "**"), "π", "pi"), "∞", "oo")
  }

  /** What `preprocess_expression(text)` returns. */
  function Normalised(text: string): string {
    Strip(Collapse(Substituted(text)))
  }

  method Preprocess(text: string) returns (r: string)
    ensures r == Normalised(text)
  {
    var s := text;
    for i := 0 to |CommandWords|
      invariant s == ApplyRules(text, CommandWords[..i])
    {
      var (rus, eng) := CommandWords[i];
      assert CommandWords[..i + 1][..i] == CommandWords[..i];
      s := ReplaceAll(s, rus, eng);
    }
    assert CommandWords[..|CommandWords|] == CommandWords;
    s := ReplaceAll(s, "^", "**");
    s := ReplaceAll(s, "π", "pi");
    s := ReplaceAll(s, "∞", "oo");
    s := JoinSpaced(Words(s));
    r := Strip(s);
  }

  /** The whitespace collapse leaves nothing for the final strip to remove. */
  lemma NormalisedIsCollapsed(text: string)
    ensures Normalised(text) == Collapse(Substituted(text))
  {
    CollapseWellSpaced(Substituted(text));
    StripTrimmed(Collapse(Substituted(text)));
  }

  /** The output contains no caret, no `π` and no `∞`. */
  lemma NormalisedHasNoGlyphs(text: string)
    ensures '^' !in Normalised(text) && 'π' !in Normalised(text) && '∞' !in Normalised(text)
  {
    var s0 := ApplyRules(text, CommandWords);
    var s1 := ReplaceAll(s0, "^", "**");
    var s2 := ReplaceAll(s1, "π", "pi");
    var s3 := ReplaceAll(s2, "∞", "oo");
    ReplaceAllRemoves(s0, '^', "**");
    ReplaceAllRemoves(s1, 'π', "pi");
    ReplaceAllRemoves(s2, '∞', "oo");
    ReplaceAllChars(s1, "π", "pi", '^');
    ReplaceAllChars(s2, "∞", "oo", '^');
    ReplaceAllChars(s2, "∞", "oo", 'π');
    NormalisedIsCollapsed(text);
    CollapseChars(s3, '^');
    CollapseChars(s3, 'π');
    CollapseChars(s3, '∞');
  }

  /** The collapse only removes characters and adds spaces. */
  lemma CollapseChars(s: string, c: char)
    requires c != ' ' && c !in s
    ensures c !in Collapse(s)
  {
    WordsChars(s, c);
    JoinSpacedChars(Words(s), c);
  }

  lemma {:induction false} WordsChars(s: string, c: char)
    requires c !in s
    ensures forall k :: 0 <= k < |Words(s)| ==> c !in Words(s)[k]
    decreases |s|
  {
    if s != [] {
      if IsSpace(s[0]) {
        WordsChars(s[1..], c);
      } else {
        var n := WordLength(s);
        assert c !in s[..n] && c !in s[n..] by {
          assert forall i :: 0 <= i < n ==> s[..n][i] == s[i];
          assert forall i :: 0 <= i < |s| - n ==> s[n..][i] == s[n + i];
        }
        WordsChars(s[n..], c);
      }
    }
  }

  lemma {:induction false} JoinSpacedChars(ws: seq<string>, c: char)
    requires c != ' ' && forall k :: 0 <= k < |ws| ==> c !in ws[k]
    ensures c !in JoinSpaced(ws)
  {
    if |ws| > 1 {
      JoinSpacedChars(ws[1..], c);
    }
  }

  /** The output is collapsed: no whitespace at either end, and single spaces
      between tokens. */
  lemma NormalisedWellSpaced(text: string)
    ensures WellSpaced(Normalised(text))
  {
    NormalisedIsCollapsed(text);
    CollapseWellSpaced(Substituted(text));
  }

  /** The output's tokens are the substituted text's whitespace-separated tokens,
      in their original order. */
  lemma NormalisedTokens(text: string)
    ensures Words(Normalised(text)) == Words(Substituted(text))
  {
    NormalisedIsCollapsed(text);
    CollapseWords(Substituted(text));
  }

  /** The table is applied entry by entry, so `реши` fires before `решить` can:
      the word `решить` leaves its last two letters behind. */
  lemma SolveCommandLeavesTail()
    ensures Normalised("решить") == "ть"
  {
    SubstitutedSolveWord();
    NormalisedIsCollapsed("решить");
    TailIsWord();
    CollapseWord("ть");
  }

  /** The entry `решить` does fire when deleting `реши` joins the pieces around
      it into `решить`: the message `ререшишить` normalises to nothing. */
  lemma SolveWordRebuilt()
    ensures Normalised("ререшишить") == ""
  {
    RebuiltBySolveEntry();
    assert ApplyRules("ререшишить", CommandWords[..2]) == "" by {
      assert CommandWords[..2][..1] == CommandWords[..1];
      assert ReplaceAll("решить", "решить", "") == "";
    }
    ApplyRulesFixed("ререшишить", "", CommandWords, 2);
    assert Substituted("ререшишить") == "";
    assert Words("") == [];
  }

  lemma RebuiltBySolveEntry()
    ensures ApplyRules("ререшишить", CommandWords[..1]) == "решить"
  {
    var s := "ререшишить";
    var rest := "ерешишить";
    assert s[2] != "реши"[2] && s[1..] == rest;
    ReplaceAllCopy(s, "реши", "");
    assert rest[0] != "реши"[0] && rest[1..] == "решишить";
    ReplaceAllCopy(rest, "реши", "");
    SolveEntryInMiddle();
    assert ['р'] + (['е'] + "шить") == "решить";
    assert CommandWords[..1] == [("реши", "")];
  }

  lemma SolveEntryInMiddle()
    ensures ReplaceAll("решишить", "реши", "") == "шить"
  {
    var s := "решишить";
    assert s[..4] == "реши";
    ReplaceAllHead(s, "реши", "");
    assert s[4..] == "шить";
    SolveEntryMissesRest();
  }

  lemma SolveEntryMissesRest()
    ensures ReplaceAll("шить", "реши", "") == "шить"
  {
    var t := "шить";
    assert t[0] != "реши"[0];
    ShortAbsent(t[1..], "реши");
    ReplaceAllAbsent(t, "реши", "");
  }

  lemma TailIsWord()
    ensures IsWord("ть")
  {
    assert "ть"[0] == 'т' && "ть"[1] == 'ь';
  }

  lemma SubstitutedSolveWord()
    ensures Substituted("решить") == "ть"
  {
    FirstCommandOnSolve();
    LaterCommandsMissTail();
    ApplyRulesFixed("решить", "ть", CommandWords, 1);
    GlyphsMissTail();
  }

  lemma CollapseWord(w: string)
    requires IsWord(w)
    ensures Collapse(w) == w
  {
    WordsOfJoinSpaced([w]);
  }

  lemma FirstCommandOnSolve()
    ensures ApplyRules("решить", CommandWords[..1]) == "ть"
  {
    var t := "ть";
    assert ReplaceAll("решить", "реши", "") == t by {
      assert "реши" <= "решить";
      assert "решить"[4..] == t;
      ShortAbsent(t, "реши");
      ReplaceAllAbsent(t, "реши", "");
    }
    assert CommandWords[..1] == [("реши", "")];
  }

  lemma LaterCommandsMissTail()
    ensures forall j :: 1 <= j < |CommandWords| ==> ReplaceAll("ть", CommandWords[j].0, CommandWords[j].1) == "ть"
  {
    forall j | 1 <= j < |CommandWords|
      ensures ReplaceAll("ть", CommandWords[j].0, CommandWords[j].1) == "ть"
    {
      assert |CommandWords[j].0| > 2;
      ShortAbsent("ть", CommandWords[j].0);
      ReplaceAllAbsent("ть", CommandWords[j].0, CommandWords[j].1);
    }
  }

  lemma GlyphsMissTail()
    ensures ReplaceAll(ReplaceAll(ReplaceAll("ть", "^", "**"), "π", "pi"), "∞", "oo") == "ть"
  {
    var t := "ть";
    ContainsChar(t, '^');
    ReplaceAllAbsent(t, "^", "**");
    ContainsChar(t, 'π');
    ReplaceAllAbsent(t, "π", "pi");
    ContainsChar(t, '∞');
    ReplaceAllAbsent(t, "∞", "oo");
  }

  lemma {:induction false} ShortAbsent(s: string, pat: string)
    requires |s| < |pat|
    ensures !Contains(s, pat)
    decreases |s|
  {
    if s != [] {
      ShortAbsent(s[1..], pat);
    }
  }

  /** Rules from index `k` on that leave `t` unchanged keep it unchanged. */
  lemma {:induction false} ApplyRulesFixed(s: string, t: string, rules: seq<(string, string)>, k: nat)
    requires Patterns(rules) && 1 <= k <= |rules|
    requires ApplyRules(s, rules[..k]) == t
    requires forall j :: k <= j < |rules| ==> ReplaceAll(t, rules[j].0, rules[j].1) == t
    ensures ApplyRules(s, rules) == t
    decreases |rules| - k
  {
    if k == |rules| {
      assert rules[..k] == rules;
    } else {
      assert rules[..k + 1][..k] == rules[..k];
      ApplyRulesFixed(s, t, rules, k + 1);
    }
  }

  /** Rules from index `k` on whose patterns are apart from `t` keep every
      occurrence of `t`. */
  lemma {:induction false} ApplyRulesKeep(s: string, t: string, rules: seq<(string, string)>, k: nat)
    requires Patterns(rules) && k <= |rules|
    requires Contains(ApplyRules(s, rules[..k]), t)
    requires forall j :: k <= j < |rules| ==> Apart(rules[j].0, t)
    ensures Contains(ApplyRules(s, rules), t)
    decreases |rules| - k
  {
    if k == |rules| {
      assert rules[..k] == rules;
    } else {
      assert rules[..k + 1][..k] == rules[..k];
      ReplaceAllKeeps(ApplyRules(s, rules[..k]), t, rules[k].0, rules[k].1);
      ApplyRulesKeep(s, t, rules, k + 1);
    }
  }

  /** Any input that contains `производная` yields an expression that contains
      `diff`: the command words deleted before it cannot overlap it, and nothing
      after it can touch `diff`. */
  lemma DerivativeBecomesDiff(text: string)
    requires Contains(text, "производная")
    ensures Contains(Normalised(text), "diff")
  {
    SubstitutedHasDiff(text);
    DiffIsWord();
    CollapseKeeps(Substituted(text), "diff");
    NormalisedIsCollapsed(text);
  }

  lemma SubstitutedHasDiff(text: string)
    requires Contains(text, "производная")
    ensures Contains(Substituted(text), "diff")
  {
    DerivativeSurvivesDeletions(text);
    TableYieldsDiff(text);
    GlyphsKeepDiff(ApplyRules(text, CommandWords));
  }

  lemma DiffIsWord()
    ensures IsWord("diff")
  {
  }

  lemma DerivativeSurvivesDeletions(text: string)
    requires Contains(text, "производная")
    ensures Contains(ApplyRules(text, CommandWords[..4]), "производная")
  {
    assert CommandWords[..4][..0] == [];
    DeletionsApartFromDerivative();
    ApplyRulesKeep(text, "производная", CommandWords[..4], 0);
  }

  lemma TableYieldsDiff(text: string)
    requires Contains(ApplyRules(text, CommandWords[..4]), "производная")
    ensures Contains(ApplyRules(text, CommandWords), "diff")
  {
    assert CommandWords[..5][..4] == CommandWords[..4];
    assert CommandWords[4] == ("производная", "diff");
    ReplaceAllFires(ApplyRules(text, CommandWords[..4]), "производная", "diff");
    assert Contains(ApplyRules(text, CommandWords[..5]), "diff");
    LaterCommandsApartFromDiff();
    ApplyRulesKeep(text, "diff", CommandWords, 5);
  }

  lemma GlyphsKeepDiff(s0: string)
    requires Contains(s0, "diff")
    ensures Contains(ReplaceAll(ReplaceAll(ReplaceAll(s0, "^", "**"), "π", "pi"), "∞", "oo"), "diff")
  {
    var s1 := ReplaceAll(s0, "^", "**");
    var s2 := ReplaceAll(s1, "π", "pi");
    GlyphsApartFromDiff();
    ReplaceAllKeeps(s0, "diff", "^", "**");
    ReplaceAllKeeps(s1, "diff", "π", "pi");
    ReplaceAllKeeps(s2, "diff", "∞", "oo");
  }

  lemma DeletionsApartFromDerivative()
    ensures forall j :: 0 <= j < 4 ==> Apart(CommandWords[..4][j].0, "производная")
  {
    var w := "производная";
    assert Apart("реши", w) by { assert w[1] == 'р' && w[2] != 'е'; }
    assert Apart("решить", w) by { assert w[1] == 'р' && w[2] != 'е'; }
    assert Apart("посчитай", w) by { assert w[0] == 'п' && w[1] != 'о'; }
    assert Apart("вычисли", w) by { assert w[5] == 'в' && w[6] != 'ы'; }
  }

  lemma LaterCommandsApartFromDiff()
    ensures forall j :: 5 <= j < |CommandWords| ==> Apart(CommandWords[j].0, "diff")
  {
  }

  lemma GlyphsApartFromDiff()
    ensures Apart("^", "diff") && Apart("π", "diff") && Apart("∞", "diff")
  {
  }
}
