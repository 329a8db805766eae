/**
  The matcher of grep.c (chapter 9 of "The Practice of Programming") against
  what a pattern means.

  Patterns and texts are C strings without their terminating NUL.
 */
module Regex {
  // ------------------------------------------------------------ the matcher

  /** text begins with a character that c stands for. */
  predicate Heads(c: char, text: string) {
    text != "" && (c == '.' || c == text[0])
  }

  function MatchHere(re: string, text: string): bool
    decreases |re|, |text|, 1
  {
    if re == "" then true
    else if |re| > 1 && re[1] == '*' then MatchStar(re[0], re[2..], text)
    else if re == "$" then text == ""
    else Heads(re[0], text) && MatchHere(re[1..], text[1..])
  }

  /** The do-while loop of matchstar. */
  function MatchStar(c: char, re: string, text: string): bool
    decreases |re| + 2, |text|, 0
  {
    MatchHere(re, text) || (Heads(c, text) && MatchStar(c, re, text[1..]))
  }

  /** The do-while loop of match. */
  function MatchAnywhere(re: string, text: string): bool {
    MatchHere(re, text) || (text != "" && MatchAnywhere(re, text[1..]))
  }

  function Match(re: string, text: string): bool {
    if re != "" && re[0] == '^' then MatchHere(re[1..], text) else MatchAnywhere(re, text)
  }

  // ----------------------------------------------------- what patterns mean

  /** One: a single character; Many: any number of them. '.' stands for all. */
  datatype Item = One(c: char) | Many(c: char)

  datatype Pattern = Pattern(items: seq<Item>, atEnd: bool)

  /** The items a pattern spells, and whether it closes with an anchor. */
  function Parse(re: string): Pattern
    decreases |re|
  {
    if re == "" then Pattern([], false)
    else if |re| > 1 && re[1] == '*' then
      var rest := Parse(re[2..]); Pattern([Many(re[0])] + rest.items, rest.atEnd)
    else if re == "$" then Pattern([], true)
    else
      var rest := Parse(re[1..]); Pattern([One(re[0])] + rest.items, rest.atEnd)
  }

  predicate StandsFor(c: char, d: char) {
    c == '.' || c == d
  }

  /** The strings one item denotes. */
  predicate Denotes(item: Item, piece: string) {
    match item
    case One(c) => |piece| == 1 && StandsFor(c, piece[0])
    case Many(c) => forall i | 0 <= i < |piece| :: StandsFor(c, piece[i])
  }

  function Flatten(pieces: seq<string>): string {
    if pieces == [] then "" else pieces[0] + Flatten(pieces[1..])
  }

  /** word is cut into one piece per item, each denoted by its item. */
  ghost predicate Splits(items: seq<Item>, word: string, pieces: seq<string>) {
    && |pieces| == |items| && Flatten(pieces) == word
    && forall i | 0 <= i < |items| :: Denotes(items[i], pieces[i])
  }

  /** The language of a sequence of items. */
  ghost predicate InLanguage(items: seq<Item>, word: string) {
    exists pieces :: Splits(items, word, pieces)
  }

  /** text[i..j] is in the language; a closing anchor pins j to the end. */
  ghost predicate Occurs(pat: Pattern, text: string, i: int, j: int) {
    0 <= i <= j <= |text| && InLanguage(pat.items, text[i..j]) && (pat.atEnd ==> j == |text|)
  }

  ghost predicate Front(pat: Pattern, text: string) {
    exists j :: Occurs(pat, text, 0, j)
  }

  ghost predicate Somewhere(pat: Pattern, text: string) {
    exists i, j :: Occurs(pat, text, i, j)
  }

  /** What match promises: an occurrence, at the front if '^' leads the pattern. */
  ghost predicate Means(re: string, text: string) {
    if re != "" && re[0] == '^' then Front(Parse(re[1..]), text) else Somewhere(Parse(re), text)
  }

  // ------------------------------------------------------------- the proof

  lemma EmptyLanguage(word: string)
    ensures InLanguage([], word) <==> word == ""
  {
    if word == "" {
      assert Splits([], "", []);
    }
  }

  lemma SplitsCons(item: Item, items: seq<Item>, word: string, n: nat)
    requires n <= |word| && Denotes(item, word[..n]) && InLanguage(items, word[n..])
    ensures InLanguage([item] + items, word)
  {
    var pieces :| Splits(items, word[n..], pieces);
    var all := [word[..n]] + pieces;
    assert all[1..] == pieces;
    assert Splits([item] + items, word, all);
  }

  lemma SplitsUncons(item: Item, items: seq<Item>, word: string) returns (n: nat)
    requires InLanguage([item] + items, word)
    ensures n <= |word| && Denotes(item, word[..n]) && InLanguage(items, word[n..])
  {
    var all :| Splits([item] + items, word, all);
    n := |all[0]|;
    assert word == all[0] + Flatten(all[1..]);
    assert word[..n] == all[0] && word[n..] == Flatten(all[1..]);
    assert ([item] + items)[0] == item;
    forall i | 0 <= i < |items|
      ensures Denotes(items[i], all[1..][i])
    {
      assert ([item] + items)[i + 1] == items[i];
    }
    assert Splits(items, word[n..], all[1..]);
  }

  lemma FrontOne(c: char, pat: Pattern, text: string)
    ensures Front(Pattern([One(c)] + pat.items, pat.atEnd), text) <==> Heads(c, text) && Front(pat, text[1..])
  {
    var whole := Pattern([One(c)] + pat.items, pat.atEnd);
    if j :| Occurs(whole, text, 0, j) {
      var n := SplitsUncons(One(c), pat.items, text[0..j]);
      assert text[1..][0..j - 1] == text[0..j][1..];
      assert Occurs(pat, text[1..], 0, j - 1);
    }
    if Heads(c, text) && Front(pat, text[1..]) {
      var j :| Occurs(pat, text[1..], 0, j);
      assert text[0..j + 1][1..] == text[1..][0..j];
      SplitsCons(One(c), pat.items, text[0..j + 1], 1);
      assert Occurs(whole, text, 0, j + 1);
    }
  }

  /** c* at the front: it takes nothing, or a character and then the rest. */
  lemma ManyUnfolds(c: char, pat: Pattern, text: string, j: int)
    requires Occurs(Pattern([Many(c)] + pat.items, pat.atEnd), text, 0, j)
    ensures Front(pat, text) || (Heads(c, text) && Front(Pattern([Many(c)] + pat.items, pat.atEnd), text[1..]))
  {
    var word := text[0..j];
    var n := SplitsUncons(Many(c), pat.items, word);
    if n == 0 {
      assert word[0..] == word;
      assert Occurs(pat, text, 0, j);
    } else {
      assert StandsFor(c, word[..n][0]);
      var rest := text[1..][0..j - 1];
      assert rest == word[1..];
      assert rest[..n - 1] == word[..n][1..] && rest[n - 1..] == word[n..];
      SplitsCons(Many(c), pat.items, rest, n - 1);
      assert Occurs(Pattern([Many(c)] + pat.items, pat.atEnd), text[1..], 0, j - 1);
    }
  }

  lemma ManyTakesNothing(c: char, pat: Pattern, text: string, j: int)
    requires Occurs(pat, text, 0, j)
    ensures Front(Pattern([Many(c)] + pat.items, pat.atEnd), text)
  {
    assert text[0..j][0..] == text[0..j];
    SplitsCons(Many(c), pat.items, text[0..j], 0);
    assert Occurs(Pattern([Many(c)] + pat.items, pat.atEnd), text, 0, j);
  }

  lemma ManyTakesOneMore(c: char, pat: Pattern, text: string, j: int)
    requires Heads(c, text) && Occurs(Pattern([Many(c)] + pat.items, pat.atEnd), text[1..], 0, j)
    ensures Front(Pattern([Many(c)] + pat.items, pat.atEnd), text)
  {
    var word := text[1..][0..j];
    var n := SplitsUncons(Many(c), pat.items, word);
    var longer := text[0..j + 1];
    assert longer == [text[0]] + word;
    assert longer[..n + 1] == [text[0]] + word[..n] && longer[n + 1..] == word[n..];
    SplitsCons(Many(c), pat.items, longer, n + 1);
    assert Occurs(Pattern([Many(c)] + pat.items, pat.atEnd), text, 0, j + 1);
  }

  lemma FrontMany(c: char, pat: Pattern, text: string)
    ensures Front(Pattern([Many(c)] + pat.items, pat.atEnd), text)
       <==> Front(pat, text) || (Heads(c, text) && Front(Pattern([Many(c)] + pat.items, pat.atEnd), text[1..]))
  {
    hide Occurs;
    var whole := Pattern([Many(c)] + pat.items, pat.atEnd);
    if j :| Occurs(whole, text, 0, j) { ManyUnfolds(c, pat, text, j); }
    if j :| Occurs(pat, text, 0, j) { ManyTakesNothing(c, pat, text, j); }
    if Heads(c, text) && Front(whole, text[1..]) {
      var j :| Occurs(whole, text[1..], 0, j);
      ManyTakesOneMore(c, pat, text, j);
    }
  }

  lemma FrontNothing(text: string)
    ensures Front(Pattern([], false), text)
    ensures Front(Pattern([], true), text) <==> text == ""
  {
    EmptyLanguage("");
    assert text[0..0] == "";
    assert Occurs(Pattern([], false), text, 0, 0);
    if text == "" { assert Occurs(Pattern([], true), text, 0, 0); }
    if j :| Occurs(Pattern([], true), text, 0, j) {
      EmptyLanguage(text[0..j]);
    }
  }

  /** matchhere finds exactly what the pattern means at the front of the text. */
  lemma {:induction false} HereIsFront(re: string, text: string)
    ensures MatchHere(re, text) <==> Front(Parse(re), text)
    decreases |re|, |text|, 1
  {
    hide Front;
    if re == "" {
      FrontNothing(text);
    } else if |re| > 1 && re[1] == '*' {
      StarIsFront(re[0], re[2..], text);
    } else if re == "$" {
      FrontNothing(text);
    } else {
      FrontOne(re[0], Parse(re[1..]), text);
      if Heads(re[0], text) { HereIsFront(re[1..], text[1..]); }
    }
  }

  lemma {:induction false} StarIsFront(c: char, re: string, text: string)
    ensures MatchStar(c, re, text) <==> Front(Pattern([Many(c)] + Parse(re).items, Parse(re).atEnd), text)
    decreases |re| + 2, |text|, 0
  {
    hide Front;
    HereIsFront(re, text);
    FrontMany(c, Parse(re), text);
    if Heads(c, text) { StarIsFront(c, re, text[1..]); }
  }

  lemma {:induction false} AnywhereIsOccurs(re: string, text: string)
    ensures MatchAnywhere(re, text) <==> Somewhere(Parse(re), text)
    decreases |text|
  {
    var pat := Parse(re);
    HereIsFront(re, text);
    if text != "" {
      AnywhereIsOccurs(re, text[1..]);
      if i, j :| Occurs(pat, text[1..], i, j) {
        assert text[i + 1..j + 1] == text[1..][i..j];
        assert Occurs(pat, text, i + 1, j + 1);
      }
    }
    if i, j :| Occurs(pat, text, i, j) {
      if i > 0 {
        assert text[1..][i - 1..j - 1] == text[i..j];
        assert Occurs(pat, text[1..], i - 1, j - 1);
      } else {
        assert Front(pat, text);
      }
    }
  }

  /** match answers yes exactly when the pattern occurs in the text. */
  lemma MatchIsMeaning(re: string, text: string)
    ensures Match(re, text) <==> Means(re, text)
  {
    if re != "" && re[0] == '^' {
      HereIsFront(re[1..], text);
    } else {
      AnywhereIsOccurs(re, text);
    }
  }

  // ------------------------------------------------- the loops as written

  method MatchStarLoop(c: char, re: string, text: string) returns (found: bool)
    ensures found <==> MatchStar(c, re, text)
  {
    var t := 0;
    while true
      invariant t <= |text| && MatchStar(c, re, text) == MatchStar(c, re, text[t..])
      decreases |text| - t
    {
      if MatchHere(re, text[t..]) {
        return true;
      }
      if !(t < |text| && (text[t] == c || c == '.')) {
        return false;
      }
      t := t + 1;
    }
  }

  method MatchLoop(re: string, text: string) returns (found: bool)
    ensures found <==> Means(re, text)
  {
    hide Means;
    MatchIsMeaning(re, text);
    if re != "" && re[0] == '^' {
      return MatchHere(re[1..], text);
    }
    var t := 0;
    while true
      invariant t <= |text| && MatchAnywhere(re, text) == MatchAnywhere(re, text[t..])
      decreases |text| - t
    {
      if MatchHere(re, text[t..]) {
        return true;
      }
      if t == |text| {
        return false;
      }
      t := t + 1;
    }
  }
}
