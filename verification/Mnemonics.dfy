/** The phone mnemonics coder: all ways to spell a number with words of a dictionary. */
module Mnemonics {

  datatype Option<T> = None | Some(value: T)

  // ---------- codes of words ----------

  const MNEMONICS: map<char, string> := map[
    '2' := "ABC", '3' := "DEF", '4' := "GHI", '5' := "JKL", '6' := "MNO", '7' := "PQRS", '8' := "TUV", '9' := "WXYZ"]

  /** `Character.toUpperCase`, as far as it decides membership in 'A'..'Z'; two letters outside ASCII have an
      ASCII upper case. */
  function ToUpperCase(c: char): char {
    if 'a' <= c <= 'z' then (c as int - 'a' as int + 'A' as int) as char
    else if c == '\U{0131}' then 'I'
    else if c == '\U{017F}' then 'S'
    else c
  }

  /** The inverse of `MNEMONICS`. */
  function CharCode(c: char): Option<char> {
    if 'A' <= c <= 'C' then Some('2')
    else if 'D' <= c <= 'F' then Some('3')
    else if 'G' <= c <= 'I' then Some('4')
    else if 'J' <= c <= 'L' then Some('5')
    else if 'M' <= c <= 'O' then Some('6')
    else if 'P' <= c <= 'S' then Some('7')
    else if 'T' <= c <= 'V' then Some('8')
    else if 'W' <= c <= 'Z' then Some('9')
    else None
  }

  lemma CharCodeInvertsMnemonics(c: char, d: char)
    ensures CharCode(c) == Some(d) <==> d in MNEMONICS && c in MNEMONICS[d]
  {
    assert "ABC" == ['A', 'B', 'C'] && "DEF" == ['D', 'E', 'F'] && "GHI" == ['G', 'H', 'I'] && "JKL" == ['J', 'K', 'L'];
    assert "MNO" == ['M', 'N', 'O'] && "PQRS" == ['P', 'Q', 'R', 'S'] && "TUV" == ['T', 'U', 'V'];
    assert "WXYZ" == ['W', 'X', 'Y', 'Z'];
  }

  /** The piece that joining adds for one character: a character without a code adds the text "null". */
  function Piece(c: char): string {
    match CharCode(ToUpperCase(c))
    case Some(d) => [d]
    case None => "null"
  }

  function WordCode(word: string): string {
    if word == "" then "" else Piece(word[0]) + WordCode(word[1..])
  }

  predicate IsDigit(c: char) { '0' <= c <= '9' }

  ghost predicate Digits(s: string) { forall i :: 0 <= i < |s| ==> IsDigit(s[i]) }

  ghost predicate Alphabetic(word: string) { forall i :: 0 <= i < |word| ==> CharCode(ToUpperCase(word[i])).Some? }

  lemma CodeIsNotShorter(word: string)
    ensures |WordCode(word)| >= |word|
    ensures Alphabetic(word) ==> |WordCode(word)| == |word|
  {
    if word != "" {
      CodeIsNotShorter(word[1..]);
    }
  }

  /** Only alphabetic words have a code made of digits. */
  lemma {:induction false} DigitCodeIsAlphabetic(word: string)
    requires Digits(WordCode(word))
    ensures Alphabetic(word)
  {
    if word != "" {
      var rest := WordCode(word[1..]);
      assert forall i :: 0 <= i < |rest| ==> rest[i] == WordCode(word)[|Piece(word[0])| + i];
      DigitCodeIsAlphabetic(word[1..]);
      assert IsDigit(WordCode(word)[0]);
      assert forall i :: 1 <= i < |word| ==> word[i] == word[1..][i - 1];
    }
  }

  // ---------- the search ----------

  /** `groupingBy(wordCode)`: every word is in the list of its code. */
  function WordsForNum(words: seq<string>): map<string, seq<string>> {
    if words == [] then map[]
    else Added(WordsForNum(words[..|words| - 1]), words[|words| - 1])
  }

  /** How often a word is in a list. */
  ghost function Count(words: seq<string>, x: string): nat {
    if words == [] then 0 else Count(words[..|words| - 1], x) + if words[|words| - 1] == x then 1 else 0
  }

  lemma {:induction false} CountPositive(words: seq<string>, x: string)
    ensures Count(words, x) > 0 <==> x in words
  {
    if words != [] {
      CountPositive(words[..|words| - 1], x);
      assert words == words[..|words| - 1] + [words[|words| - 1]];
    }
  }

  lemma CountAppended(words: seq<string>, last: string, x: string)
    ensures Count(words + [last], x) == Count(words, x) + if last == x then 1 else 0
  {
    assert (words + [last])[..|words|] == words;
  }

  /** Every word is in the list of its code as often as in the dictionary, in any order, and in no other list; no
      list is empty. */
  ghost predicate GroupsWords(groups: map<string, seq<string>>, words: seq<string>) {
    && (forall code, x :: code in groups ==>
          Count(groups[code], x) == if code == WordCode(x) then Count(words, x) else 0)
    && (forall code :: code in groups ==> groups[code] != [])
    && (forall x :: x in words ==> WordCode(x) in groups)
  }

  lemma GroupMembers(groups: map<string, seq<string>>, words: seq<string>)
    requires GroupsWords(groups, words)
    ensures forall code, x :: code in groups && x in groups[code] ==> x in words && code == WordCode(x)
    ensures forall x :: x in words ==> WordCode(x) in groups && x in groups[WordCode(x)]
  {
    hide WordCode;
    forall code, x | code in groups && x in groups[code]
      ensures x in words && code == WordCode(x)
    {
      CountPositive(groups[code], x);
      CountPositive(words, x);
    }
    forall x | x in words
      ensures x in groups[WordCode(x)]
    {
      CountPositive(groups[WordCode(x)], x);
      CountPositive(words, x);
    }
  }

  lemma {:induction false} WordsForNumGroups(words: seq<string>)
    ensures GroupsWords(WordsForNum(words), words)
  {
    if words != [] {
      var init, last := words[..|words| - 1], words[|words| - 1];
      WordsForNumGroups(init);
      assert words == init + [last];
      GroupOneMore(WordsForNum(init), init, last);
    }
  }

  lemma GroupOneMore(groups: map<string, seq<string>>, words: seq<string>, last: string)
    requires GroupsWords(groups, words)
    ensures GroupsWords(Added(groups, last), words + [last])
  {
    hide WordCode, Count, Added;
    forall code, x
      ensures code in Added(groups, last) ==>
        Count(Added(groups, last)[code], x) == if code == WordCode(x) then Count(words + [last], x) else 0
    {
      if code in Added(groups, last) { OneMoreCount(groups, words, last, code, x); }
    }
    AddedGroups(groups, last);
  }

  function Added(groups: map<string, seq<string>>, last: string): map<string, seq<string>> {
    var code := WordCode(last);
    groups[code := (if code in groups then groups[code] else []) + [last]]
  }

  lemma AddedGroups(groups: map<string, seq<string>>, last: string)
    ensures forall code :: code in Added(groups, last) <==> code in groups || code == WordCode(last)
    ensures forall code :: code in groups && groups[code] != [] ==> Added(groups, last)[code] != []
    ensures Added(groups, last)[WordCode(last)] != []
  {
  }

  lemma OneMoreCount(groups: map<string, seq<string>>, words: seq<string>, last: string, code: string, x: string)
    requires GroupsWords(groups, words) && code in Added(groups, last)
    ensures Count(Added(groups, last)[code], x) == if code == WordCode(x) then Count(words + [last], x) else 0
  {
    hide WordCode, Count, GroupsWords;
    NoneOutside(groups, words, code, x);
    CountAppended(words, last, x);
    CountAppended(if code in groups then groups[code] else [], last, x);
  }

  /** How often a word is in the list of a code that may not be there yet. */
  lemma NoneOutside(groups: map<string, seq<string>>, words: seq<string>, code: string, x: string)
    requires GroupsWords(groups, words)
    ensures Count(if code in groups then groups[code] else [], x) ==
            if code == WordCode(x) then Count(words, x) else 0
  {
    CountPositive(words, x);
  }

  predicate EndsWith(s: string, suffix: string) {
    |suffix| <= |s| && s[|s| - |suffix|..] == suffix
  }

  /** The words of the dictionary that spell the end of `number`. */
  function Candidates(groups: map<string, seq<string>>, number: string): set<string> {
    set code, x | code in groups && EndsWith(number, code) && x in groups[code] :: x
  }

  lemma CandidatesAre(groups: map<string, seq<string>>, words: seq<string>, number: string, x: string)
    requires GroupsWords(groups, words)
    ensures x in Candidates(groups, number) <==> x in words && EndsWith(number, WordCode(x))
  {
    GroupMembers(groups, words);
    if x in words && EndsWith(number, WordCode(x)) {
      assert WordCode(x) in groups && x in groups[WordCode(x)];
    }
  }

  /** The phrases for one candidate, given those for the rest of the number. */
  function Phrases(x: string, number: string, intermediate: set<string>): set<string> {
    if |x| == |number| then {x} else set y | y in intermediate :: y + " " + x
  }

  function Prefixed(x: string, current: set<string>): set<string> {
    set y | y in current :: x + y
  }

  function Rest(number: string, x: string): string {
    if |x| <= |number| then number[..|number| - |x|] else ""
  }

  /** `encode` on any grouping of the dictionary, with a limit on the depth of the recursion: `None` if the limit
      is exceeded, as it is when one of the recursive calls exceeds it. */
  ghost function EncodeBy(
      groups: map<string, seq<string>>, words: seq<string>, number: string, current: set<string>, depth: nat)
      : Option<set<string>>
    decreases depth, 1
  {
    if depth == 0 then None
    else
      var candidates := Candidates(groups, number);
      if exists x :: x in candidates && Intermediate(words, number, current, depth - 1, x).None? then None
      else Some(Collect(candidates, number, x => Intermediate(words, number, current, depth - 1, x)))
  }

  /** The recursive call for one candidate. */
  ghost function Intermediate(
      words: seq<string>, number: string, current: set<string>, depth: nat, x: string): Option<set<string>>
    decreases depth, 3
  {
    Encode(words, Rest(number, x), Prefixed(x, current), depth)
  }

  ghost function Collect(candidates: set<string>, number: string, inter: string -> Option<set<string>>): set<string>
    requires forall x :: x in candidates ==> inter(x).Some?
  {
    set x, p | x in candidates && p in Phrases(x, number, inter(x).value) :: p
  }

  ghost function Encode(words: seq<string>, number: string, current: set<string>, depth: nat): Option<set<string>>
    decreases depth, 2
  {
    EncodeBy(WordsForNum(words), words, number, current, depth)
  }

  /** `translate`, up to a recursion depth. */
  ghost function Translate(words: seq<string>, number: string, depth: nat): Option<set<string>> {
    Encode(words, number, {}, depth)
  }

  /** `parallelTranslate`: the concurrent grouping may list the words of a code in any order. */
  ghost function ParallelTranslate(
      groups: map<string, seq<string>>, words: seq<string>, number: string, depth: nat): Option<set<string>>
    requires GroupsWords(groups, words)
  {
    EncodeBy(groups, words, number, {}, depth)
  }

  // ---------- the meaning of a translation ----------

  /** The codes of a phrase's words, one after the other. */
  function PhraseCode(phrase: seq<string>): string {
    if phrase == [] then "" else PhraseCode(phrase[..|phrase| - 1]) + WordCode(phrase[|phrase| - 1])
  }

  function Join(phrase: seq<string>): string {
    if phrase == [] then ""
    else if |phrase| == 1 then phrase[0]
    else Join(phrase[..|phrase| - 1]) + " " + phrase[|phrase| - 1]
  }

  ghost predicate Spells(words: seq<string>, phrase: seq<string>, number: string) {
    phrase != [] && (forall i :: 0 <= i < |phrase| ==> phrase[i] in words) && PhraseCode(phrase) == number
  }

  ghost predicate IsTranslation(words: seq<string>, number: string, p: string) {
    exists phrase :: Spells(words, phrase, number) && p == Join(phrase)
  }

  /** `result` is the exact set of translations. */
  ghost predicate Exact(words: seq<string>, number: string, result: set<string>) {
    forall p :: p in result <==> IsTranslation(words, number, p)
  }

  /** The last word of a phrase that spells `number` is a candidate, and the words before it spell the rest. */
  lemma SplitLast(words: seq<string>, number: string, phrase: seq<string>)
    requires "" !in words && Digits(number) && Spells(words, phrase, number)
    ensures
      var x, init := phrase[|phrase| - 1], phrase[..|phrase| - 1];
      && EndsWith(number, WordCode(x)) && 0 < |x| <= |number|
      && (if init == [] then |x| == |number| else Spells(words, init, Rest(number, x)) && |x| < |number|)
  {
    var x, init := phrase[|phrase| - 1], phrase[..|phrase| - 1];
    assert x in words;
    SuffixIsAlphabetic(number, x);
    assert number[..|number| - |x|] == PhraseCode(init);
    if init != [] {
      var w := init[|init| - 1];
      assert w == phrase[|init| - 1] && w in words;
      CodeIsNotShorter(w);
    }
  }

  lemma SuffixIsAlphabetic(number: string, x: string)
    requires Digits(number) && EndsWith(number, WordCode(x))
    ensures Alphabetic(x) && |WordCode(x)| == |x|
  {
    var code := WordCode(x);
    assert forall i :: 0 <= i < |code| ==> code[i] == number[|number| - |code| + i];
    DigitCodeIsAlphabetic(x);
    CodeIsNotShorter(x);
  }

  lemma ExtendPhrase(words: seq<string>, number: string, phrase: seq<string>, x: string)
    requires Digits(number) && x in words && EndsWith(number, WordCode(x))
    requires phrase == [] ==> |x| == |number|
    requires phrase != [] ==> |x| <= |number| && Spells(words, phrase, Rest(number, x))
    ensures Spells(words, phrase + [x], number)
    ensures phrase != [] ==> Join(phrase + [x]) == Join(phrase) + " " + x
  {
    SuffixIsAlphabetic(number, x);
    assert (phrase + [x])[..|phrase|] == phrase;
    assert number == number[..|number| - |x|] + WordCode(x);
  }

  /** Soundness for one candidate. */
  lemma PhrasesAreTranslations(words: seq<string>, number: string, x: string, intermediate: set<string>, p: string)
    requires Digits(number) && x in words && x != "" && EndsWith(number, WordCode(x))
    requires Exact(words, Rest(number, x), intermediate) && p in Phrases(x, number, intermediate)
    ensures IsTranslation(words, number, p)
  {
    SuffixIsAlphabetic(number, x);
    if |x| == |number| {
      ExtendPhrase(words, number, [], x);
      assert Join([] + [x]) == x;
    } else {
      var y :| y in intermediate && p == y + " " + x;
      var phrase :| Spells(words, phrase, Rest(number, x)) && y == Join(phrase);
      ExtendPhrase(words, number, phrase, x);
    }
  }

  /** Completeness: a translation comes from its last word. */
  lemma TranslationFromLastWord(words: seq<string>, number: string, p: string) returns (x: string, y: string)
    requires "" !in words && Digits(number) && IsTranslation(words, number, p)
    ensures x in words && EndsWith(number, WordCode(x)) && 0 < |x| <= |number|
    ensures if |x| == |number| then p == x else IsTranslation(words, Rest(number, x), y) && p == y + " " + x
  {
    var phrase :| Spells(words, phrase, number) && p == Join(phrase);
    SplitLast(words, number, phrase);
    x, y := phrase[|phrase| - 1], Join(phrase[..|phrase| - 1]);
    if |phrase| > 1 {
      assert phrase[..|phrase| - 1] != [];
      assert IsTranslation(words, Rest(number, x), y);
    }
  }

  ghost predicate ExactIntermediates(
      words: seq<string>, number: string, candidates: set<string>, inter: string -> Option<set<string>>)
  {
    forall x :: x in candidates ==>
      x in words && EndsWith(number, WordCode(x)) && inter(x).Some? && Exact(words, Rest(number, x), inter(x).value)
  }

  /** Exact results for the rests of the number combine to an exact result. */
  lemma CollectIsExact(
      words: seq<string>, number: string, candidates: set<string>, inter: string -> Option<set<string>>)
    requires "" !in words && Digits(number) && ExactIntermediates(words, number, candidates, inter)
    requires forall x :: x in words && EndsWith(number, WordCode(x)) ==> x in candidates
    ensures Exact(words, number, Collect(candidates, number, inter))
  {
    forall p
      ensures p in Collect(candidates, number, inter) <==> IsTranslation(words, number, p)
    {
      if p in Collect(candidates, number, inter) {
        var x :| x in candidates && p in Phrases(x, number, inter(x).value);
        PhrasesAreTranslations(words, number, x, inter(x).value, p);
      }
      if IsTranslation(words, number, p) {
        var x, y := TranslationFromLastWord(words, number, p);
        assert x in candidates && p in Phrases(x, number, inter(x).value);
      }
    }
  }

  /** The recursive step, for any grouping of the dictionary. */
  lemma StepIsExact(
      groups: map<string, seq<string>>, words: seq<string>, number: string, current: set<string>, depth: nat)
    requires "" !in words && GroupsWords(groups, words) && Digits(number) && depth > 0
    requires forall x :: x in words && EndsWith(number, WordCode(x)) ==>
               var r := Intermediate(words, number, current, depth - 1, x);
               r.Some? && Exact(words, Rest(number, x), r.value)
    ensures
      var r := EncodeBy(groups, words, number, current, depth);
      r.Some? && Exact(words, number, r.value)
  {
    var candidates := Candidates(groups, number);
    forall x
      ensures x in candidates <==> x in words && EndsWith(number, WordCode(x))
    {
      CandidatesAre(groups, words, number, x);
    }
    CollectIsExact(words, number, candidates, x => Intermediate(words, number, current, depth - 1, x));
  }

  /** Whatever has been translated before (`current`), `encode` yields exactly the translations. */
  lemma {:induction false} EncodeIsExact(words: seq<string>, number: string, current: set<string>, depth: nat)
    requires "" !in words && Digits(number) && depth > |number|
    ensures
      var r := Encode(words, number, current, depth);
      r.Some? && Exact(words, number, r.value)
    decreases depth
  {
    WordsForNumGroups(words);
    forall x | x in words && EndsWith(number, WordCode(x))
      ensures var r := Intermediate(words, number, current, depth - 1, x);
        r.Some? && Exact(words, Rest(number, x), r.value)
    {
      SuffixIsAlphabetic(number, x);
      EncodeIsExact(words, Rest(number, x), Prefixed(x, current), depth - 1);
    }
    StepIsExact(WordsForNum(words), words, number, current, depth);
  }

  lemma ParallelIsExact(words: seq<string>, number: string, depth: nat, groups: map<string, seq<string>>)
    requires "" !in words && Digits(number) && depth > |number| && GroupsWords(groups, words)
    ensures ParallelTranslate(groups, words, number, depth).Some?
    ensures Exact(words, number, ParallelTranslate(groups, words, number, depth).value)
  {
    forall x | x in words && EndsWith(number, WordCode(x))
      ensures var r := Intermediate(words, number, {}, depth - 1, x);
        r.Some? && Exact(words, Rest(number, x), r.value)
    {
      SuffixIsAlphabetic(number, x);
      EncodeIsExact(words, Rest(number, x), Prefixed(x, {}), depth - 1);
    }
    StepIsExact(groups, words, number, {}, depth);
  }

  lemma ExactIsUnique(words: seq<string>, number: string, a: set<string>, b: set<string>)
    requires Exact(words, number, a) && Exact(words, number, b)
    ensures a == b
  {
    assert forall p :: p in a <==> p in b;
  }

  /** `translate` and `parallelTranslate` both return exactly the translations of a digit string. */
  lemma TranslateIsExact(words: seq<string>, number: string, depth: nat, groups: map<string, seq<string>>)
    requires "" !in words && Digits(number) && depth > |number| && GroupsWords(groups, words)
    ensures Translate(words, number, depth).Some?
    ensures Exact(words, number, Translate(words, number, depth).value)
    ensures ParallelTranslate(groups, words, number, depth) == Translate(words, number, depth)
  {
    EncodeIsExact(words, number, {}, depth);
    ParallelIsExact(words, number, depth, groups);
    ExactIsUnique(words, number, Translate(words, number, depth).value,
                  ParallelTranslate(groups, words, number, depth).value);
  }

  // ---------- the same by letters and digits ----------

  /** The letter is this capital, or the capital is its upper case. */
  ghost predicate HasCapital(c: char, capital: char) {
    || c == capital
    || ('a' <= c <= 'z' && c as int - 'a' as int == capital as int - 'A' as int)
    || (c == '\U{0131}' && capital == 'I')
    || (c == '\U{017F}' && capital == 'S')
  }

  /** The letter, in either case, is on the key of the digit. */
  ghost predicate OnKey(c: char, d: char) {
    d in MNEMONICS && exists capital :: capital in MNEMONICS[d] && HasCapital(c, capital)
  }

  /** The keys 2 to 9 hold the capitals in alphabetic order, each on one key: 3, 3, 3, 3, 3, 4, 3 and 4 of them. */
  lemma KeysHoldTheAlphabet()
    ensures forall d :: d in MNEMONICS <==> '2' <= d <= '9'
    ensures forall d :: d in MNEMONICS ==> |MNEMONICS[d]| == if d == '7' || d == '9' then 4 else 3
    ensures forall d, i, j :: d in MNEMONICS && 0 <= i < j < |MNEMONICS[d]| ==> MNEMONICS[d][i] < MNEMONICS[d][j]
    ensures forall d, e, i, j ::
      d in MNEMONICS && e in MNEMONICS && d < e && 0 <= i < |MNEMONICS[d]| && 0 <= j < |MNEMONICS[e]| ==>
      'A' <= MNEMONICS[d][i] < MNEMONICS[e][j] <= 'Z'
  {
  }

  /** Every capital is on exactly one key. */
  lemma CapitalOnOneKey(c: char)
    requires 'A' <= c <= 'Z'
    ensures exists d :: d in MNEMONICS && c in MNEMONICS[d]
    ensures forall d, e :: d in MNEMONICS && e in MNEMONICS && c in MNEMONICS[d] && c in MNEMONICS[e] ==> d == e
  {
    var d := CharCode(c).value;
    CharCodeInvertsMnemonics(c, d);
    forall e | e in MNEMONICS && c in MNEMONICS[e]
      ensures e == d
    {
      CharCodeInvertsMnemonics(c, e);
    }
  }

  /** The code of a letter is the digit of its key, and nothing else has a code of one digit. */
  lemma PieceIsKey(c: char, d: char)
    ensures Piece(c) == [d] <==> OnKey(c, d)
  {
    CharCodeInvertsMnemonics(ToUpperCase(c), d);
    forall capital | d in MNEMONICS && capital in MNEMONICS[d] && HasCapital(c, capital)
      ensures Piece(c) == [d]
    {
      CharCodeInvertsMnemonics(capital, d);
    }
    if Piece(c) == [d] {
      assert HasCapital(c, ToUpperCase(c));
    }
  }

  /** The letters of `word` are, one by one, on the keys of `number`. */
  ghost predicate OnKeys(word: string, number: string) {
    |word| == |number| && forall i :: 0 <= i < |word| ==> OnKey(word[i], number[i])
  }

  lemma {:induction false} CodeIsKeys(word: string, number: string)
    requires Digits(number)
    ensures WordCode(word) == number <==> OnKeys(word, number)
  {
    hide OnKey, Piece;
    if word != "" && number != "" {
      PieceIsKey(word[0], number[0]);
      assert OnKeys(word, number) <==> OnKey(word[0], number[0]) && OnKeys(word[1..], number[1..]) by {
        KeysOfRest(word, number);
      }
      CodeIsKeys(word[1..], number[1..]);
      if WordCode(word) == number {
        DigitCodeIsAlphabetic(word);
        AlphabeticPiece(word);
        assert WordCode(word)[..1] == Piece(word[0]) && WordCode(word)[1..] == WordCode(word[1..]);
        assert Piece(word[0]) == [number[0]];
      }
      assert number == [number[0]] + number[1..];
    } else if word != "" {
      CodeIsNotShorter(word);
    }
  }

  lemma AlphabeticPiece(word: string)
    requires word != "" && Alphabetic(word)
    ensures |Piece(word[0])| == 1
  {
  }

  lemma KeysOfRest(word: string, number: string)
    requires word != "" && number != ""
    ensures OnKeys(word, number) <==> OnKey(word[0], number[0]) && OnKeys(word[1..], number[1..])
  {
    hide OnKey;
    if OnKey(word[0], number[0]) && OnKeys(word[1..], number[1..]) {
      forall i | 0 <= i < |word|
        ensures OnKey(word[i], number[i])
      {
        assert i > 0 ==> word[i] == word[1..][i - 1] && number[i] == number[1..][i - 1];
      }
    }
  }

  /** Words that differ only in the case of their letters have the same code. */
  lemma {:induction false} CaseIsIgnored(a: string, b: string)
    requires |a| == |b|
    requires forall i :: 0 <= i < |a| ==> a[i] == b[i] || HasCapital(a[i], b[i]) || HasCapital(b[i], a[i])
    requires Alphabetic(a)
    ensures WordCode(a) == WordCode(b)
  {
    if a != "" {
      CaseIsIgnored(a[1..], b[1..]);
    }
  }

  function Letters(phrase: seq<string>): string {
    if phrase == [] then "" else Letters(phrase[..|phrase| - 1]) + phrase[|phrase| - 1]
  }

  lemma {:induction false} CodeConcat(a: string, b: string)
    ensures WordCode(a + b) == WordCode(a) + WordCode(b)
  {
    if a == "" {
      assert a + b == b;
    } else {
      assert (a + b)[1..] == a[1..] + b;
      CodeConcat(a[1..], b);
    }
  }

  lemma {:induction false} PhraseCodeIsCode(phrase: seq<string>)
    ensures PhraseCode(phrase) == WordCode(Letters(phrase))
  {
    if phrase != [] {
      PhraseCodeIsCode(phrase[..|phrase| - 1]);
      CodeConcat(Letters(phrase[..|phrase| - 1]), phrase[|phrase| - 1]);
    }
  }

  /** Words of the dictionary whose letters, one after the other, are on the keys of the number. */
  ghost predicate IsTyped(words: seq<string>, phrase: seq<string>, number: string) {
    phrase != [] && (forall i :: 0 <= i < |phrase| ==> phrase[i] in words) && OnKeys(Letters(phrase), number)
  }

  /** So a number is translated to the phrases, words apart by blanks, that can be typed with its keys, and no others. */
  lemma TranslationsAreTyped(words: seq<string>, number: string, depth: nat)
    requires "" !in words && Digits(number) && depth > |number|
    ensures Translate(words, number, depth).Some?
    ensures forall p ::
      p in Translate(words, number, depth).value <==> exists phrase :: IsTyped(words, phrase, number) && p == Join(phrase)
  {
    hide Encode, OnKeys, WordCode;
    EncodeIsExact(words, number, {}, depth);
    forall phrase
      ensures Spells(words, phrase, number) <==> IsTyped(words, phrase, number)
    {
      PhraseCodeIsCode(phrase);
      CodeIsKeys(Letters(phrase), number);
    }
  }

  lemma JoinOneMore(phrase: seq<string>, x: string)
    ensures Join([x]) == x
    ensures phrase != [] ==> Join(phrase + [x]) == Join(phrase) + " " + x
  {
    assert (phrase + [x])[..|phrase|] == phrase;
  }

  // ---------- termination ----------

  lemma {:induction false} EncodeReturns(words: seq<string>, number: string, current: set<string>, depth: nat)
    requires "" !in words && depth > |number|
    ensures Encode(words, number, current, depth).Some?
    decreases depth
  {
    WordsForNumGroups(words);
    var groups := WordsForNum(words);
    forall x | x in Candidates(groups, number)
      ensures Intermediate(words, number, current, depth - 1, x).Some?
    {
      CandidatesAre(groups, words, number, x);
      CodeIsNotShorter(x);
      EncodeReturns(words, Rest(number, x), Prefixed(x, current), depth - 1);
    }
  }

  lemma {:induction false} EmptyWordDiverges(words: seq<string>, number: string, current: set<string>, depth: nat)
    requires "" in words
    ensures Encode(words, number, current, depth).None?
    decreases depth
  {
    if depth > 0 {
      WordsForNumGroups(words);
      CandidatesAre(WordsForNum(words), words, number, "");
      assert number[..|number| - 0] == number;
      EmptyWordDiverges(words, number, Prefixed("", current), depth - 1);
      assert Intermediate(words, number, current, depth - 1, "").None?;
    }
  }

  /** For any number and dictionary, `translate` returns if and only if the dictionary lacks the empty word. */
  lemma TranslateReturnsIff(words: seq<string>, number: string)
    ensures (exists depth: nat :: Translate(words, number, depth).Some?) <==> "" !in words
  {
    if "" in words {
      forall depth: nat
        ensures Translate(words, number, depth).None?
      {
        EmptyWordDiverges(words, number, {}, depth);
      }
    } else {
      EncodeReturns(words, number, {}, |number| + 1);
      assert Translate(words, number, |number| + 1).Some?;
    }
  }

  /** A dictionary of nothing but the empty word. */
  lemma EmptyWordNeverReturns(depth: nat)
    ensures Translate([""], "2", depth).None?
  {
    EmptyWordDiverges([""], "2", {}, depth);
  }

  // ---------- one phrase, one spelling ----------

  ghost predicate NoSpace(word: string) { forall i :: 0 <= i < |word| ==> word[i] != ' ' }

  lemma LastWordUnique(a: string, x: string, b: string, y: string)
    requires NoSpace(x) && NoSpace(y) && a + " " + x == b + " " + y
    ensures a == b && x == y
  {
    var s, t := a + " " + x, b + " " + y;
    assert forall i :: |a| < i < |s| ==> s[i] == x[i - |a| - 1];
    assert forall i :: |b| < i < |t| ==> t[i] == y[i - |b| - 1];
    assert s[|a|] == ' ' && t[|b|] == ' ';
    assert a == s[..|a|] && b == t[..|b|];
    assert x == s[|a| + 1..] && y == t[|b| + 1..];
  }

  lemma JoinHasSpace(phrase: seq<string>)
    ensures |phrase| > 1 ==> !NoSpace(Join(phrase))
  {
    if |phrase| > 1 {
      assert Join(phrase)[|Join(phrase[..|phrase| - 1])|] == ' ';
    }
  }

  /** Different phrases of dictionary words that spell a number are different strings. */
  lemma {:induction false} JoinIsInjective(a: seq<string>, b: seq<string>)
    requires a != [] && b != []
    requires forall w :: w in a ==> NoSpace(w)
    requires forall w :: w in b ==> NoSpace(w)
    requires Join(a) == Join(b)
    ensures a == b
  {
    var x, y := a[|a| - 1], b[|b| - 1];
    assert a[0] in a && b[0] in b;
    JoinHasSpace(a);
    JoinHasSpace(b);
    if |a| > 1 && |b| > 1 {
      LastWordUnique(Join(a[..|a| - 1]), x, Join(b[..|b| - 1]), y);
      JoinIsInjective(a[..|a| - 1], b[..|b| - 1]);
      assert a == a[..|a| - 1] + [x] && b == b[..|b| - 1] + [y];
    }
  }

  /** Each translation has one spelling only. */
  lemma SpellingIsUnique(words: seq<string>, number: string, a: seq<string>, b: seq<string>)
    requires Digits(number) && Spells(words, a, number) && Spells(words, b, number) && Join(a) == Join(b)
    ensures a == b
  {
    SpelledWordsHaveNoSpace(a, number);
    SpelledWordsHaveNoSpace(b, number);
    JoinIsInjective(a, b);
  }

  lemma DigitsOfParts(a: string, b: string)
    requires Digits(a + b)
    ensures Digits(a) && Digits(b)
  {
    assert forall i :: 0 <= i < |a| ==> a[i] == (a + b)[i];
    assert forall i :: 0 <= i < |b| ==> b[i] == (a + b)[|a| + i];
  }

  lemma CodedWordHasNoSpace(word: string)
    requires Digits(WordCode(word))
    ensures NoSpace(word)
  {
    DigitCodeIsAlphabetic(word);
  }

  lemma {:induction false} SpelledWordsHaveNoSpace(phrase: seq<string>, number: string)
    requires Digits(number) && PhraseCode(phrase) == number
    ensures forall w :: w in phrase ==> NoSpace(w)
  {
    hide Digits, WordCode, NoSpace;
    if phrase != [] {
      var init, x := phrase[..|phrase| - 1], phrase[|phrase| - 1];
      DigitsOfParts(PhraseCode(init), WordCode(x));
      SpelledWordsHaveNoSpace(init, PhraseCode(init));
      CodedWordHasNoSpace(x);
      assert phrase == init + [x];
    }
  }
}
