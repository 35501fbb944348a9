/** Searching, splitting and joining of character sequences. */
module Text {
  import opened Wrappers

  predicate MatchesAt(text: string, pattern: string, i: nat) {
    i + |pattern| <= |text| && text[i..i + |pattern|] == pattern
  }

  lemma MatchedCharacter(text: string, pattern: string, i: nat, k: nat)
    requires MatchesAt(text, pattern, i) && k < |pattern|
    ensures text[i + k] == pattern[k]
  {
  }

  /** The start of the last occurrence of `pattern`. */
  function RFind(text: string, pattern: string): (r: Option<nat>)
    ensures r.Some? ==> MatchesAt(text, pattern, r.value)
    ensures forall i: nat | MatchesAt(text, pattern, i) :: r.Some? && i <= r.value
  {
    RFindUpTo(text, pattern, |text|)
  }

  function RFindUpTo(text: string, pattern: string, last: nat): (r: Option<nat>)
    ensures r.Some? ==> r.value <= last && MatchesAt(text, pattern, r.value)
    ensures forall i: nat | i <= last && MatchesAt(text, pattern, i) :: r.Some? && i <= r.value
  {
    if MatchesAt(text, pattern, last) then Some(last)
    else if last == 0 then None
    else RFindUpTo(text, pattern, last - 1)
  }

  lemma FoundCharacter(text: string, pattern: string)
    requires pattern != []
    ensures RFind(text, pattern).Some? ==> pattern[0] in text
  {
    var r := RFind(text, pattern);
    if r.Some? {
      MatchedCharacter(text, pattern, r.value, 0);
    }
  }

  /** Nothing after a two-character separator can match it once its first character no longer occurs. */
  lemma RFindLast(prefix: string, separator: string, rest: string)
    requires |separator| == 2 && separator[0] !in rest
    ensures RFind(prefix + separator + rest, separator) == Some(|prefix|)
  {
    var text := prefix + separator + rest;
    assert MatchesAt(text, separator, |prefix|);
    forall i: nat | MatchesAt(text, separator, i)
      ensures i <= |prefix|
    {
      MatchedCharacter(text, separator, i, 0);
      MatchedCharacter(text, separator, i, 1);
    }
  }

  /** How many leading characters satisfy `keep`. */
  function RunLength(text: string, keep: char -> bool): (n: nat)
    ensures n <= |text|
    ensures forall i | 0 <= i < n :: keep(text[i])
    ensures n < |text| ==> !keep(text[n])
  {
    if text == [] || !keep(text[0]) then 0 else 1 + RunLength(text[1..], keep)
  }

  predicate IsWord(word: string, keep: char -> bool) {
    word != [] && forall i | 0 <= i < |word| :: keep(word[i])
  }

  /** The maximal non-empty stretches of characters satisfying `keep`, in order. */
  function Runs(text: string, keep: char -> bool): (runs: seq<string>)
    ensures forall run | run in runs :: IsWord(run, keep)
  {
    var n := RunLength(text, keep);
    if text == [] then []
    else if n == 0 then Runs(text[1..], keep)
    else [text[..n]] + Runs(text[n..], keep)
  }

  function Join(parts: seq<string>, separator: string): string {
    if parts == [] then []
    else if |parts| == 1 then parts[0]
    else parts[0] + separator + Join(parts[1..], separator)
  }

  lemma {:induction false} RunLengthOfWord(word: string, rest: string, keep: char -> bool)
    requires forall i | 0 <= i < |word| :: keep(word[i])
    requires rest != [] ==> !keep(rest[0])
    ensures RunLength(word + rest, keep) == |word|
  {
    if word == [] {
      assert word + rest == rest;
    } else {
      assert (word + rest)[1..] == word[1..] + rest;
      RunLengthOfWord(word[1..], rest, keep);
    }
  }

  /** A leading stretch that ends where the text does, or at a dropped character, is a run of its own. */
  lemma LeadingRun(word: string, rest: string, keep: char -> bool)
    requires IsWord(word, keep)
    requires rest != [] ==> !keep(rest[0])
    ensures Runs(word + rest, keep) == [word] + Runs(rest, keep)
  {
    RunLengthOfWord(word, rest, keep);
    assert (word + rest)[..|word|] == word && (word + rest)[|word|..] == rest;
  }

  lemma DroppedCharacter(c: char, rest: string, keep: char -> bool)
    requires !keep(c)
    ensures Runs([c] + rest, keep) == Runs(rest, keep)
  {
    assert ([c] + rest)[1..] == rest;
    assert RunLength([c] + rest, keep) == 0;
  }

  predicate AreWords(words: seq<string>, keep: char -> bool) {
    forall i | 0 <= i < |words| :: IsWord(words[i], keep)
  }

  lemma SeparatedWord(word: string, separator: char, next: string, keep: char -> bool)
    requires IsWord(word, keep) && !keep(separator)
    ensures Runs(word + ([separator] + next), keep) == [word] + Runs(next, keep)
  {
    LeadingRun(word, [separator] + next, keep);
    DroppedCharacter(separator, next, keep);
  }

  lemma JoinPrepend(word: string, words: seq<string>, separator: string, tail: string)
    requires words != []
    ensures Join([word] + words, separator) + tail == word + (separator + (Join(words, separator) + tail))
  {
    assert ([word] + words)[1..] == words;
    assert Join([word] + words, separator) == word + separator + Join(words, separator);
  }

  /** Splitting undoes joining with a dropped separator character. */
  lemma {:induction false} RunsOfJoined(words: seq<string>, separator: char, keep: char -> bool, tail: string)
    requires !keep(separator) && AreWords(words, keep)
    requires tail != [] ==> !keep(tail[0])
    requires Runs(tail, keep) == []
    ensures Runs(Join(words, [separator]) + tail, keep) == words
  {
    if words == [] {
      assert Join(words, [separator]) + tail == tail;
    } else {
      var word, others := words[0], words[1..];
      assert words == [word] + others;
      if others == [] {
        LeadingRun(word, tail, keep);
      } else {
        RunsOfJoined(others, separator, keep, tail);
        JoinPrepend(word, others, [separator], tail);
        SeparatedWord(word, separator, Join(others, [separator]) + tail, keep);
      }
    }
  }
}
