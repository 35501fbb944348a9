/** The socket environment-variable stem derived from a binary name. */
module EnvironmentStem {
  import opened Text

  predicate IsAsciiAlphanumeric(c: char) {
    '0' <= c <= '9' || 'A' <= c <= 'Z' || 'a' <= c <= 'z'
  }

  function ToAsciiUppercase(c: char): (u: char)
    ensures IsAsciiAlphanumeric(c) ==> IsAsciiAlphanumeric(u) && !('a' <= u <= 'z')
    ensures if 'a' <= c <= 'z' then 'A' <= u <= 'Z' && u as int - 'A' as int == c as int - 'a' as int else u == c
  {
    if 'a' <= c <= 'z' then (c as int - 32) as char else c
  }

  function Upper(text: string): (u: string)
    ensures |u| == |text| && forall i | 0 <= i < |u| :: u[i] == ToAsciiUppercase(text[i])
  {
    seq(|text|, i requires 0 <= i < |text| => ToAsciiUppercase(text[i]))
  }

  function UpperAll(words: seq<string>): (u: seq<string>)
    ensures |u| == |words|
  {
    seq(|words|, i requires 0 <= i < |words| => Upper(words[i]))
  }

  function StripPersona(name: string): (stripped: string)
    ensures name in {"persona_" + stripped, "persona-" + stripped, stripped}
    ensures stripped == name ==> !("persona_" <= name) && !("persona-" <= name)
  {
    if "persona_" <= name then assert name == "persona_" + name[8..]; name[8..]
    else if "persona-" <= name then assert name == "persona-" + name[8..]; name[8..]
    else name
  }

  /** `PERSONA` and the name's alphanumeric runs in upper case, joined by underscores. */
  function Stem(name: string): string {
    Join(["PERSONA"] + UpperAll(Runs(StripPersona(name), IsAsciiAlphanumeric)), "_")
  }

  function TrimEnd(text: string, c: char): string {
    if text != [] && text[|text| - 1] == c then TrimEnd(text[..|text| - 1], c) else text
  }

  /** What the loop pushes for the characters still ahead of it. */
  function Pushes(previousSeparator: bool, ahead: string): string
    decreases |ahead|
  {
    if ahead == [] then []
    else if IsAsciiAlphanumeric(ahead[0]) then [ToAsciiUppercase(ahead[0])] + Pushes(false, ahead[1..])
    else if !previousSeparator then ['_'] + Pushes(true, ahead[1..])
    else Pushes(true, ahead[1..])
  }

  method FromBinaryName(binaryName: string) returns (result: string)
    ensures result == Stem(binaryName)
  {
    var stem := "PERSONA_";
    var name := StripPersona(binaryName);
    var previousSeparator := true;
    for i := 0 to |name|
      invariant stem + Pushes(previousSeparator, name[i..]) == "PERSONA_" + Pushes(true, name)
    {
      var character := name[i];
      assert name[i..][0] == character && name[i..][1..] == name[i + 1..];
      ghost var before := stem;
      if IsAsciiAlphanumeric(character) {
        stem := stem + [ToAsciiUppercase(character)];
        previousSeparator := false;
        assert stem + Pushes(false, name[i + 1..]) == before + ([ToAsciiUppercase(character)] + Pushes(false, name[i + 1..]));
      } else if !previousSeparator {
        stem := stem + ['_'];
        previousSeparator := true;
        assert stem + Pushes(true, name[i + 1..]) == before + (['_'] + Pushes(true, name[i + 1..]));
      }
    }
    assert name[|name|..] == [] && stem + [] == stem;
    assert "PERSONA_" == "PERSONA" + "_";
    TrimmedPushes("PERSONA", name);
    result := TrimEnd(stem, '_');
  }

  /** Over a word the loop pushes the word in upper case. */
  lemma {:induction false} PushesWord(previousSeparator: bool, word: string, after: string)
    requires IsWord(word, IsAsciiAlphanumeric)
    ensures Pushes(previousSeparator, word + after) == Upper(word) + Pushes(false, after)
    decreases |word|
  {
    var rest := word[1..];
    assert (word + after)[1..] == rest + after;
    assert Upper(word) == [ToAsciiUppercase(word[0])] + Upper(rest);
    if rest == [] {
      assert rest + after == after;
    } else {
      PushesWord(false, rest, after);
    }
  }

  lemma JoinMerges(a: string, b: string, rest: seq<string>, separator: string)
    ensures Join([a + separator + b] + rest, separator) == Join([a, b] + rest, separator)
  {
  }

  lemma NothingToTrim(text: string)
    requires text != [] && text[|text| - 1] != '_'
    ensures TrimEnd(text, '_') == text && TrimEnd(text + "_", '_') == text
  {
  }

  lemma UpperRunEndsPlain(base: string, run: string)
    requires IsWord(run, IsAsciiAlphanumeric)
    ensures AfterRun(base, run)[|AfterRun(base, run)| - 1] != '_'
  {
  }

  /** The stem once a run has been pushed after a separator. */
  function AfterRun(base: string, run: string): string {
    base + "_" + Upper(run)
  }

  lemma PushesAfterRun(base: string, run: string, after: string)
    requires IsWord(run, IsAsciiAlphanumeric)
    requires after != [] ==> !IsAsciiAlphanumeric(after[0])
    ensures base + "_" + Pushes(true, run + after)
         == if after == [] then AfterRun(base, run) else AfterRun(base, run) + "_" + Pushes(true, after[1..])
  {
    PushesWord(true, run, after);
    if after == [] {
      assert Upper(run) + [] == Upper(run);
    } else {
      var rest := Pushes(true, after[1..]);
      assert base + "_" + (Upper(run) + (['_'] + rest)) == base + "_" + Upper(run) + "_" + rest;
    }
  }

  lemma JoinAfterRun(base: string, run: string, runs: seq<string>)
    ensures Join([base] + UpperAll([run] + runs), "_") == Join([AfterRun(base, run)] + UpperAll(runs), "_")
  {
    assert [base] + UpperAll([run] + runs) == [base, Upper(run)] + UpperAll(runs);
    JoinMerges(base, Upper(run), UpperAll(runs), "_");
  }

  /** Trimming what the loop pushed leaves the runs joined onto whatever came before. */
  lemma {:induction false} TrimmedPushes(base: string, text: string)
    requires base != [] && base[|base| - 1] != '_'
    ensures TrimEnd(base + "_" + Pushes(true, text), '_')
         == Join([base] + UpperAll(Runs(text, IsAsciiAlphanumeric)), "_")
    decreases |text|
  {
    var n := RunLength(text, IsAsciiAlphanumeric);
    if text == [] {
      NothingToTrim(base);
      assert base + "_" + [] == base + "_";
      assert [base] + UpperAll([]) == [base];
    } else if n == 0 {
      TrimmedPushes(base, text[1..]);
    } else {
      var run, after := text[..n], text[n..];
      assert run + after == text;
      PushesAfterRun(base, run, after);
      JoinAfterRun(base, run, Runs(after, IsAsciiAlphanumeric));
      UpperRunEndsPlain(base, run);
      if after == [] {
        NothingToTrim(AfterRun(base, run));
        assert [AfterRun(base, run)] + UpperAll([]) == [AfterRun(base, run)];
      } else {
        TrimmedPushes(AfterRun(base, run), after[1..]);
      }
    }
  }

  predicate NotUnderscore(c: char) {
    c != '_'
  }

  /** Splitting the stem at its underscores gives `PERSONA` and the upper-cased runs of the name, and nothing else. */
  lemma StemParts(name: string)
    ensures Runs(Stem(name), NotUnderscore) == ["PERSONA"] + UpperAll(Runs(StripPersona(name), IsAsciiAlphanumeric))
  {
    var runs := Runs(StripPersona(name), IsAsciiAlphanumeric);
    var words := ["PERSONA"] + UpperAll(runs);
    forall i | 0 <= i < |words|
      ensures IsWord(words[i], NotUnderscore)
    {
      if i > 0 {
        assert IsWord(runs[i - 1], IsAsciiAlphanumeric) && words[i] == Upper(runs[i - 1]);
      }
    }
    assert "_" == ['_'] && Stem(name) + "" == Stem(name);
    RunsOfJoined(words, '_', NotUnderscore, "");
  }

  predicate CleanUnderscores(text: string) {
    && text != [] && text[0] != '_' && text[|text| - 1] != '_'
    && forall i | 0 <= i < |text| - 1 :: !(text[i] == '_' && text[i + 1] == '_')
  }

  lemma {:induction false} JoinIsClean(words: seq<string>)
    requires words != [] && forall i | 0 <= i < |words| :: words[i] != [] && '_' !in words[i]
    ensures CleanUnderscores(Join(words, "_"))
  {
    if |words| > 1 {
      JoinIsClean(words[1..]);
    }
  }

  /** The stem starts with `PERSONA`, has no doubled underscore and none at its ends. */
  lemma StemIsClean(name: string)
    ensures CleanUnderscores(Stem(name))
    ensures "PERSONA" <= Stem(name)
  {
    var runs := Runs(StripPersona(name), IsAsciiAlphanumeric);
    var words := ["PERSONA"] + UpperAll(runs);
    forall i | 0 <= i < |words|
      ensures words[i] != [] && '_' !in words[i]
    {
      if i > 0 {
        assert IsWord(runs[i - 1], IsAsciiAlphanumeric) && words[i] == Upper(runs[i - 1]);
        assert forall k | 0 <= k < |words[i]| :: IsAsciiAlphanumeric(words[i][k]);
      }
    }
    JoinIsClean(words);
    assert "PERSONA" <= Join(words, "_");
  }
}
