/** The string cleanup helpers of the utilities package: transliteration of
    Norwegian and Sami letters, file-name sanitising, free-text cleanup and
    the "missing value" normalisation. */
module Fencoding {
  import opened Wrappers
  import opened Strings

  // ---------------------------------------------------------------------------
  // remove_norwegian_letters

  /** One guarded replacement: every `from` becomes `to`. */
  datatype Substitution = Substitution(from: char, to: string)

  /** The replacements in the order the code applies them: the Norwegian
      letters å ø æ Å Ø Æ, the Swedish ö Ö and the Sami letters á Á č Č đ Đ
      ŋ Ŋ š Š ŧ Ŧ ž Ž. */
  const Substitutions: seq<Substitution> := [
    Substitution('\U{E5}', "aa"), Substitution('\U{F8}', "oe"), Substitution('\U{E6}', "ae"),
    Substitution('\U{C5}', "AA"), Substitution('\U{D8}', "OE"), Substitution('\U{C6}', "AE"),
    Substitution('\U{F6}', "o"), Substitution('\U{D6}', "O"),
    Substitution('\U{E1}', "a"), Substitution('\U{C1}', "A"),
    Substitution('\U{10D}', "c"), Substitution('\U{10C}', "C"),
    Substitution('\U{111}', "d"), Substitution('\U{110}', "D"),
    Substitution('\U{14B}', "n"), Substitution('\U{14A}', "N"),
    Substitution('\U{161}', "s"), Substitution('\U{160}', "S"),
    Substitution('\U{167}', "t"), Substitution('\U{166}', "T"),
    Substitution('\U{17E}', "z"), Substitution('\U{17D}', "Z")
  ]

  predicate IsAsciiLetter(c: char) {
    ('A' <= c <= 'Z') || ('a' <= c <= 'z')
  }

  /** Every replaced letter lies outside ASCII and every substitute is made of
      ASCII letters, so no substitute brings back a replaced letter. */
  predicate WellFormed(subs: seq<Substitution>) {
    forall i :: 0 <= i < |subs| ==>
      subs[i].from >= '\U{80}' && forall x :: x in subs[i].to ==> IsAsciiLetter(x)
  }

  predicate NoBreaks(s: string) {
    '\n' !in s && '\t' !in s
  }

  /** `s` holds none of the letters `subs` replaces. */
  predicate Free(s: string, subs: seq<Substitution>) {
    forall i :: 0 <= i < |subs| ==> subs[i].from !in s
  }

  lemma SubstitutionsWellFormed()
    ensures WellFormed(Substitutions)
  {
  }

  /** `if c in name: name = name.replace(c, to)`. */
  function Substitute(s: string, t: Substitution): string {
    if Contains(s, [t.from]) then ReplaceAll(s, [t.from], t.to) else s
  }

  /** The guarded replacements applied one after the other. */
  function SubstituteAll(s: string, subs: seq<Substitution>): (r: string)
    ensures forall x :: x in r ==> x in s || exists i :: 0 <= i < |subs| && x in subs[i].to
    decreases |subs|
  {
    if |subs| == 0 then s
    else
      var r := SubstituteAll(Substitute(s, subs[0]), subs[1..]);
      assert forall i :: 1 <= i < |subs| ==> subs[1..][i - 1] == subs[i];
      r
  }

  /** The reference meaning of the table: a letter becomes the substitute of
      the first entry that replaces it, any other character stays. */
  function Transliterate(c: char, subs: seq<Substitution>): (r: string)
    ensures || (exists i :: 0 <= i < |subs| && subs[i].from == c && r == subs[i].to
                           && forall j :: 0 <= j < i ==> subs[j].from != c)
            || (r == [c] && forall i :: 0 <= i < |subs| ==> subs[i].from != c)
    decreases |subs|
  {
    if |subs| == 0 then [c]
    else if subs[0].from == c then subs[0].to
    else
      var r := Transliterate(c, subs[1..]);
      assert forall i :: 1 <= i < |subs| ==> subs[1..][i - 1] == subs[i];
      r
  }

  /** Every character of `s` transliterated on its own. */
  function TransliterateAll(s: string, subs: seq<Substitution>): string
    decreases |s|
  {
    if |s| == 0 then "" else Transliterate(s[0], subs) + TransliterateAll(s[1..], subs)
  }

  /** The `in` guard only skips a replacement that would change nothing. */
  lemma SubstituteIsReplace(s: string, t: Substitution)
    ensures Substitute(s, t) == ReplaceAll(s, [t.from], t.to)
  {
    if !Contains(s, [t.from]) {
      ReplaceAbsent(s, [t.from], t.to);
    }
  }

  lemma SubstituteAppend(a: string, b: string, t: Substitution)
    ensures Substitute(a + b, t) == Substitute(a, t) + Substitute(b, t)
  {
    SubstituteIsReplace(a + b, t);
    SubstituteIsReplace(a, t);
    SubstituteIsReplace(b, t);
    ReplaceCharAppend(a, b, t.from, t.to);
  }

  /** The replacements work character by character. */
  lemma {:induction false} SubstituteAllAppend(a: string, b: string, subs: seq<Substitution>)
    ensures SubstituteAll(a + b, subs) == SubstituteAll(a, subs) + SubstituteAll(b, subs)
    decreases |subs|
  {
    if |subs| > 0 {
      SubstituteAppend(a, b, subs[0]);
      SubstituteAllAppend(Substitute(a, subs[0]), Substitute(b, subs[0]), subs[1..]);
    }
  }

  /** A string without replaced letters passes through unchanged. */
  lemma {:induction false} SubstituteAllFree(s: string, subs: seq<Substitution>)
    requires Free(s, subs)
    ensures SubstituteAll(s, subs) == s
    decreases |subs|
  {
    if |subs| > 0 {
      ContainsChar(s, subs[0].from);
      assert Substitute(s, subs[0]) == s;
      assert Free(s, subs[1..]) by {
        forall i | 0 <= i < |subs[1..]|
          ensures subs[1..][i].from !in s
        {
          assert subs[1..][i] == subs[i + 1];
        }
      }
      SubstituteAllFree(s, subs[1..]);
    }
  }

  lemma {:induction false} SubstituteAllChar(c: char, subs: seq<Substitution>)
    requires WellFormed(subs)
    ensures SubstituteAll([c], subs) == Transliterate(c, subs)
    decreases |subs|
  {
    if |subs| > 0 {
      var t := subs[0];
      assert WellFormed(subs[1..]) by {
        forall i | 0 <= i < |subs[1..]|
          ensures subs[1..][i] == subs[i + 1]
        {
        }
      }
      if t.from == c {
        ContainsChar([c], c);
        assert StartsWith([c], [t.from]);
        assert [c][1..] == [];
        assert ReplaceAll([c], [c], t.to) == t.to + ReplaceAll([], [c], t.to);
        assert Substitute([c], t) == t.to;
        assert Free(t.to, subs[1..]) by {
          forall i | 0 <= i < |subs[1..]|
            ensures subs[1..][i].from !in t.to
          {
            assert subs[1..][i] == subs[i + 1];
          }
        }
        SubstituteAllFree(t.to, subs[1..]);
      } else {
        ContainsChar([c], t.from);
        SubstituteAllChar(c, subs[1..]);
      }
    }
  }

  /** Applying the guarded replacements in order is the same as
      transliterating every character by the table. */
  lemma {:induction false} SubstituteAllIsTransliteration(s: string, subs: seq<Substitution>)
    requires WellFormed(subs)
    ensures SubstituteAll(s, subs) == TransliterateAll(s, subs)
    decreases |s|
  {
    if |s| == 0 {
      assert SubstituteAll(s, subs) == s by {
        SubstituteAllFree(s, subs);
      }
    } else {
      assert s == [s[0]] + s[1..];
      SubstituteAllAppend([s[0]], s[1..], subs);
      SubstituteAllChar(s[0], subs);
      SubstituteAllIsTransliteration(s[1..], subs);
    }
  }

  /** No replaced letter survives the replacements. */
  lemma {:induction false} SubstituteAllRemoves(s: string, subs: seq<Substitution>)
    requires WellFormed(subs)
    ensures Free(SubstituteAll(s, subs), subs)
    decreases |subs|
  {
    if |subs| > 0 {
      var t := subs[0];
      var s1 := Substitute(s, t);
      assert t.from !in s1 by {
        ContainsChar(s, t.from);
        if Contains(s, [t.from]) {
          assert t.from !in t.to;
        }
      }
      assert WellFormed(subs[1..]) by {
        forall i | 0 <= i < |subs[1..]|
          ensures subs[1..][i] == subs[i + 1]
        {
        }
      }
      SubstituteAllRemoves(s1, subs[1..]);
      var r := SubstituteAll(s, subs);
      forall i | 0 <= i < |subs|
        ensures subs[i].from !in r
      {
        if i > 0 {
          assert subs[1..][i - 1] == subs[i];
        }
      }
    }
  }

  /** A space other than the deleted character is not deleted, so deleting
      `'\n'` or `'\t'` from a stripped string leaves it stripped. */
  lemma DeleteSpaceKeepsTrimmed(s: string, c: char)
    requires Trimmed(s) && IsSpace(c)
    ensures Trimmed(ReplaceAll(s, [c], ""))
  {
    if |s| > 0 {
      var n := |s| - 1;
      assert !StartsWith(s, [c]);
      assert s == s[..n] + [s[n]];
      ReplaceCharAppend(s[..n], [s[n]], c, "");
      assert !StartsWith([s[n]], [c]);
      assert ReplaceAll([s[n]], [c], "") == [s[n]] + ReplaceAll([], [c], "");
    }
  }

  /** The replacements of `subs`, then `strip`, then the line breaks and
      tabs deleted. */
  function Clean(s: string, subs: seq<Substitution>): (r: string)
    requires WellFormed(subs)
    ensures Free(r, subs)
    ensures NoBreaks(r)
    ensures Trimmed(r)
    ensures forall x :: x in r ==> x in s || IsAsciiLetter(x)
  {
    var replaced := SubstituteAll(s, subs);
    SubstituteAllRemoves(s, subs);
    DropBreaks(Strip(replaced))
  }

  /** `name.replace('\n', '')` then `name.replace('\t', '')`. */
  function DropBreaks(t: string): (r: string)
    ensures NoBreaks(r)
    ensures Trimmed(t) ==> Trimmed(r)
    ensures forall x :: x in r ==> x in t
  {
    var noBreaks := ReplaceAll(t, "\n", "");
    var noTabs := ReplaceAll(noBreaks, "\t", "");
    if Trimmed(t) then
      DeleteSpaceKeepsTrimmed(t, '\n');
      DeleteSpaceKeepsTrimmed(noBreaks, '\t');
      noTabs
    else noTabs
  }

  /** `remove_norwegian_letters(name)`: `None` stays `None`; otherwise the
      letters of the table are replaced, the text is stripped and the line
      breaks and tabs are deleted. The result holds no replaced letter, no
      `'\n'` or `'\t'`, no surrounding whitespace, and only characters of the
      input or ASCII letters. */
  function RemoveNorwegianLetters(name: Option<string>): (r: Option<string>)
    ensures r.None? <==> name.None?
    ensures r.Some? ==> Free(r.value, Substitutions)
    ensures r.Some? ==> NoBreaks(r.value)
    ensures r.Some? ==> Trimmed(r.value)
    ensures r.Some? ==> forall x :: x in r.value ==> x in name.value || IsAsciiLetter(x)
  {
    match name
    case None => None
    case Some(s) =>
      SubstitutionsWellFormed();
      Some(Clean(s, Substitutions))
  }

  lemma CleanTransliterates(s: string, subs: seq<Substitution>)
    requires WellFormed(subs)
    ensures Clean(s, subs) == Delete(Strip(TransliterateAll(s, subs)), {'\n', '\t'})
  {
    SubstituteAllIsTransliteration(s, subs);
    var stripped := Strip(TransliterateAll(s, subs));
    assert Strip(SubstituteAll(s, subs)) == stripped;
    ReplaceCharByNothing(stripped, '\n');
    var noBreaks := Delete(stripped, {'\n'});
    assert ReplaceAll(stripped, "\n", "") == noBreaks;
    ReplaceCharByNothing(noBreaks, '\t');
    assert ReplaceAll(noBreaks, "\t", "") == Delete(noBreaks, {'\t'});
    assert Clean(s, subs) == Delete(noBreaks, {'\t'});
    DeleteDelete(stripped, {'\n'}, {'\t'});
    assert {'\n'} + {'\t'} == {'\n', '\t'};
  }

  /** Each letter becomes its substitute: the result is the transliteration
      of the input, stripped, with line breaks and tabs deleted. */
  lemma RemoveNorwegianLettersTransliterates(s: string)
    ensures RemoveNorwegianLetters(Some(s))
         == Some(Delete(Strip(TransliterateAll(s, Substitutions)), {'\n', '\t'}))
  {
    SubstitutionsWellFormed();
    CleanTransliterates(s, Substitutions);
  }

  lemma CleanFixpoint(s: string, subs: seq<Substitution>)
    requires WellFormed(subs)
    requires Free(s, subs) && NoBreaks(s) && Trimmed(s)
    ensures Clean(s, subs) == s
  {
    SubstituteAllFree(s, subs);
    StripFacts(s);
    ContainsChar(s, '\n');
    ReplaceAbsent(s, "\n", "");
    ContainsChar(s, '\t');
    ReplaceAbsent(s, "\t", "");
  }

  /** A text already free of replaced letters, line breaks, tabs and
      surrounding whitespace comes back unchanged. */
  lemma RemoveNorwegianLettersFixpoint(s: string)
    requires Free(s, Substitutions) && NoBreaks(s) && Trimmed(s)
    ensures RemoveNorwegianLetters(Some(s)) == Some(s)
  {
    SubstitutionsWellFormed();
    CleanFixpoint(s, Substitutions);
  }

  /** Cleaning twice is cleaning once. */
  lemma RemoveNorwegianLettersIdempotent(name: Option<string>)
    ensures RemoveNorwegianLetters(RemoveNorwegianLetters(name)) == RemoveNorwegianLetters(name)
  {
    if name.Some? {
      RemoveNorwegianLettersFixpoint(RemoveNorwegianLetters(name).value);
    }
  }

  // ---------------------------------------------------------------------------
  // make_standard_file_name

  /** The three `replace` calls of `make_standard_file_name`. */
  function DropSeparators(name: string): string {
    ReplaceAll(ReplaceAll(ReplaceAll(name, ",", ""), "/", ""), "\"", "")
  }

  /** Replacing the three characters by nothing deletes them. */
  lemma DropSeparatorsDeletes(name: string)
    ensures DropSeparators(name) == Delete(name, {',', '/', '"'})
  {
    var a := ReplaceAll(name, ",", "");
    var b := ReplaceAll(a, "/", "");
    ReplaceCharByNothing(name, ',');
    ReplaceCharByNothing(a, '/');
    ReplaceCharByNothing(b, '"');
    DeleteDelete(name, {','}, {'/'});
    DeleteDelete(name, {',', '/'}, {'"'});
    assert {','} + {'/'} == {',', '/'};
    assert {',', '/'} + {'"'} == {',', '/', '"'};
  }

  /** `make_standard_file_name(name)`: commas, slashes and double quotes are
      deleted, then the letters are cleaned. None of the three is left, and
      the result is the letter cleanup of the input with the three deleted. */
  function MakeStandardFileName(name: string): (r: string)
    ensures ',' !in r && '/' !in r && '"' !in r
    ensures Some(r) == RemoveNorwegianLetters(Some(Delete(name, {',', '/', '"'})))
  {
    var c := DropSeparators(name);
    DropSeparatorsDeletes(name);
    DeleteChars(name, {',', '/', '"'});
    RemoveNorwegianLettersAdds(c, ',');
    RemoveNorwegianLettersAdds(c, '/');
    RemoveNorwegianLettersAdds(c, '"');
    RemoveNorwegianLetters(Some(c)).value
  }

  /** Only ASCII letters are ever added. */
  lemma RemoveNorwegianLettersAdds(s: string, c: char)
    requires c !in s && !IsAsciiLetter(c)
    ensures c !in RemoveNorwegianLetters(Some(s)).value
  {
  }

  // ---------------------------------------------------------------------------
  // text_cleanup

  /** One `str_inn = str_inn.replace(pattern, repl)` step. */
  datatype Rule = Rule(pattern: string, repl: string)

  /** The replacements after the line breaks and tabs are deleted, in order:
      a double `<br/>` becomes a space, runs of two to four spaces collapse,
      and spaces around a dash go. */
  const Spacing: seq<Rule> := [
    Rule("<br/><br/>", " "), Rule("    ", " "), Rule("   ", " "), Rule("  ", " "),
    Rule(" - ", "-"), Rule(" -", "-"), Rule("- ", "-")
  ]

  /** Every pattern is non-empty and no replacement brings back a line break
      or a tab. */
  predicate Tame(rules: seq<Rule>) {
    forall i :: 0 <= i < |rules| ==> |rules[i].pattern| > 0 && NoBreaks(rules[i].repl)
  }

  lemma SpacingTame()
    ensures Tame(Spacing)
  {
  }

  /** No spacing pattern mentions a period. */
  lemma SpacingSparesPeriods()
    ensures forall i :: 0 <= i < |Spacing| ==> '.' !in Spacing[i].pattern
  {
  }

  /** The rules applied one after the other. */
  function ReplaceEach(s: string, rules: seq<Rule>): string
    requires Tame(rules)
    decreases |rules|
  {
    if |rules| == 0 then s
    else
      assert Tame(rules[1..]) by {
        assert forall i :: 0 <= i < |rules[1..]| ==> rules[1..][i] == rules[i + 1];
      }
      ReplaceEach(ReplaceAll(s, rules[0].pattern, rules[0].repl), rules[1..])
  }

  /** The rules bring back no line break or tab. */
  lemma {:induction false} ReplaceEachNoBreaks(s: string, rules: seq<Rule>)
    requires Tame(rules) && NoBreaks(s)
    ensures NoBreaks(ReplaceEach(s, rules))
    decreases |rules|
  {
    if |rules| > 0 {
      assert Tame(rules[1..]) by {
        assert forall i :: 0 <= i < |rules[1..]| ==> rules[1..][i] == rules[i + 1];
      }
      ReplaceEachNoBreaks(ReplaceAll(s, rules[0].pattern, rules[0].repl), rules[1..]);
    }
  }

  /** A character that no pattern mentions survives the rules. */
  lemma {:induction false} ReplaceEachKeeps(s: string, rules: seq<Rule>, c: char)
    requires Tame(rules)
    requires c in s && forall i :: 0 <= i < |rules| ==> c !in rules[i].pattern
    ensures c in ReplaceEach(s, rules)
    decreases |rules|
  {
    if |rules| > 0 {
      ReplaceKeeps(s, rules[0].pattern, rules[0].repl, c);
      assert Tame(rules[1..]) by {
        assert forall i :: 0 <= i < |rules[1..]| ==> rules[1..][i] == rules[i + 1];
      }
      assert forall i :: 1 <= i < |rules| ==> rules[1..][i - 1] == rules[i];
      ReplaceEachKeeps(ReplaceAll(s, rules[0].pattern, rules[0].repl), rules[1..], c);
    }
  }

  /** A text containing none of the patterns passes through the rules. */
  lemma {:induction false} ReplaceEachAbsent(s: string, rules: seq<Rule>)
    requires Tame(rules)
    requires forall i :: 0 <= i < |rules| ==> !Contains(s, rules[i].pattern)
    ensures ReplaceEach(s, rules) == s
    decreases |rules|
  {
    if |rules| > 0 {
      ReplaceAbsent(s, rules[0].pattern, rules[0].repl);
      assert Tame(rules[1..]) by {
        assert forall i :: 0 <= i < |rules[1..]| ==> rules[1..][i] == rules[i + 1];
      }
      assert forall i :: 1 <= i < |rules| ==> rules[1..][i - 1] == rules[i];
      ReplaceEachAbsent(s, rules[1..]);
    }
  }

  /** The collapsing steps: `rstrip`, then deleting line breaks and tabs,
      then the spacing rules. */
  function Collapse(s: string): (r: string)
    ensures NoBreaks(r)
  {
    var noBreaks := ReplaceAll(RStrip(s), "\n", "");
    var noTabs := ReplaceAll(noBreaks, "\t", "");
    SpacingTame();
    ReplaceEachNoBreaks(noTabs, Spacing);
    ReplaceEach(noTabs, Spacing)
  }

  /** Rules whose pattern and replacement agree on their non-whitespace
      characters leave a text's non-whitespace characters alone. */
  lemma {:induction false} ReplaceEachNonSpace(s: string, rules: seq<Rule>)
    requires Tame(rules)
    requires forall i :: 0 <= i < |rules| ==> NonSpace(rules[i].pattern) == NonSpace(rules[i].repl)
    ensures NonSpace(ReplaceEach(s, rules)) == NonSpace(s)
    decreases |rules|
  {
    if |rules| > 0 {
      var next := ReplaceAll(s, rules[0].pattern, rules[0].repl);
      ReplaceAllNonSpace(s, rules[0].pattern, rules[0].repl);
      assert forall i :: 0 <= i < |rules| - 1 ==> rules[1..][i] == rules[i + 1];
      ReplaceEachNonSpace(next, rules[1..]);
    }
  }

  /** Every spacing rule but the first only moves whitespace: the runs of
      spaces become one space and the spaces around a dash go. */
  lemma SpacingKeepsNonSpace()
    ensures forall i :: 1 <= i < |Spacing| ==> NonSpace(Spacing[i].pattern) == NonSpace(Spacing[i].repl)
  {
    assert NonSpace(" ") == "" && NonSpace("  ") == "" && NonSpace("   ") == "" && NonSpace("    ") == "";
    assert NonSpace("-") == "-" && NonSpace(" -") == "-" && NonSpace("- ") == "-" && NonSpace(" - ") == "-";
  }

  /** Collapsing a text without '<', where no "<br/><br/>" can occur, only
      removes or moves whitespace: its non-whitespace characters stay, in
      order. */
  lemma CollapseNonSpace(s: string)
    ensures '<' !in s ==> NonSpace(Collapse(s)) == NonSpace(s)
  {
    var noTabs := ReplaceAll(ReplaceAll(RStrip(s), "\n", ""), "\t", "");
    DeletionsNonSpace(s);
    SpacingTame();
    SpacingNonSpace(noTabs);
  }

  /** `rstrip` and deleting line breaks and tabs remove only whitespace and
      bring in no '<'. */
  lemma DeletionsNonSpace(s: string)
    ensures var noTabs := ReplaceAll(ReplaceAll(RStrip(s), "\n", ""), "\t", "");
      && NonSpace(noTabs) == NonSpace(s)
      && ('<' !in s ==> '<' !in noTabs)
  {
    var right := RStrip(s);
    var noBreaks := ReplaceAll(right, "\n", "");
    RStripNonSpace(s);
    assert NonSpace("\n") == "" && NonSpace("\t") == "" && NonSpace("") == "";
    ReplaceAllNonSpace(right, "\n", "");
    ReplaceAllNonSpace(noBreaks, "\t", "");
    assert '<' !in s ==> '<' !in right by {
      assert forall k :: 0 <= k < |right| ==> right[k] == s[k];
    }
  }

  /** On a text without '<' the first spacing rule finds nothing, and the
      others only move whitespace. */
  lemma SpacingNonSpace(t: string)
    requires Tame(Spacing)
    ensures '<' !in t ==> NonSpace(ReplaceEach(t, Spacing)) == NonSpace(t)
  {
    if '<' !in t {
      NotContainsFirst(t, Spacing[0].pattern);
      ReplaceAbsent(t, Spacing[0].pattern, Spacing[0].repl);
      assert forall i :: 0 <= i < |Spacing| - 1 ==> Spacing[1..][i] == Spacing[i + 1];
      SpacingKeepsNonSpace();
      ReplaceEachNonSpace(t, Spacing[1..]);
    }
  }

  /** The separator at `i`, if `r[i]` is one, is followed by exactly one
      space: the next character is ' ' and the one after that, if any, is
      not whitespace. */
  predicate SpacedAt(r: string, sep: char, i: int)
    requires 0 <= i < |r|
  {
    r[i] == sep ==> i + 1 < |r| && r[i + 1] == ' ' && (i + 2 < |r| ==> !IsSpace(r[i + 2]))
  }

  /** Every separator is followed by exactly one space. */
  predicate Spaced(r: string, sep: char) {
    forall i :: 0 <= i < |r| ==> SpacedAt(r, sep, i)
  }

  /** No whitespace stands right before the separator at `i`, unless it is
      the space that follows an earlier separator. */
  predicate TightAt(r: string, sep: char, i: int)
    requires 0 < i < |r|
  {
    r[i] == sep && IsSpace(r[i - 1]) ==> 2 <= i && r[i - 2] == sep
  }

  predicate TightBefore(r: string, sep: char) {
    forall i :: 0 < i < |r| ==> TightAt(r, sep, i)
  }

  /** A text without the separator is trivially spaced around it. */
  lemma AbsentSpaced(t: string, sep: char)
    requires sep !in t
    ensures Spaced(t, sep) && TightBefore(t, sep)
  {
    forall i | 0 <= i < |t|
      ensures SpacedAt(t, sep, i) && (0 < i ==> TightAt(t, sep, i))
    {
      assert t[i] in t;
    }
  }

  /** `sep + ' '` joined over the stripped pieces of a split at `sep`: the
      space after a comma or a period is normalised. */
  function Respace(t: string, sep: char): (r: string)
    ensures forall x :: x in r ==> x in t || x == sep || x == ' '
    ensures !IsSpace(sep) ==> Spaced(r, sep) && TightBefore(r, sep)
    ensures NonSpace(r) == NonSpace(t)
  {
    var stripped := StripEach(Split(t, sep));
    RespaceChars(t, sep);
    RespaceNonSpace(t, sep);
    if !IsSpace(sep) then RespaceSpaced(t, sep); Join(stripped, [sep, ' '])
    else Join(stripped, [sep, ' '])
  }

  /** Re-spacing only moves whitespace: splitting and joining back gives the
      text, and stripping a piece or adding a space after a separator changes
      no non-whitespace character. */
  lemma RespaceNonSpace(t: string, sep: char)
    ensures NonSpace(Join(StripEach(Split(t, sep)), [sep, ' '])) == NonSpace(t)
  {
    var pieces := Split(t, sep);
    var stripped := StripEach(pieces);
    forall i | 0 <= i < |pieces|
      ensures NonSpace(stripped[i]) == NonSpace(pieces[i])
    {
      StripNonSpace(pieces[i]);
    }
    NonSpaceSpaceAfter(sep);
    JoinNonSpace(stripped, pieces, [sep, ' '], [sep]);
    SplitJoin(t, sep);
  }

  /** Re-spacing brings in no character but the separator and the space. */
  lemma RespaceChars(t: string, sep: char)
    ensures var r := Join(StripEach(Split(t, sep)), [sep, ' ']);
      forall x :: x in r ==> x in t || x == sep || x == ' '
  {
    var pieces := Split(t, sep);
    var stripped := StripEach(pieces);
    forall i, x | 0 <= i < |stripped| && x in stripped[i]
      ensures x in t
    {
      StripEachChars(pieces, i, x);
    }
    JoinChars(stripped, [sep, ' '], t);
  }

  /** The stripped pieces of a split are trimmed and hold no separator, so
      their join is spaced. */
  lemma RespaceSpaced(t: string, sep: char)
    requires !IsSpace(sep)
    ensures var r := Join(StripEach(Split(t, sep)), [sep, ' ']);
      Spaced(r, sep) && TightBefore(r, sep)
  {
    var pieces := Split(t, sep);
    var stripped := StripEach(pieces);
    forall i | 0 <= i < |stripped|
      ensures sep !in stripped[i] && Trimmed(stripped[i])
    {
      StripFacts(pieces[i]);
    }
    JoinSpaced(stripped, sep);
  }

  /** Joining trimmed pieces that hold no separator with `sep + ' '` puts
      exactly one space after every separator and no stray whitespace before
      one. */
  lemma {:induction false} JoinSpaced(parts: seq<string>, sep: char)
    requires !IsSpace(sep)
    requires forall j :: 0 <= j < |parts| ==> sep !in parts[j] && Trimmed(parts[j])
    ensures var r := Join(parts, [sep, ' ']);
      (|r| > 0 ==> !IsSpace(r[0])) && Spaced(r, sep) && TightBefore(r, sep)
    decreases |parts|
  {
    if |parts| > 1 {
      var p := parts[0];
      var rest := Join(parts[1..], [sep, ' ']);
      JoinSpaced(parts[1..], sep);
      var r := Join(parts, [sep, ' ']);
      assert r == p + [sep, ' '] + rest;
      var n := |p|;
      assert r[n] == sep && r[n + 1] == ' ';
      assert r[..n] == p;
      assert n > 0 ==> r[0] == p[0] && r[n - 1] == p[n - 1];
      forall i | 0 <= i < |r|
        ensures SpacedAt(r, sep, i)
      {
        if i == n {
          if n + 2 < |r| { assert r[n + 2] == rest[0]; }
        } else if n + 2 <= i {
          var j := i - n - 2;
          assert rest[j] == r[i];
          assert SpacedAt(rest, sep, j);
          if r[i] == sep {
            assert r[i + 1] == rest[j + 1];
            if i + 2 < |r| { assert r[i + 2] == rest[j + 2]; }
          }
        } else if i < n {
          assert r[i] == p[i];
        }
      }
      forall i | 0 < i < |r|
        ensures TightAt(r, sep, i)
      {
        if i == n + 2 {
          assert r[i] == rest[0];
        } else if n + 2 < i {
          var j := i - n - 2;
          assert rest[j] == r[i] && rest[j - 1] == r[i - 1];
          assert TightAt(rest, sep, j);
          if 2 <= j { assert rest[j - 2] == r[i - 2]; }
        } else if i < n {
          assert r[i] == p[i];
        }
      }
    } else if |parts| == 1 {
      AbsentSpaced(parts[0], sep);
    }
  }

  /** `strip` cuts a slice out of a re-spaced text, so every separator but a
      final one keeps its single space. */
  lemma StripSpacedAfter(s: string, sep: char)
    requires Spaced(s, sep)
    ensures var r := Strip(s);
      forall k :: 0 <= k < |r| - 1 ==> SpacedAt(r, sep, k)
  {
    var i := StripOffset(s);
    SliceSpaced(s, sep, i, Strip(s));
  }

  /** Every separator of a slice but its last character keeps the single
      space it had in the whole text. */
  lemma SliceSpaced(s: string, sep: char, lo: int, r: string)
    requires Spaced(s, sep)
    requires 0 <= lo && lo + |r| <= |s| && r == s[lo..lo + |r|]
    ensures forall k :: 0 <= k < |r| - 1 ==> SpacedAt(r, sep, k)
  {
    forall k | 0 <= k < |r| - 1
      ensures SpacedAt(r, sep, k)
    {
      assert r[k] == s[lo + k] && r[k + 1] == s[lo + k + 1];
      assert SpacedAt(s, sep, lo + k);
      if k + 2 < |r| { assert r[k + 2] == s[lo + k + 2]; }
    }
  }

  /** `strip` keeps a text free of whitespace before its separators, since
      it removes the whitespace at the ends. */
  lemma StripTightBefore(s: string, sep: char)
    requires TightBefore(s, sep)
    ensures TightBefore(Strip(s), sep)
  {
    var i := StripOffset(s);
    SliceTight(s, sep, i, Strip(s));
  }

  /** A trimmed slice keeps the text's freedom from whitespace before
      separators. */
  lemma SliceTight(s: string, sep: char, lo: int, r: string)
    requires TightBefore(s, sep)
    requires 0 <= lo && lo + |r| <= |s| && r == s[lo..lo + |r|]
    requires Trimmed(r)
    ensures TightBefore(r, sep)
  {
    forall k | 0 < k < |r|
      ensures TightAt(r, sep, k)
    {
      assert r[k] == s[lo + k] && r[k - 1] == s[lo + k - 1];
      assert TightAt(s, sep, lo + k);
      if 2 <= k { assert r[k - 2] == s[lo + k - 2]; }
    }
  }

  /** The comma branch: the stripped pieces joined by a comma and one space. */
  function Commas(t: string): (r: string)
    ensures NoBreaks(t) ==> NoBreaks(r)
    ensures '.' in t ==> '.' in r
    ensures Spaced(r, ',') && TightBefore(r, ',')
    ensures NonSpace(r) == NonSpace(t)
  {
    if ',' in t then
      RespaceKeeps(t, ',', '.');
      Respace(t, ',')
    else
      AbsentSpaced(t, ',');
      t
  }

  /** The period branch: the stripped pieces joined by a period and one
      space, then `strip`. The `strip` runs only inside this branch,
      following the code's indentation, so only a text with a period is
      stripped on the left. */
  function Periods(t: string): (r: string)
    ensures NoBreaks(t) ==> NoBreaks(r)
    ensures '.' in t ==> Trimmed(r)
    ensures forall i :: 0 <= i < |r| - 1 ==> SpacedAt(r, '.', i)
    ensures TightBefore(r, '.')
    ensures NonSpace(r) == NonSpace(t)
  {
    if '.' in t then
      PeriodsFacts(t);
      Strip(Respace(t, '.'))
    else
      AbsentSpaced(t, '.');
      t
  }

  /** What the period branch keeps: the single space after each period but
      a final one, no whitespace before a period, and every non-whitespace
      character. */
  lemma PeriodsFacts(t: string)
    ensures var r := Strip(Respace(t, '.'));
      && (forall i :: 0 <= i < |r| - 1 ==> SpacedAt(r, '.', i))
      && TightBefore(r, '.')
      && NonSpace(r) == NonSpace(t)
  {
    var spaced := Respace(t, '.');
    StripNonSpace(spaced);
    StripSpacedAfter(spaced, '.');
    StripTightBefore(spaced, '.');
  }

  /** A period is appended unless the text ends in a period or an
      exclamation mark. */
  function Punctuate(t: string): (r: string)
    ensures EndsWith(r, ".") || EndsWith(r, "!")
    ensures NoBreaks(t) ==> NoBreaks(r)
    ensures Trimmed(t) ==> Trimmed(r)
    ensures NonSpace(r) == NonSpace(t) || NonSpace(r) == NonSpace(t) + "."
  {
    if EndsWith(t, ".") || EndsWith(t, "!") then t
    else
      var r := t + ".";
      NonSpaceAppend(t, ".");
      assert NonSpace(".") == ".";
      assert r[|r| - 1] == '.';
      assert |t| > 0 ==> r[0] == t[0];
      r
  }

  /** `text_cleanup` of a non-empty text: no line breaks or tabs, a final
      period or exclamation mark, and no surrounding whitespace when the text
      holds a period. */
  function Cleaned(s: string): (r: string)
    ensures NoBreaks(r)
    ensures EndsWith(r, ".") || EndsWith(r, "!")
    ensures '.' in s ==> Trimmed(r)
    ensures '<' !in s ==> NonSpace(r) == NonSpace(s) || NonSpace(r) == NonSpace(s) + "."
  {
    CollapseNonSpace(s);
    if '.' in s then CollapseKeepsPeriod(s); Punctuate(Periods(Commas(Collapse(s))))
    else Punctuate(Periods(Commas(Collapse(s))))
  }

  /** `text_cleanup(text)`: `None` and the empty string come back unchanged;
      any other text comes back without line breaks or tabs and ending in a
      period or an exclamation mark. */
  function TextCleanup(text: Option<string>): (r: Option<string>)
    ensures r.None? <==> text.None?
    ensures text == Some("") ==> r == text
    ensures text.Some? && text.value != "" ==> EndsWith(r.value, ".") || EndsWith(r.value, "!")
    ensures r.Some? ==> NoBreaks(r.value)
    ensures text.Some? && text.value != "" && '<' !in text.value ==>
      NonSpace(r.value) == NonSpace(text.value) || NonSpace(r.value) == NonSpace(text.value) + "."
  {
    match text
    case None => None
    case Some(s) => if s == "" then text else Some(Cleaned(s))
  }

  lemma CollapseKeepsPeriod(s: string)
    requires '.' in s
    ensures '.' in Collapse(s)
  {
    RStripKeeps(s, '.');
    var noBreaks := ReplaceAll(RStrip(s), "\n", "");
    ReplaceKeeps(RStrip(s), "\n", "", '.');
    ReplaceKeeps(noBreaks, "\t", "", '.');
    SpacingTame();
    SpacingSparesPeriods();
    ReplaceEachKeeps(ReplaceAll(noBreaks, "\t", ""), Spacing, '.');
  }

  /** A character other than the separator and whitespace survives the
      respacing. */
  lemma RespaceKeeps(t: string, sep: char, c: char)
    ensures c in t && c != sep && !IsSpace(c) ==> c in Respace(t, sep)
  {
    if c in t && c != sep && !IsSpace(c) {
      var pieces := Split(t, sep);
      SplitKeeps(t, sep, c);
      var i :| 0 <= i < |pieces| && c in pieces[i];
      StripKeeps(pieces[i], c);
      JoinKeeps(StripEach(pieces), [sep, ' '], i, c);
    }
  }

  lemma NotContainsFirst(s: string, sub: string)
    requires |sub| > 0 && sub[0] !in s
    ensures !Contains(s, sub)
  {
    ContainsOccurs(s, sub);
  }

  lemma SpacingAbsent(s: string)
    requires forall x :: x in s ==> IsAsciiLetter(x) || x == '\r'
    ensures forall i :: 0 <= i < |Spacing| ==> !Contains(s, Spacing[i].pattern)
  {
    forall i | 0 <= i < |Spacing|
      ensures !Contains(s, Spacing[i].pattern)
    {
      NotContainsFirst(s, Spacing[i].pattern);
    }
  }

  lemma CollapseLeavesWord()
    ensures Collapse("\rok") == "\rok"
  {
    var s := "\rok";
    assert RStrip(s) == s;
    ContainsChar(s, '\n');
    ReplaceAbsent(s, "\n", "");
    ContainsChar(s, '\t');
    ReplaceAbsent(s, "\t", "");
    SpacingAbsent(s);
    SpacingTame();
    ReplaceEachAbsent(s, Spacing);
  }

  lemma CleanedWord()
    ensures Cleaned("\rok") == "\rok" + "."
  {
    var s := "\rok";
    CollapseLeavesWord();
    WordFacts();
    assert Periods(Commas(s)) == s;
  }

  lemma WordFacts()
    ensures ',' !in "\rok" && '.' !in "\rok"
    ensures !EndsWith("\rok", ".") && !EndsWith("\rok", "!")
  {
  }

  /** Without a period nothing strips the left end: a leading carriage
      return is kept and a period is appended. */
  lemma TextCleanupKeepsLeadingSpace()
    ensures TextCleanup(Some("\rok")) == Some("\rok" + ".")
  {
    CleanedWord();
  }

  // ---------------------------------------------------------------------------
  // make_str

  /** `make_str(s)`: the "not given" markers and `None` become the empty
      string; any other string is kept. */
  function MakeStr(s: Option<string>): (r: string)
    ensures r == "" <==> s.None? || s.value in {"Not given", "Ikke gitt", ""}
    ensures r != "" ==> s == Some(r)
  {
    if s == Some("Not given") then ""
    else if s == Some("Ikke gitt") then ""
    else if s.None? then ""
    else s.value
  }

  /** Normalising a normalised value changes nothing. */
  lemma MakeStrIdempotent(s: Option<string>)
    ensures MakeStr(Some(MakeStr(s))) == MakeStr(s)
  {
  }
}
