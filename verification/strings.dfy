/** The Python string methods the cleanup helpers rely on (`strip`, `rstrip`,
    `replace`, `split`, `join`, `in`, `endswith`), over `seq<char>`. */
module Strings {

  /** Python's `str.isspace()` for a single character. */
  predicate IsSpace(c: char) {
    || ('\t' <= c <= '\r')
    || ('\U{1C}' <= c <= ' ')
    || c == '\U{85}' || c == '\U{A0}' || c == '\U{1680}'
    || ('\U{2000}' <= c <= '\U{200A}')
    || c == '\U{2028}' || c == '\U{2029}' || c == '\U{202F}' || c == '\U{205F}'
    || c == '\U{3000}'
  }

  /** Neither the first nor the last character is whitespace. */
  predicate Trimmed(s: string) {
    |s| == 0 || (!IsSpace(s[0]) && !IsSpace(s[|s| - 1]))
  }

  predicate StartsWith(s: string, prefix: string) {
    |prefix| <= |s| && s[..|prefix|] == prefix
  }

  predicate EndsWith(s: string, suffix: string) {
    |suffix| <= |s| && s[|s| - |suffix|..] == suffix
  }

  /** Python's `sub in s` for strings. */
  predicate Contains(s: string, sub: string)
    decreases |s|
  {
    StartsWith(s, sub) || (|s| > 0 && Contains(s[1..], sub))
  }

  /** `sub` occurs in `s` starting at index `i`. */
  predicate OccursAt(s: string, sub: string, i: int) {
    0 <= i && i + |sub| <= |s| && s[i..i + |sub|] == sub
  }

  /** `Contains` agrees with the positional definition of a substring. */
  lemma {:induction false} ContainsOccurs(s: string, sub: string)
    ensures Contains(s, sub) <==> exists i :: OccursAt(s, sub, i)
    decreases |s|
  {
    if StartsWith(s, sub) {
      assert OccursAt(s, sub, 0);
    } else if |s| > 0 {
      ContainsOccurs(s[1..], sub);
      if exists i :: OccursAt(s[1..], sub, i) {
        var i :| OccursAt(s[1..], sub, i);
        assert s[1..][i..i + |sub|] == s[i + 1..i + 1 + |sub|];
        assert OccursAt(s, sub, i + 1);
      }
      if exists i :: OccursAt(s, sub, i) {
        var i :| OccursAt(s, sub, i);
        if i > 0 {
          assert s[1..][i - 1..i - 1 + |sub|] == s[i..i + |sub|];
          assert OccursAt(s[1..], sub, i - 1);
        }
      }
    }
  }

  /** A string that contains `sub` also contains every tail of `sub`. */
  lemma ContainsSuffix(s: string, sub: string, k: nat)
    requires k <= |sub|
    requires Contains(s, sub)
    ensures Contains(s, sub[k..])
  {
    ContainsOccurs(s, sub);
    var i :| OccursAt(s, sub, i);
    assert s[i + k..i + k + |sub[k..]|] == sub[k..];
    assert OccursAt(s, sub[k..], i + k);
    ContainsOccurs(s, sub[k..]);
  }

  /** A string that contains `sub` also contains every head of `sub`. */
  lemma ContainsPrefix(s: string, sub: string, k: nat)
    requires k <= |sub|
    requires Contains(s, sub)
    ensures Contains(s, sub[..k])
  {
    ContainsOccurs(s, sub);
    var i :| OccursAt(s, sub, i);
    assert s[i..i + k] == sub[..k];
    assert OccursAt(s, sub[..k], i);
    ContainsOccurs(s, sub[..k]);
  }

  /** Python's `s.rstrip()`: the longest prefix that does not end in whitespace. */
  function RStrip(s: string): (r: string)
    ensures |r| <= |s| && r == s[..|r|]
    ensures forall i :: |r| <= i < |s| ==> IsSpace(s[i])
    ensures |r| == 0 || !IsSpace(r[|r| - 1])
  {
    if |s| > 0 && IsSpace(s[|s| - 1]) then RStrip(s[..|s| - 1]) else s
  }

  /** Python's `s.lstrip()`: the longest suffix that does not start with whitespace. */
  function LStrip(s: string): (r: string)
    ensures |r| <= |s| && r == s[|s| - |r|..]
    ensures forall i :: 0 <= i < |s| - |r| ==> IsSpace(s[i])
    ensures |r| == 0 || !IsSpace(r[0])
  {
    if |s| > 0 && IsSpace(s[0]) then LStrip(s[1..]) else s
  }

  /** Python's `s.strip()`. */
  function Strip(s: string): (r: string)
    ensures Trimmed(r)
    ensures forall x :: x in r ==> x in s
    ensures exists i :: StrippedAt(s, r, i)
  {
    StripTrimmed(s);
    StripChars(s);
    StripSlice(s);
    LStrip(RStrip(s))
  }

  /** `lstrip` after `rstrip` cuts out the slice between the leading and the
      trailing whitespace. */
  lemma StripSlice(s: string)
    ensures StrippedAt(s, LStrip(RStrip(s)), |RStrip(s)| - |LStrip(RStrip(s))|)
  {
    var right := RStrip(s);
    var r := LStrip(right);
    var off := |right| - |r|;
    assert r == s[off..off + |r|];
    LStripHead(right);
    assert s[..off] == right[..off];
    RStripTail(s);
  }

  /** What `lstrip` removes is whitespace. */
  lemma LStripHead(t: string)
    ensures AllSpace(t[..|t| - |LStrip(t)|])
  {
    var head := t[..|t| - |LStrip(t)|];
    forall k | 0 <= k < |head|
      ensures IsSpace(head[k])
    {
      assert head[k] == t[k];
    }
  }

  /** What `rstrip` removes is whitespace. */
  lemma RStripTail(s: string)
    ensures AllSpace(s[|RStrip(s)|..])
  {
    var tail := s[|RStrip(s)|..];
    forall k | 0 <= k < |tail|
      ensures IsSpace(tail[k])
    {
      assert tail[k] == s[|RStrip(s)| + k];
    }
  }

  /** `r` is `s` with a whitespace prefix of length `i` and a whitespace
      suffix removed. */
  predicate StrippedAt(s: string, r: string, i: int) {
    && 0 <= i && i + |r| <= |s|
    && r == s[i..i + |r|]
    && AllSpace(s[..i])
    && AllSpace(s[i + |r|..])
  }

  /** Where `strip` cut its result out of `s`. */
  lemma StripOffset(s: string) returns (i: int)
    ensures StrippedAt(s, Strip(s), i)
  {
    i :| StrippedAt(s, Strip(s), i);
  }

  /** Every character is whitespace. */
  predicate AllSpace(t: string) {
    forall k :: 0 <= k < |t| ==> IsSpace(t[k])
  }

  /** The characters of `s` that are not whitespace, in order: what a change
      that only moves, adds or removes whitespace leaves alone. */
  function NonSpace(s: string): (r: string)
    ensures |r| <= |s|
    decreases |s|
  {
    if |s| == 0 then ""
    else (if IsSpace(s[0]) then "" else [s[0]]) + NonSpace(s[1..])
  }

  lemma {:induction false} NonSpaceAppend(a: string, b: string)
    ensures NonSpace(a + b) == NonSpace(a) + NonSpace(b)
    decreases |a|
  {
    if |a| > 0 {
      assert (a + b)[0] == a[0];
      assert (a + b)[1..] == a[1..] + b;
      NonSpaceAppend(a[1..], b);
    } else {
      assert a + b == b;
    }
  }

  lemma {:induction false} AllSpaceNonSpace(t: string)
    requires AllSpace(t)
    ensures NonSpace(t) == ""
    decreases |t|
  {
    if |t| > 0 {
      assert forall k :: 0 <= k < |t[1..]| ==> t[1..][k] == t[k + 1];
      AllSpaceNonSpace(t[1..]);
    }
  }

  /** `strip` removes only whitespace. */
  lemma StripNonSpace(s: string)
    ensures NonSpace(Strip(s)) == NonSpace(s)
  {
    var r := Strip(s);
    var i := StripOffset(s);
    var head, tail := s[..i], s[i + |r|..];
    assert s == head + r + tail;
    NonSpaceAppend(head + r, tail);
    NonSpaceAppend(head, r);
    AllSpaceNonSpace(head);
    AllSpaceNonSpace(tail);
  }

  /** `rstrip` removes only whitespace. */
  lemma RStripNonSpace(s: string)
    ensures NonSpace(RStrip(s)) == NonSpace(s)
  {
    var r := RStrip(s);
    var tail := s[|r|..];
    assert s == r + tail;
    assert forall k :: 0 <= k < |tail| ==> tail[k] == s[|r| + k];
    NonSpaceAppend(r, tail);
    AllSpaceNonSpace(tail);
  }

  /** A separator followed by a space has the separator's non-whitespace. */
  lemma NonSpaceSpaceAfter(c: char)
    ensures NonSpace([c, ' ']) == NonSpace([c])
  {
    assert [c, ' '] == [c] + [' '];
    NonSpaceAppend([c], [' ']);
    assert [' '][1..] == [];
  }

  /** Replacing a target by text with the same non-whitespace characters
      leaves the non-whitespace characters of the whole alone. */
  lemma {:induction false} ReplaceAllNonSpace(s: string, target: string, repl: string)
    requires |target| > 0
    requires NonSpace(target) == NonSpace(repl)
    ensures NonSpace(ReplaceAll(s, target, repl)) == NonSpace(s)
    decreases |s|
  {
    if |s| > 0 {
      if StartsWith(s, target) {
        var rest := s[|target|..];
        ReplaceAllNonSpace(rest, target, repl);
        assert s == target + rest;
        NonSpaceAppend(target, rest);
        NonSpaceAppend(repl, ReplaceAll(rest, target, repl));
      } else {
        ReplaceAllNonSpace(s[1..], target, repl);
        assert s == [s[0]] + s[1..];
        NonSpaceAppend([s[0]], s[1..]);
        NonSpaceAppend([s[0]], ReplaceAll(s[1..], target, repl));
      }
    }
  }

  /** Joins of pieces that agree on their non-whitespace characters, with
      separators that agree too, agree on theirs. */
  lemma {:induction false} JoinNonSpace(a: seq<string>, b: seq<string>, sa: string, sb: string)
    requires |a| == |b|
    requires forall i :: 0 <= i < |a| ==> NonSpace(a[i]) == NonSpace(b[i])
    requires NonSpace(sa) == NonSpace(sb)
    ensures NonSpace(Join(a, sa)) == NonSpace(Join(b, sb))
    decreases |a|
  {
    if |a| > 1 {
      assert forall i :: 0 <= i < |a| - 1 ==> a[1..][i] == a[i + 1] && b[1..][i] == b[i + 1];
      JoinNonSpace(a[1..], b[1..], sa, sb);
      var ra, rb := Join(a[1..], sa), Join(b[1..], sb);
      NonSpaceAppend(a[0] + sa, ra);
      NonSpaceAppend(a[0], sa);
      NonSpaceAppend(b[0] + sb, rb);
      NonSpaceAppend(b[0], sb);
    }
  }

  /** `s.strip()` is empty exactly when `s` is all whitespace, and leaves a
      string without surrounding whitespace unchanged. */
  lemma StripFacts(s: string)
    ensures var r := Strip(s);
      && Trimmed(r)
      && (forall x :: x in r ==> x in s)
      && (|r| == 0 <==> forall i :: 0 <= i < |s| ==> IsSpace(s[i]))
      && (Trimmed(s) ==> r == s)
  {
    StripTrimmed(s);
    StripChars(s);
    StripAllSpace(s);
    if Trimmed(s) {
      StripUnchanged(s);
    }
  }

  lemma StripChars(s: string)
    ensures forall x :: x in LStrip(RStrip(s)) ==> x in s
  {
    var right := RStrip(s);
    var r := LStrip(right);
    assert forall x :: x in r ==> x in right;
    assert forall x :: x in right ==> x in s;
  }

  lemma StripUnchanged(s: string)
    requires Trimmed(s)
    ensures LStrip(RStrip(s)) == s
  {
    if |s| > 0 {
      assert !IsSpace(s[|s| - 1]);
      assert RStrip(s) == s;
      assert !IsSpace(s[0]);
    }
  }

  lemma StripTrimmed(s: string)
    ensures Trimmed(LStrip(RStrip(s)))
  {
    var right := RStrip(s);
    var r := LStrip(right);
    if |r| > 0 {
      assert r[|r| - 1] == right[|right| - 1];
    }
  }

  lemma StripAllSpace(s: string)
    ensures |LStrip(RStrip(s))| == 0 <==> forall i :: 0 <= i < |s| ==> IsSpace(s[i])
  {
    var right := RStrip(s);
    var r := LStrip(right);
    if |r| == 0 {
      assert |right| == 0;
    } else {
      var off := |right| - |r|;
      assert r[0] == right[off] == s[off];
    }
  }

  /** Python's `s.replace(target, repl)`: every non-overlapping occurrence of
      `target`, scanning from the left, becomes `repl`. */
  function ReplaceAll(s: string, target: string, repl: string): (r: string)
    requires |target| > 0
    ensures forall x :: x in r ==> x in s || x in repl
    ensures |target| == 1 && target[0] !in repl ==> target[0] !in r
    decreases |s|
  {
    if |s| == 0 then s
    else if StartsWith(s, target) then repl + ReplaceAll(s[|target|..], target, repl)
    else [s[0]] + ReplaceAll(s[1..], target, repl)
  }

  /** Replacing a target that does not occur changes nothing. */
  lemma {:induction false} ReplaceAbsent(s: string, target: string, repl: string)
    requires |target| > 0
    requires !Contains(s, target)
    ensures ReplaceAll(s, target, repl) == s
    decreases |s|
  {
    if |s| > 0 {
      ReplaceAbsent(s[1..], target, repl);
    }
  }

  /** Replacing one character distributes over concatenation. */
  lemma {:induction false} ReplaceCharAppend(a: string, b: string, c: char, repl: string)
    ensures ReplaceAll(a + b, [c], repl) == ReplaceAll(a, [c], repl) + ReplaceAll(b, [c], repl)
    decreases |a|
  {
    var t := [c];
    if |a| == 0 {
      assert a + b == b;
    } else {
      var x := a[0];
      assert (a + b)[1..] == a[1..] + b;
      ReplaceCharAppend(a[1..], b, c, repl);
      var tail := ReplaceAll(a[1..], t, repl) + ReplaceAll(b, t, repl);
      if x == c {
        assert StartsWith(a + b, t) && StartsWith(a, t);
        assert ReplaceAll(a + b, t, repl) == repl + tail;
        assert ReplaceAll(a, t, repl) == repl + ReplaceAll(a[1..], t, repl);
      } else {
        assert !StartsWith(a + b, t) && !StartsWith(a, t);
        assert ReplaceAll(a + b, t, repl) == [x] + tail;
        assert ReplaceAll(a, t, repl) == [x] + ReplaceAll(a[1..], t, repl);
      }
    }
  }

  /** Python's `sep.join(parts)`. */
  function Join(parts: seq<string>, sep: string): (r: string)
    ensures forall x :: x in r ==> x in sep || exists i :: 0 <= i < |parts| && x in parts[i]
  {
    if |parts| == 0 then ""
    else if |parts| == 1 then parts[0]
    else parts[0] + sep + Join(parts[1..], sep)
  }

  /** Python's `s.split(sep)` for a one-character separator. */
  function Split(s: string, sep: char): (parts: seq<string>)
    ensures |parts| > 0
    ensures forall i :: 0 <= i < |parts| ==> sep !in parts[i]
    ensures forall i, x :: 0 <= i < |parts| && x in parts[i] ==> x in s
    decreases |s|
  {
    if |s| == 0 then [""]
    else
      var rest := Split(s[1..], sep);
      assert forall x :: x in s[1..] ==> x in s;
      if s[0] == sep then
        assert forall i :: 1 <= i < |rest| + 1 ==> ([""] + rest)[i] == rest[i - 1];
        [""] + rest
      else
        assert forall i :: 1 <= i < |rest| ==> ([[s[0]] + rest[0]] + rest[1..])[i] == rest[i];
        [[s[0]] + rest[0]] + rest[1..]
  }

  /** `[p.strip() for p in parts]`. */
  function StripEach(parts: seq<string>): (r: seq<string>)
    ensures |r| == |parts|
    ensures forall i :: 0 <= i < |parts| ==> r[i] == Strip(parts[i])
  {
    seq(|parts|, i requires 0 <= i < |parts| => Strip(parts[i]))
  }

  /** A join holds only the separator's characters and those of a text
      that holds every piece's characters. */
  lemma JoinChars(parts: seq<string>, sep: string, s: string)
    requires forall i, x :: 0 <= i < |parts| && x in parts[i] ==> x in s
    ensures forall x :: x in Join(parts, sep) ==> x in s || x in sep
  {
  }

  /** Stripping a piece brings in no character. */
  lemma StripEachChars(parts: seq<string>, i: int, x: char)
    requires 0 <= i < |parts| && x in StripEach(parts)[i]
    ensures x in parts[i]
  {
    assert StripEach(parts)[i] == Strip(parts[i]);
  }

  lemma JoinConsHead(x: char, parts: seq<string>, sep: string)
    requires |parts| > 0
    ensures Join([[x] + parts[0]] + parts[1..], sep) == [x] + Join(parts, sep)
  {
    var moved := [[x] + parts[0]] + parts[1..];
    assert moved[1..] == parts[1..];
  }

  /** Joining the pieces of a split with the separator gives the string back. */
  lemma {:induction false} SplitJoin(s: string, sep: char)
    ensures Join(Split(s, sep), [sep]) == s
    decreases |s|
  {
    if |s| > 0 {
      var rest := Split(s[1..], sep);
      SplitJoin(s[1..], sep);
      if s[0] == sep {
        assert ([""] + rest)[1..] == rest;
        assert s == [sep] + s[1..];
      } else {
        JoinConsHead(s[0], rest, [sep]);
        assert s == [s[0]] + s[1..];
      }
    }
  }

  /** Splitting a join of separator-free pieces gives the pieces back. */
  lemma {:induction false} JoinSplit(parts: seq<string>, sep: char)
    requires |parts| > 0
    requires forall i :: 0 <= i < |parts| ==> sep !in parts[i]
    ensures Split(Join(parts, [sep]), sep) == parts
    decreases |parts|, |parts[0]|
  {
    if |parts[0]| > 0 {
      var x := parts[0][0];
      var shorter := [parts[0][1..]] + parts[1..];
      assert shorter[1..] == parts[1..];
      assert [x] + shorter[0] == parts[0];
      assert [[x] + shorter[0]] + shorter[1..] == parts;
      JoinSplit(shorter, sep);
      JoinConsHead(x, shorter, [sep]);
      var joined := Join(parts, [sep]);
      assert joined == [x] + Join(shorter, [sep]);
      assert joined[1..] == Join(shorter, [sep]);
    } else if |parts| == 1 {
    } else {
      JoinSplit(parts[1..], sep);
      var joined := Join(parts, [sep]);
      assert joined == [sep] + Join(parts[1..], [sep]);
      assert joined[1..] == Join(parts[1..], [sep]);
      assert [""] + parts[1..] == parts;
    }
  }

  /** Replacing a character is splitting at it and joining with the replacement,
      the identity `s.replace(c, t) == t.join(s.split(c))`. */
  lemma {:induction false} ReplaceCharIsSplitJoin(s: string, c: char, repl: string)
    ensures ReplaceAll(s, [c], repl) == Join(Split(s, c), repl)
    decreases |s|
  {
    if |s| > 0 {
      var rest := Split(s[1..], c);
      ReplaceCharIsSplitJoin(s[1..], c, repl);
      if s[0] == c {
        assert StartsWith(s, [c]);
        assert ([""] + rest)[1..] == rest;
      } else {
        assert !StartsWith(s, [c]);
        JoinConsHead(s[0], rest, repl);
      }
    }
  }

  // ---------------------------------------------------------------------------
  // Deleting characters

  /** `s` with every character of `cs` deleted. */
  function Delete(s: string, cs: set<char>): string
    decreases |s|
  {
    if |s| == 0 then "" else (if s[0] in cs then "" else [s[0]]) + Delete(s[1..], cs)
  }

  /** Deleting keeps exactly the characters outside `cs`. */
  lemma {:induction false} DeleteChars(s: string, cs: set<char>)
    ensures forall x :: x in Delete(s, cs) <==> x in s && x !in cs
    decreases |s|
  {
    if |s| > 0 {
      DeleteChars(s[1..], cs);
      assert s == [s[0]] + s[1..];
    }
  }

  /** A one-character substring is an element. */
  lemma {:induction false} ContainsChar(s: string, c: char)
    ensures Contains(s, [c]) <==> c in s
    decreases |s|
  {
    if |s| > 0 {
      ContainsChar(s[1..], c);
      assert s == [s[0]] + s[1..];
    }
  }

  /** `s.replace(c, '')` deletes `c`. */
  lemma {:induction false} ReplaceCharByNothing(s: string, c: char)
    ensures ReplaceAll(s, [c], "") == Delete(s, {c})
    decreases |s|
  {
    if |s| > 0 {
      ReplaceCharByNothing(s[1..], c);
      if s[0] == c {
        assert StartsWith(s, [c]);
      } else {
        assert !StartsWith(s, [c]);
      }
    }
  }

  lemma {:induction false} DeleteAppend(x: string, y: string, cs: set<char>)
    ensures Delete(x + y, cs) == Delete(x, cs) + Delete(y, cs)
    decreases |x|
  {
    if |x| > 0 {
      assert (x + y)[1..] == x[1..] + y;
      DeleteAppend(x[1..], y, cs);
    } else {
      assert x + y == y;
    }
  }

  /** Deleting one set of characters and then another deletes their union. */
  lemma {:induction false} DeleteDelete(s: string, a: set<char>, b: set<char>)
    ensures Delete(Delete(s, a), b) == Delete(s, a + b)
    decreases |s|
  {
    if |s| > 0 {
      DeleteDelete(s[1..], a, b);
      var head: string := if s[0] in a then "" else [s[0]];
      DeleteAppend(head, Delete(s[1..], a), b);
      if s[0] !in a {
        assert Delete(head, b) == (if s[0] in b then "" else [s[0]]) by {
          assert head[1..] == "";
        }
      }
    }
  }

  // ---------------------------------------------------------------------------
  // Characters that survive

  /** A character outside the target is never replaced away. */
  lemma {:induction false} ReplaceKeeps(s: string, target: string, repl: string, c: char)
    requires |target| > 0 && c in s && c !in target
    ensures c in ReplaceAll(s, target, repl)
    decreases |s|
  {
    if s[0] == c {
      assert !StartsWith(s, target) by {
        if |target| <= |s| {
          assert s[..|target|][0] == c;
        }
      }
    } else {
      var k :| 0 <= k < |s| && s[k] == c;
      if StartsWith(s, target) {
        assert s[|target|..][k - |target|] == c;
        ReplaceKeeps(s[|target|..], target, repl, c);
      } else {
        assert s[1..][k - 1] == c;
        ReplaceKeeps(s[1..], target, repl, c);
      }
    }
  }

  /** `rstrip` keeps every character that is not whitespace. */
  lemma RStripKeeps(s: string, c: char)
    requires c in s && !IsSpace(c)
    ensures c in RStrip(s)
  {
    var r := RStrip(s);
    var i :| 0 <= i < |s| && s[i] == c;
    assert i < |r|;
    assert r[i] == c;
  }

  /** `lstrip` keeps every character that is not whitespace. */
  lemma LStripKeeps(s: string, c: char)
    requires c in s && !IsSpace(c)
    ensures c in LStrip(s)
  {
    var r := LStrip(s);
    var i :| 0 <= i < |s| && s[i] == c;
    var off := |s| - |r|;
    assert !IsSpace(s[i]);
    assert i >= off;
    assert r[i - off] == c;
  }

  /** `strip` keeps every character that is not whitespace. */
  lemma StripKeeps(s: string, c: char)
    requires c in s && !IsSpace(c)
    ensures c in Strip(s)
  {
    RStripKeeps(s, c);
    LStripKeeps(RStrip(s), c);
  }

  /** A string shorter than `sub` does not contain it. */
  lemma {:induction false} ShortLacks(s: string, sub: string)
    requires |s| < |sub|
    ensures !Contains(s, sub)
    decreases |s|
  {
    if |s| > 0 {
      ShortLacks(s[1..], sub);
    }
  }

  /** A character other than the separator lands in some piece of a split. */
  lemma {:induction false} SplitKeeps(s: string, sep: char, c: char)
    requires c in s && c != sep
    ensures exists i :: 0 <= i < |Split(s, sep)| && c in Split(s, sep)[i]
    decreases |s|
  {
    var parts := Split(s, sep);
    var rest := Split(s[1..], sep);
    if s[0] == c {
      assert parts[0] == [c] + rest[0];
      assert c in parts[0];
    } else {
      assert c in s[1..] by {
        assert s == [s[0]] + s[1..];
      }
      SplitKeeps(s[1..], sep, c);
      var i :| 0 <= i < |rest| && c in rest[i];
      if s[0] == sep {
        assert parts[i + 1] == rest[i];
      } else if i == 0 {
        assert parts[0] == [s[0]] + rest[0];
      } else {
        assert parts[i] == rest[i];
      }
    }
  }

  /** A character of any piece occurs in the join. */
  lemma {:induction false} JoinKeeps(parts: seq<string>, sep: string, i: int, c: char)
    requires 0 <= i < |parts| && c in parts[i]
    ensures c in Join(parts, sep)
    decreases |parts|
  {
    if |parts| > 1 {
      if i > 0 {
        JoinKeeps(parts[1..], sep, i - 1, c);
      }
    }
  }
}
