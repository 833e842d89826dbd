/** ASCII models of the Python `str` operations that app.py applies to queries
    and generated SQL: `lower`, `startswith`, the `in` substring test, `strip`,
    `replace`, `split()` on whitespace and `join`. */
module Text {

  /** `str.isspace` on ASCII: tab, line feed, vertical tab, form feed, carriage
      return, the four separators U+001C..U+001F, and space. These are exactly
      the ASCII characters that `strip()` removes and `split()` splits on. */
  predicate IsSpace(c: char) {
    ('\t' <= c <= '\r') || ('\U{1C}' <= c <= ' ')
  }

  predicate IsUpper(c: char) {
    'A' <= c <= 'Z'
  }

  /** `str.lower` on one ASCII character. */
  function LowerChar(c: char): char {
    if IsUpper(c) then (c as int + 32) as char else c
  }

  /** `str.lower`: the string with every ASCII capital replaced by its small letter. */
  function Lower(s: string): string {
    seq(|s|, i requires 0 <= i < |s| => LowerChar(s[i]))
  }

  /** `s.startswith(p)`. */
  predicate StartsWith(s: string, p: string) {
    |p| <= |s| && s[..|p|] == p
  }

  /** `w` occurs in `s` as a contiguous block starting at index `i`. */
  predicate OccursAt(s: string, w: string, i: int) {
    0 <= i && i + |w| <= |s| && s[i..i + |w|] == w
  }

  /** The Python test `w in s`: `w` occurs somewhere in `s`. */
  predicate Contains(s: string, w: string) {
    exists i | 0 <= i <= |s| - |w| :: OccursAt(s, w, i)
  }

  /** `any(w in s for w in ws)`. */
  predicate ContainsAny(s: string, ws: seq<string>) {
    exists j | 0 <= j < |ws| :: Contains(s, ws[j])
  }

  /** A block placed between two others is contained in the whole. */
  lemma ContainsBetween(a: string, w: string, b: string)
    ensures Contains(a + w + b, w)
  {
    var s := a + w + b;
    assert s[|a|..|a| + |w|] == w;
    assert OccursAt(s, w, |a|);
  }

  /** If some character of `w` does not occur in `s`, then `w` is not in `s`. */
  lemma NotContainsByChar(s: string, w: string, k: nat)
    requires k < |w| && w[k] !in s
    ensures !Contains(s, w)
  {
    forall i | 0 <= i && i + |w| <= |s|
      ensures !OccursAt(s, w, i)
    {
      assert s[i..i + |w|][k] == s[i + k];
    }
  }

  /** Containment is transitive: whatever contains `a` contains every piece of `a`. */
  lemma ContainsTrans(s: string, a: string, b: string)
    requires Contains(s, a) && Contains(a, b)
    ensures Contains(s, b)
  {
    var i :| 0 <= i <= |s| - |a| && OccursAt(s, a, i);
    var j :| 0 <= j <= |a| - |b| && OccursAt(a, b, j);
    assert s[i..i + |a|] == a && a[j..j + |b|] == b;
    forall k | 0 <= k < |b|
      ensures s[i + j + k] == b[k]
    {
      assert a[j..j + |b|][k] == a[j + k];
      assert s[i..i + |a|][j + k] == s[i + j + k];
    }
    assert s[i + j..i + j + |b|] == b;
    assert OccursAt(s, b, i + j);
  }

  /** A text shorter than every listed word contains none of them. */
  lemma ShortContainsNone(s: string, ws: seq<string>)
    requires forall j | 0 <= j < |ws| :: |s| < |ws[j]|
    ensures !ContainsAny(s, ws)
  {
    forall j | 0 <= j < |ws|
      ensures !Contains(s, ws[j])
    {
    }
  }

  /** If two adjacent characters of `w` never stand side by side in `s`, then
      `w` is not in `s`. */
  lemma NotContainsByPair(s: string, w: string, k: nat)
    requires k + 1 < |w|
    requires forall i | 0 <= i < |s| - 1 :: !(s[i] == w[k] && s[i + 1] == w[k + 1])
    ensures !Contains(s, w)
  {
    forall i | 0 <= i && i + |w| <= |s|
      ensures !OccursAt(s, w, i)
    {
      assert s[i..i + |w|][k] == s[i + k];
      assert s[i..i + |w|][k + 1] == s[i + k + 1];
    }
  }

  /** Lower-casing does not change characters that are not capitals. */
  lemma LowerUnchanged(s: string)
    requires forall i | 0 <= i < |s| :: !IsUpper(s[i])
    ensures Lower(s) == s
  {
  }

  // ---------------------------------------------------------------------
  // strip()

  /** `lstrip()`: drops the leading whitespace and nothing else. */
  function TrimLeft(s: string): (r: string)
    ensures |r| <= |s| && r == s[|s| - |r|..]
    ensures forall i | 0 <= i < |s| - |r| :: IsSpace(s[i])
    ensures r != [] ==> !IsSpace(r[0])
    decreases |s|
  {
    if s != [] && IsSpace(s[0]) then TrimLeft(s[1..]) else s
  }

  /** `rstrip()`: drops the trailing whitespace and nothing else. */
  function TrimRight(s: string): (r: string)
    ensures |r| <= |s| && r == s[..|r|]
    ensures forall i | |r| <= i < |s| :: IsSpace(s[i])
    ensures r != [] ==> !IsSpace(r[|r| - 1])
    decreases |s|
  {
    if s != [] && IsSpace(s[|s| - 1]) then TrimRight(s[..|s| - 1]) else s
  }

  /** `strip()`: the result neither starts nor ends with whitespace, and it is
      empty only when the whole input is whitespace. */
  function Strip(s: string): (r: string)
    ensures |r| <= |s|
    ensures r != [] ==> !IsSpace(r[0]) && !IsSpace(r[|r| - 1])
    ensures r == [] <==> forall i | 0 <= i < |s| :: IsSpace(s[i])
  {
    var t := TrimLeft(s);
    var r := TrimRight(t);
    assert r != [] ==> r[0] == t[0];
    assert forall i | |s| - |t| <= i < |s| :: s[i] == t[i - (|s| - |t|)];
    r
  }

  /** A string with no whitespace at either end is left alone by `strip()`. */
  lemma StripUnchanged(s: string)
    requires s != [] && !IsSpace(s[0]) && !IsSpace(s[|s| - 1])
    ensures Strip(s) == s
  {
  }

  // ---------------------------------------------------------------------
  // replace()

  /** `s.replace(a, b)` for one-character `a` and `b`. */
  function Replace(s: string, a: char, b: char): string {
    seq(|s|, i requires 0 <= i < |s| => if s[i] == a then b else s[i])
  }

  /** Replacing a character the text lacks leaves the text unchanged. */
  lemma ReplaceAbsent(s: string, a: char, b: char)
    requires a !in s
    ensures Replace(s, a, b) == s
  {
  }

  /** A character other than `b` that is missing before a replacement is missing after it. */
  lemma ReplaceExcludes(s: string, a: char, b: char, c: char)
    requires c !in s && c != b
    ensures c !in Replace(s, a, b)
  {
  }

  /** `s.replace(c, '')`: the characters other than `c`, in their order. */
  function RemoveChar(s: string, c: char): (r: string)
    ensures c !in r
    ensures |r| <= |s|
  {
    if s == [] then [] else (if s[0] == c then [] else [s[0]]) + RemoveChar(s[1..], c)
  }

  /** Removal keeps every other character, as often as it occurs. */
  lemma {:induction false} RemoveCharCounts(s: string, c: char)
    ensures multiset(RemoveChar(s, c)) == multiset(s)[c := 0]
  {
    if s != [] {
      assert s == [s[0]] + s[1..];
      RemoveCharCounts(s[1..], c);
    }
  }

  lemma {:induction false} RemoveCharAppend(a: string, b: string, c: char)
    ensures RemoveChar(a + b, c) == RemoveChar(a, c) + RemoveChar(b, c)
  {
    if a == [] {
      assert a + b == b;
    } else {
      assert (a + b)[0] == a[0];
      assert (a + b)[1..] == a[1..] + b;
      RemoveCharAppend(a[1..], b, c);
    }
  }

  lemma {:induction false} RemoveCharAbsent(s: string, c: char)
    requires c !in s
    ensures RemoveChar(s, c) == s
  {
    if s != [] {
      RemoveCharAbsent(s[1..], c);
    }
  }

  // ---------------------------------------------------------------------
  // split() and join()

  /** No whitespace anywhere in `s`. */
  predicate NoSpace(s: string) {
    forall i | 0 <= i < |s| :: !IsSpace(s[i])
  }

  /** What `split()` can return as one element: a non-empty run of non-blanks. */
  predicate IsWord(w: string) {
    w != [] && NoSpace(w)
  }

  /** The longest prefix of `s` without whitespace. */
  function TakeWord(s: string): (w: string)
    ensures |w| <= |s| && w == s[..|w|]
    ensures NoSpace(w)
    ensures |w| < |s| ==> IsSpace(s[|w|])
    ensures s != [] && !IsSpace(s[0]) ==> w != []
    decreases |s|
  {
    if s == [] || IsSpace(s[0]) then [] else [s[0]] + TakeWord(s[1..])
  }

  /** `split()` with no argument: the maximal runs of non-whitespace, in
      order. A string that starts with a non-blank has the run at its front as
      its first word. */
  function Words(s: string): (ws: seq<string>)
    ensures forall i | 0 <= i < |ws| :: IsWord(ws[i])
    ensures s != [] && !IsSpace(s[0]) ==> ws != [] && ws[0] == TakeWord(s)
  {
    if s == [] then []
    else
      var rest := Words(s[1..]);
      if IsSpace(s[0]) then rest
      else if s[1..] != [] && !IsSpace(s[1]) then
        assert forall i | 1 <= i < |rest| :: ([[s[0]] + rest[0]] + rest[1..])[i] == rest[i];
        [[s[0]] + rest[0]] + rest[1..]
      else
        assert forall i | 1 <= i < |rest| + 1 :: ([[s[0]]] + rest)[i] == rest[i - 1];
        [[s[0]]] + rest
  }

  /** `sep.join(parts)`. */
  function Join(parts: seq<string>, sep: string): string {
    if |parts| == 0 then ""
    else if |parts| == 1 then parts[0]
    else parts[0] + sep + Join(parts[1..], sep)
  }

  /** `' '.join(s.split())`. */
  function CollapseSpaces(s: string): string {
    Join(Words(s), " ")
  }

  /** The only whitespace is single spaces between non-blank characters: no
      leading, trailing or repeated blanks, no tabs or line breaks. */
  predicate WellSpaced(s: string) {
    forall i | 0 <= i < |s| :: IsSpace(s[i]) ==> s[i] == ' ' && 0 < i < |s| - 1 && !IsSpace(s[i + 1])
  }

  /** Whitespace in front of a string does not change its words. */
  lemma WordsSkipSpace(c: char, s: string)
    requires IsSpace(c)
    ensures Words([c] + s) == Words(s)
  {
    assert ([c] + s)[1..] == s;
  }

  /** The first element of a join is a prefix of it. */
  lemma JoinHead(parts: seq<string>, sep: string)
    requires parts != []
    ensures StartsWith(Join(parts, sep), parts[0])
  {
  }

  /** A word followed by nothing or by whitespace is read as exactly that word. */
  lemma {:induction false} TakeWordOf(w: string, t: string)
    requires NoSpace(w)
    requires t == [] || IsSpace(t[0])
    ensures TakeWord(w + t) == w
    decreases |w|
  {
    if w != [] {
      assert (w + t)[1..] == w[1..] + t;
      TakeWordOf(w[1..], t);
    } else {
      assert w + t == t;
    }
  }

  /** Joining words with single spaces yields a well-spaced string. */
  lemma {:induction false} JoinWordsWellSpaced(ws: seq<string>)
    requires forall i | 0 <= i < |ws| :: IsWord(ws[i])
    ensures WellSpaced(Join(ws, " "))
    ensures ws != [] ==> Join(ws, " ") != []
  {
    if |ws| >= 2 {
      var w, rest := ws[0], Join(ws[1..], " ");
      JoinWordsWellSpaced(ws[1..]);
      assert IsWord(ws[1..][0]);
      JoinHead(ws[1..], " ");
      var s := w + " " + rest;
      assert Join(ws, " ") == s;
      forall i | 0 <= i < |s|
        ensures IsSpace(s[i]) ==> s[i] == ' ' && 0 < i < |s| - 1 && !IsSpace(s[i + 1])
      {
        if i < |w| {
          assert s[i] == w[i];
        } else if i == |w| {
          assert s[i + 1] == rest[0];
        } else {
          assert s[i] == rest[i - |w| - 1];
          if i + 1 < |s| {
            assert s[i + 1] == rest[i - |w|];
          }
        }
      }
    }
  }

  /** A string that starts with a word followed by nothing or by whitespace
      splits into that word and the words of the rest. */
  lemma {:induction false} WordsCons(w: string, t: string)
    requires IsWord(w)
    requires t == [] || IsSpace(t[0])
    ensures Words(w + t) == [w] + Words(t)
    decreases |w|
  {
    var s := w + t;
    assert s[0] == w[0];
    assert s[1..] == w[1..] + t;
    if |w| == 1 {
      assert w[1..] + t == t;
      assert [w[0]] == w;
    } else {
      WordsCons(w[1..], t);
      assert s[1] == w[1];
      assert [w[0]] + w[1..] == w;
      assert ([w[1..]] + Words(t))[1..] == Words(t);
    }
  }

  /** Splitting a join of words with single spaces gives back the words. */
  lemma {:induction false} WordsOfJoin(ws: seq<string>)
    requires forall i | 0 <= i < |ws| :: IsWord(ws[i])
    ensures Words(Join(ws, " ")) == ws
  {
    if |ws| == 1 {
      var w := ws[0];
      WordsCons(w, "");
      assert w + "" == w;
    } else if |ws| >= 2 {
      var w, tail := ws[0], ws[1..];
      var rest := Join(tail, " ");
      assert Join(ws, " ") == w + ([' '] + rest);
      WordsOfJoin(tail);
      WordsCons(w, [' '] + rest);
      WordsSkipSpace(' ', rest);
      assert ws == [w] + tail;
    }
  }

  /** A well-spaced string is its own word list joined by single spaces. */
  lemma {:induction false} WellSpacedJoin(s: string)
    requires WellSpaced(s)
    ensures Join(Words(s), " ") == s
    decreases |s|
  {
    if s != [] {
      assert !IsSpace(s[0]);
      var w := TakeWord(s);
      assert s == w + s[|w|..];
      WordsCons(w, s[|w|..]);
      if |w| == |s| {
        assert s[|w|..] == [];
      } else {
        var rest := s[|w| + 1..];
        assert s[|w|] == ' ';
        assert s[|w|..] == [' '] + rest;
        WordsSkipSpace(' ', rest);
        forall i | 0 <= i < |rest|
          ensures IsSpace(rest[i]) ==> rest[i] == ' ' && 0 < i < |rest| - 1 && !IsSpace(rest[i + 1])
        {
          assert rest[i] == s[i + |w| + 1];
        }
        WellSpacedJoin(rest);
        assert !IsSpace(rest[0]);
        assert Words(rest) != [];
        assert s == w + " " + rest;
      }
    }
  }

  /** `' '.join(s.split())` leaves a string unchanged exactly when it is well spaced. */
  lemma CollapseFixedIff(s: string)
    ensures CollapseSpaces(s) == s <==> WellSpaced(s)
  {
    JoinWordsWellSpaced(Words(s));
    if WellSpaced(s) {
      WellSpacedJoin(s);
    }
  }

  /** `' '.join(s.split())` is idempotent. */
  lemma CollapseIdempotent(s: string)
    ensures CollapseSpaces(CollapseSpaces(s)) == CollapseSpaces(s)
  {
    WordsOfJoin(Words(s));
  }

  /** A blank-free prefix survives `' '.join(s.split())` unchanged. */
  lemma CollapseKeepsPrefix(s: string, k: nat)
    requires 0 < k <= |s|
    requires forall i | 0 <= i < k :: !IsSpace(s[i])
    ensures StartsWith(CollapseSpaces(s), s[..k])
  {
    var w := TakeWord(s);
    assert |w| >= k;
    JoinHead(Words(s), " ");
  }

  /** A character missing from `s` is missing from every word of `s`. */
  lemma {:induction false} WordsExclude(s: string, c: char)
    requires c !in s
    ensures forall i | 0 <= i < |Words(s)| :: c !in Words(s)[i]
    decreases |s|
  {
    if s != [] {
      assert c != s[0] && c !in s[1..];
      WordsExclude(s[1..], c);
      var rest := Words(s[1..]);
      if !IsSpace(s[0]) && s[1..] != [] && !IsSpace(s[1]) {
        var ws := [[s[0]] + rest[0]] + rest[1..];
        assert Words(s) == ws;
        forall i | 0 <= i < |ws| ensures c !in ws[i] {
          if i > 0 {
            assert ws[i] == rest[i];
          }
        }
      } else if !IsSpace(s[0]) {
        var ws := [[s[0]]] + rest;
        assert Words(s) == ws;
        forall i | 0 <= i < |ws| ensures c !in ws[i] {
          if i > 0 {
            assert ws[i] == rest[i - 1];
          }
        }
      }
    }
  }

  /** A character missing from every part and from the separator is missing from the join. */
  lemma {:induction false} JoinExclude(parts: seq<string>, sep: string, c: char)
    requires c !in sep
    requires forall i | 0 <= i < |parts| :: c !in parts[i]
    ensures c !in Join(parts, sep)
  {
    if |parts| >= 2 {
      JoinExclude(parts[1..], sep, c);
    }
  }

  /** `s.split(c)`: the pieces between occurrences of `c`, always at least one. */
  function SplitOn(s: string, c: char): (parts: seq<string>)
    ensures |parts| >= 1
  {
    if s == [] then [""]
    else
      var rest := SplitOn(s[1..], c);
      if s[0] == c then [""] + rest else [[s[0]] + rest[0]] + rest[1..]
  }

  lemma {:induction false} SplitOnPrefix(x: string, y: string, c: char)
    requires c !in x
    ensures SplitOn(x + y, c) == [x + SplitOn(y, c)[0]] + SplitOn(y, c)[1..]
  {
    if x != [] {
      assert (x + y)[1..] == x[1..] + y;
      SplitOnPrefix(x[1..], y, c);
      assert [x[0]] + (x[1..] + SplitOn(y, c)[0]) == x + SplitOn(y, c)[0];
    } else {
      assert x + y == y;
      assert SplitOn(y, c) == [SplitOn(y, c)[0]] + SplitOn(y, c)[1..];
      assert x + SplitOn(y, c)[0] == SplitOn(y, c)[0];
    }
  }

  /** Splitting a join at its one-character separator gives back the parts,
      provided no part contains the separator. */
  lemma {:induction false} SplitOnJoin(parts: seq<string>, c: char)
    requires parts != []
    requires forall i | 0 <= i < |parts| :: c !in parts[i]
    ensures SplitOn(Join(parts, [c]), c) == parts
  {
    var p := parts[0];
    if |parts| == 1 {
      SplitOnPrefix(p, "", c);
      assert p + "" == p;
    } else {
      var t := Join(parts[1..], [c]);
      SplitOnJoin(parts[1..], c);
      assert p + [c] + t == p + ([c] + t);
      SplitOnPrefix(p, [c] + t, c);
      assert ([c] + t)[1..] == t;
      assert p + "" == p;
    }
  }
}
