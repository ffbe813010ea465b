/** The JavaScript string built-ins the tools rely on, on strings as sequences of code points. */
module Strings {

  /** The characters that both the regular-expression class `\s` and `String.prototype.trim`
      treat as white space: ECMAScript's WhiteSpace and LineTerminator code points. */
  predicate IsSpace(c: char) {
    c == ' ' || ('\t' <= c <= '\r') || c == '\U{00A0}' || c == '\U{1680}'
    || ('\U{2000}' <= c <= '\U{200A}') || c == '\U{2028}' || c == '\U{2029}'
    || c == '\U{202F}' || c == '\U{205F}' || c == '\U{3000}' || c == '\U{FEFF}'
  }

  predicate AllSpace(s: string) {
    forall i :: 0 <= i < |s| ==> IsSpace(s[i])
  }

  /** Neither end of `s` is white space. */
  predicate Trimmed(s: string) {
    s == [] || (!IsSpace(s[0]) && !IsSpace(s[|s| - 1]))
  }

  /** The number of white-space characters that start `s`. */
  function LeadingSpaces(s: string): (n: nat)
    ensures n <= |s|
    ensures n < |s| ==> !IsSpace(s[n])
  {
    if s == [] || !IsSpace(s[0]) then 0 else 1 + LeadingSpaces(s[1..])
  }

  /** The number of white-space characters that end `s`. */
  function TrailingSpaces(s: string): (n: nat)
    ensures n <= |s|
    ensures n < |s| ==> !IsSpace(s[|s| - 1 - n])
  {
    if s == [] || !IsSpace(s[|s| - 1]) then 0 else 1 + TrailingSpaces(s[..|s| - 1])
  }

  lemma {:induction false} LeadingSpacesAreSpaces(s: string)
    ensures AllSpace(s[..LeadingSpaces(s)])
    decreases |s|
  {
    if s != [] && IsSpace(s[0]) {
      LeadingSpacesAreSpaces(s[1..]);
      assert s[..LeadingSpaces(s)] == [s[0]] + s[1..][..LeadingSpaces(s[1..])];
    }
  }

  lemma {:induction false} TrailingSpacesAreSpaces(s: string)
    ensures AllSpace(s[|s| - TrailingSpaces(s)..])
    decreases |s|
  {
    if s != [] && IsSpace(s[|s| - 1]) {
      var p := s[..|s| - 1];
      TrailingSpacesAreSpaces(p);
      var t := s[|s| - TrailingSpaces(s)..];
      forall i | 0 <= i < |t|
        ensures IsSpace(t[i])
      {
        if i < |t| - 1 {
          assert t[i] == p[|p| - TrailingSpaces(p)..][i];
        }
      }
    }
  }

  /** Leading white space removed. */
  function TrimStart(s: string): (r: string)
    ensures |r| <= |s|
    ensures r == [] || !IsSpace(r[0])
  {
    s[LeadingSpaces(s)..]
  }

  /** Trailing white space removed. */
  function TrimEnd(s: string): (r: string)
    ensures |r| <= |s|
    ensures r == [] || !IsSpace(r[|r| - 1])
  {
    s[..|s| - TrailingSpaces(s)]
  }

  /** `String.prototype.trim`. */
  function Trim(s: string): (r: string)
    ensures Trimmed(r) && |r| <= |s|
  {
    var t := TrimStart(s);
    var r := TrimEnd(t);
    assert r != [] ==> r[0] == t[0];
    r
  }

  /** What trimming keeps: a slice of `s`, starting after its leading white space. */
  lemma {:induction false} TrimIsSlice(s: string)
    ensures LeadingSpaces(s) + |Trim(s)| <= |s|
    ensures Trim(s) == s[LeadingSpaces(s)..LeadingSpaces(s) + |Trim(s)|]
  {
    var i := LeadingSpaces(s);
    var t := s[i..];
    var r := t[..|t| - TrailingSpaces(t)];
    assert Trim(s) == r;
    assert r == s[i..i + |r|];
  }

  /** What trimming drops: white space on both sides of the slice it keeps. */
  lemma {:induction false} TrimDropsSpaces(s: string)
    ensures LeadingSpaces(s) + |Trim(s)| <= |s|
    ensures AllSpace(s[..LeadingSpaces(s)])
    ensures AllSpace(s[LeadingSpaces(s) + |Trim(s)|..])
  {
    TrimIsSlice(s);
    LeadingSpacesAreSpaces(s);
    var i := LeadingSpaces(s);
    var t := s[i..];
    TrailingSpacesAreSpaces(t);
    assert s[i + |Trim(s)|..] == t[|t| - TrailingSpaces(t)..];
  }

  /** Trimming adds no character. */
  lemma {:induction false} TrimKeepsOut(s: string, c: char)
    requires c !in s
    ensures c !in Trim(s)
  {
    TrimIsSlice(s);
  }

  lemma {:induction false} TrimStartOfTrimmed(s: string)
    requires s == [] || !IsSpace(s[0])
    ensures TrimStart(s) == s
  {
  }

  lemma {:induction false} TrimEndOfTrimmed(s: string)
    requires s == [] || !IsSpace(s[|s| - 1])
    ensures TrimEnd(s) == s
  {
  }

  /** Trimming is idempotent: a string without edge white space is its own trim. */
  lemma {:induction false} TrimOfTrimmed(s: string)
    requires Trimmed(s)
    ensures Trim(s) == s
  {
    TrimStartOfTrimmed(s);
    TrimEndOfTrimmed(s);
  }

  /** A white-space prefix is lost to trimming. */
  lemma {:induction false} TrimSpaceCons(c: char, s: string)
    requires IsSpace(c)
    ensures Trim([c] + s) == Trim(s)
  {
    TrimStartSpaceCons(c, s);
  }

  lemma {:induction false} TrimStartSpaceCons(c: char, s: string)
    requires IsSpace(c)
    ensures TrimStart([c] + s) == TrimStart(s)
  {
    var cs := [c] + s;
    assert cs[1..] == s;
    assert LeadingSpaces(cs) == 1 + LeadingSpaces(s);
    assert cs[1 + LeadingSpaces(s)..] == s[LeadingSpaces(s)..];
  }

  /** The number of occurrences of `c` in `s`. */
  function Count(s: string, c: char): (n: nat)
    ensures n <= |s|
    ensures n == 0 <==> c !in s
  {
    if s == [] then 0
    else (if s[0] == c then 1 else 0) + Count(s[1..], c)
  }

  /** `Count` is the multiplicity of `c` in the multiset of the characters of `s`. */
  lemma {:induction false} CountIsMultiplicity(s: string, c: char)
    ensures Count(s, c) == multiset(s)[c]
  {
    if s != [] {
      CountIsMultiplicity(s[1..], c);
      assert s == [s[0]] + s[1..];
    }
  }

  /** `String.prototype.split` with a one-character separator: the pieces between the
      separators, one more than there are separators. */
  function Split(s: string, sep: char): (r: seq<string>)
    ensures |r| == Count(s, sep) + 1
    decreases |s|
  {
    if s == [] then [[]]
    else
      var rest := Split(s[1..], sep);
      if s[0] == sep then [[]] + rest
      else [[s[0]] + rest[0]] + rest[1..]
  }

  /** No piece of a split holds the separator. */
  lemma {:induction false} SplitPiecesOmitSeparator(s: string, sep: char)
    ensures forall k :: 0 <= k < |Split(s, sep)| ==> sep !in Split(s, sep)[k]
    decreases |s|
  {
    if s != [] {
      var rest := Split(s[1..], sep);
      SplitPiecesOmitSeparator(s[1..], sep);
      if s[0] == sep {
        assert Split(s, sep) == [[]] + rest;
      } else {
        assert Split(s, sep) == [[s[0]] + rest[0]] + rest[1..];
        assert sep !in [s[0]] + rest[0];
      }
    }
  }

  /** `Array.prototype.join`. */
  function Join(parts: seq<string>, sep: string): (r: string)
    ensures |parts| >= 1 ==> StartsWith(r, parts[0])
  {
    if |parts| == 0 then []
    else if |parts| == 1 then parts[0]
    else parts[0] + sep + Join(parts[1..], sep)
  }

  lemma {:induction false} JoinConsFirst(c: char, parts: seq<string>, sep: string)
    requires |parts| >= 1
    ensures Join([[c] + parts[0]] + parts[1..], sep) == [c] + Join(parts, sep)
  {
    var q := [[c] + parts[0]] + parts[1..];
    assert q[1..] == parts[1..];
  }

  lemma {:induction false} JoinConsEmpty(parts: seq<string>, sep: string)
    requires |parts| >= 1
    ensures Join([[]] + parts, sep) == sep + Join(parts, sep)
  {
    assert ([[]] + parts)[1..] == parts;
  }

  lemma {:induction false} JoinCons(part: string, parts: seq<string>, sep: string)
    requires |parts| >= 1
    ensures Join([part] + parts, sep) == part + sep + Join(parts, sep)
  {
    assert ([part] + parts)[1..] == parts;
  }

  /** Joining the pieces of a split with the separator gives back the string. */
  lemma {:induction false} JoinSplit(s: string, sep: char)
    ensures Join(Split(s, sep), [sep]) == s
    decreases |s|
  {
    if s != [] {
      var rest := Split(s[1..], sep);
      JoinSplit(s[1..], sep);
      if s[0] == sep {
        assert Split(s, sep) == [[]] + rest;
        JoinConsEmpty(rest, [sep]);
      } else {
        assert Split(s, sep) == [[s[0]] + rest[0]] + rest[1..];
        JoinConsFirst(s[0], rest, [sep]);
      }
      assert s == [s[0]] + s[1..];
    }
  }

  lemma {:induction false} SplitNoSeparator(s: string, sep: char)
    requires sep !in s
    ensures Split(s, sep) == [s]
    decreases |s|
  {
    if s != [] {
      SplitNoSeparator(s[1..], sep);
      assert s == [s[0]] + s[1..];
    }
  }

  lemma {:induction false} SplitConsOther(c: char, s: string, sep: char)
    requires c != sep
    ensures Split([c] + s, sep) == [[c] + Split(s, sep)[0]] + Split(s, sep)[1..]
  {
    assert ([c] + s)[1..] == s;
  }

  /** Splitting at a separator placed after a separator-free piece yields that piece first. */
  lemma {:induction false} SplitAfterPiece(a: string, sep: char, b: string)
    requires sep !in a
    ensures Split(a + [sep] + b, sep) == [a] + Split(b, sep)
    decreases |a|
  {
    if a == [] {
      assert ([sep] + b)[1..] == b;
    } else {
      var x, tail := a + [sep] + b, a[1..] + [sep] + b;
      var rest := Split(tail, sep);
      assert Split(x, sep) == [[a[0]] + rest[0]] + rest[1..] by {
        assert x[0] == a[0] && x[1..] == tail;
      }
      assert rest == [a[1..]] + Split(b, sep) by {
        SplitAfterPiece(a[1..], sep, b);
      }
      assert [a[0]] + a[1..] == a;
    }
  }

  /** Splitting a join of separator-free pieces gives back the pieces. */
  lemma {:induction false} SplitJoin(parts: seq<string>, sep: char)
    requires |parts| >= 1
    requires forall k :: 0 <= k < |parts| ==> sep !in parts[k]
    ensures Split(Join(parts, [sep]), sep) == parts
    decreases |parts|
  {
    if |parts| == 1 {
      SplitNoSeparator(parts[0], sep);
    } else {
      SplitJoin(parts[1..], sep);
      SplitAfterPiece(parts[0], sep, Join(parts[1..], [sep]));
      assert [parts[0]] + parts[1..] == parts;
    }
  }

  predicate StartsWith(s: string, prefix: string) {
    |prefix| <= |s| && s[..|prefix|] == prefix
  }

  /** `pat` occurs in `s` starting at index `i`. */
  predicate OccursAt(s: string, pat: string, i: int) {
    0 <= i && i + |pat| <= |s| && s[i..i + |pat|] == pat
  }

  predicate Contains(s: string, pat: string) {
    exists i | 0 <= i <= |s| :: OccursAt(s, pat, i)
  }

  /** `s.split(pat)` for a non-empty literal `pat`: matches taken left to right without overlap.
      No piece contains `pat`, and the first piece is where `s` starts. */
  function SplitOn(s: string, pat: string): (r: seq<string>)
    requires pat != []
    ensures |r| >= 1 && StartsWith(s, r[0])
    ensures forall k :: 0 <= k < |r| ==> !Contains(r[k], pat)
    decreases |s|
  {
    if s == [] then [[]]
    else if StartsWith(s, pat) then
      var rest := SplitOn(s[|pat|..], pat);
      [[]] + rest
    else
      var rest := SplitOn(s[1..], pat);
      var first := [s[0]] + rest[0];
      assert StartsWith(s, first) by {
        assert s == [s[0]] + s[1..];
      }
      assert !Contains(first, pat) by {
        forall i | OccursAt(first, pat, i)
          ensures false
        {
          if i != 0 {
            assert rest[0][i - 1..i - 1 + |pat|] == first[i..i + |pat|];
            assert OccursAt(rest[0], pat, i - 1);
          }
        }
      }
      [first] + rest[1..]
  }

  /** `s.replace(new RegExp(pat, "g"), rep)` for a pattern that matches only itself and a
      replacement without `$` patterns. */
  function ReplaceAll(s: string, pat: string, rep: string): (r: string)
    requires pat != []
    ensures |rep| == |pat| ==> |r| == |s|
    decreases |s|
  {
    if s == [] then []
    else if StartsWith(s, pat) then rep + ReplaceAll(s[|pat|..], pat, rep)
    else [s[0]] + ReplaceAll(s[1..], pat, rep)
  }

  /** Global replacement is split-then-join: every match, taken left to right, becomes `rep`,
      and the text inserted is never scanned again. For a pattern that cannot overlap itself,
      such as a `{{key}}` placeholder, `JoinSplitOn` and the contract of `SplitOn` then say
      exactly which text is replaced; for one that can (`"aa"` in `"aaa"`), they leave open
      which of the overlapping matches is taken, and only the body of `SplitOn` takes the
      leftmost. */
  lemma {:induction false} ReplaceAllIsSplitJoin(s: string, pat: string, rep: string)
    requires pat != []
    ensures ReplaceAll(s, pat, rep) == Join(SplitOn(s, pat), rep)
    decreases |s|
  {
    if s != [] {
      if StartsWith(s, pat) {
        var rest := SplitOn(s[|pat|..], pat);
        ReplaceAllIsSplitJoin(s[|pat|..], pat, rep);
        assert SplitOn(s, pat) == [[]] + rest;
        JoinConsEmpty(rest, rep);
      } else {
        var rest := SplitOn(s[1..], pat);
        ReplaceAllIsSplitJoin(s[1..], pat, rep);
        assert SplitOn(s, pat) == [[s[0]] + rest[0]] + rest[1..];
        JoinConsFirst(s[0], rest, rep);
      }
    }
  }

  /** Joining the pieces with the pattern itself rebuilds the string. */
  lemma {:induction false} JoinSplitOn(s: string, pat: string)
    requires pat != []
    ensures Join(SplitOn(s, pat), pat) == s
    decreases |s|
  {
    if s != [] {
      if StartsWith(s, pat) {
        var rest := SplitOn(s[|pat|..], pat);
        JoinSplitOn(s[|pat|..], pat);
        assert SplitOn(s, pat) == [[]] + rest;
        JoinConsEmpty(rest, pat);
        assert s == pat + s[|pat|..];
      } else {
        var rest := SplitOn(s[1..], pat);
        JoinSplitOn(s[1..], pat);
        assert SplitOn(s, pat) == [[s[0]] + rest[0]] + rest[1..];
        JoinConsFirst(s[0], rest, pat);
        assert s == [s[0]] + s[1..];
      }
    }
  }

  /** A string that does not contain the pattern is left as it is. */
  lemma {:induction false} ReplaceAllAbsent(s: string, pat: string, rep: string)
    requires pat != [] && !Contains(s, pat)
    ensures ReplaceAll(s, pat, rep) == s
    decreases |s|
  {
    if s != [] {
      assert !StartsWith(s, pat) by {
        if StartsWith(s, pat) { assert OccursAt(s, pat, 0); }
      }
      assert !Contains(s[1..], pat) by {
        forall i | OccursAt(s[1..], pat, i)
          ensures false
        {
          assert s[1..][i..i + |pat|] == s[i + 1..i + 1 + |pat|];
          assert OccursAt(s, pat, i + 1);
        }
      }
      ReplaceAllAbsent(s[1..], pat, rep);
      assert s == [s[0]] + s[1..];
    }
  }

  /** A string that is exactly the pattern becomes exactly the replacement. */
  lemma {:induction false} ReplaceAllWhole(pat: string, rep: string)
    requires pat != []
    ensures ReplaceAll(pat, pat, rep) == rep
  {
    assert pat[|pat|..] == [];
    assert rep + [] == rep;
  }

  /** Replacing every occurrence by the pattern itself changes nothing. */
  lemma {:induction false} ReplaceAllBySelf(s: string, pat: string)
    requires pat != []
    ensures ReplaceAll(s, pat, pat) == s
  {
    ReplaceAllIsSplitJoin(s, pat, pat);
    JoinSplitOn(s, pat);
  }

  /** `String.prototype.length`: the number of UTF-16 code units, two for a code point above
      U+FFFF (most emoji) and one for any other. */
  function Utf16Length(s: string): (n: nat)
    ensures |s| <= n <= 2 * |s|
  {
    if s == [] then 0
    else (if s[0] as int >= 0x1_0000 then 2 else 1) + Utf16Length(s[1..])
  }

  lemma {:induction false} Utf16LengthAppend(a: string, b: string)
    ensures Utf16Length(a + b) == Utf16Length(a) + Utf16Length(b)
    decreases |a|
  {
    if a != [] {
      assert (a + b)[1..] == a[1..] + b;
      assert (a + b)[0] == a[0];
      Utf16LengthAppend(a[1..], b);
    } else {
      assert a + b == b;
    }
  }

  /** No two neighbouring characters are both white space. */
  predicate NoDoubleSpace(s: string) {
    forall i :: 0 <= i < |s| - 1 ==> !(IsSpace(s[i]) && IsSpace(s[i + 1]))
  }

  /** Every white-space character is a plain space. */
  predicate OnlyPlainSpaces(s: string) {
    forall i :: 0 <= i < |s| && IsSpace(s[i]) ==> s[i] == ' '
  }

  /** `s.replace(/\s+/g, " ")`: every maximal run of white space becomes one space. */
  function Collapse(s: string): (r: string)
    ensures NoDoubleSpace(r) && OnlyPlainSpaces(r)
    ensures |r| <= |s|
    ensures r == [] <==> s == []
    ensures r != [] ==> (IsSpace(r[0]) <==> IsSpace(s[0]))
    decreases |s|
  {
    if s == [] then []
    else if IsSpace(s[0]) then [' '] + Collapse(TrimStart(s[1..]))
    else [s[0]] + Collapse(s[1..])
  }

  /** `s` ends with a white-space character. */
  predicate EndsInSpace(s: string) {
    s != [] && IsSpace(s[|s| - 1])
  }

  lemma {:induction false} EndsInSpaceSuffix(s: string, k: nat)
    requires k < |s|
    ensures EndsInSpace(s[k..]) == EndsInSpace(s)
  {
    assert s[k..][|s| - k - 1] == s[|s| - 1];
  }

  /** The collapse ends with a space exactly when the text ends with white space: a run at the
      end becomes one space too. */
  lemma {:induction false} CollapseLastSpace(s: string)
    ensures EndsInSpace(Collapse(s)) <==> EndsInSpace(s)
    decreases |s|
  {
    if s != [] {
      var rest := s[1..];
      if !IsSpace(s[0]) {
        assert Collapse(s) == [s[0]] + Collapse(rest);
        if rest != [] {
          CollapseLastSpace(rest);
          EndsInSpaceSuffix([s[0]] + Collapse(rest), 1);
          EndsInSpaceSuffix(s, 1);
        }
      } else {
        var t := TrimStart(rest);
        assert Collapse(s) == [' '] + Collapse(t);
        if t == [] {
          if rest != [] {
            LeadingSpacesAreSpaces(rest);
            assert rest[..LeadingSpaces(rest)] == rest;
            EndsInSpaceSuffix(s, 1);
          }
        } else {
          CollapseLastSpace(t);
          EndsInSpaceSuffix([' '] + Collapse(t), 1);
          EndsInSpaceSuffix(rest, LeadingSpaces(rest));
          EndsInSpaceSuffix(s, 1);
        }
      }
    }
  }

  /** A string that already has only single plain spaces is its own collapse. */
  lemma {:induction false} CollapseOfCollapsed(s: string)
    requires NoDoubleSpace(s) && OnlyPlainSpaces(s)
    ensures Collapse(s) == s
    decreases |s|
  {
    if s != [] {
      if IsSpace(s[0]) {
        TrimStartOfTrimmed(s[1..]);
      }
      CollapseOfCollapsed(s[1..]);
      assert s == [s[0]] + s[1..];
    }
  }

  /** The visible characters of `s`: everything but white space, in order. */
  function Visible(s: string): (r: string)
    ensures |r| <= |s|
    ensures forall k :: 0 <= k < |r| ==> !IsSpace(r[k])
  {
    if s == [] then [] else (if IsSpace(s[0]) then [] else [s[0]]) + Visible(s[1..])
  }

  lemma {:induction false} VisibleAppend(a: string, b: string)
    ensures Visible(a + b) == Visible(a) + Visible(b)
    decreases |a|
  {
    if a == [] {
      assert a + b == b;
    } else {
      assert (a + b)[1..] == a[1..] + b;
      assert (a + b)[0] == a[0];
      VisibleAppend(a[1..], b);
    }
  }

  lemma {:induction false} VisibleAllSpace(s: string)
    requires AllSpace(s)
    ensures Visible(s) == []
    decreases |s|
  {
    if s != [] {
      VisibleAllSpace(s[1..]);
    }
  }

  lemma {:induction false} VisibleTrimStart(s: string)
    ensures Visible(TrimStart(s)) == Visible(s)
  {
    var k := LeadingSpaces(s);
    assert s == s[..k] + TrimStart(s);
    VisibleAppend(s[..k], TrimStart(s));
    LeadingSpacesAreSpaces(s);
    VisibleAllSpace(s[..k]);
  }

  /** Trimming removes white space only. */
  lemma {:induction false} VisibleTrim(s: string)
    ensures Visible(Trim(s)) == Visible(s)
  {
    TrimDropsSpaces(s);
    var l, t := LeadingSpaces(s), Trim(s);
    var front, back := s[..l], s[l + |t|..];
    assert s == front + t + back by {
      TrimIsSlice(s);
    }
    VisibleAllSpace(front);
    VisibleAllSpace(back);
    VisibleAppend(front + t, back);
    VisibleAppend(front, t);
  }

  /** Collapsing changes white space only: every visible character is kept, in order. */
  lemma {:induction false} VisibleCollapse(s: string)
    ensures Visible(Collapse(s)) == Visible(s)
    decreases |s|
  {
    if s != [] {
      if IsSpace(s[0]) {
        var t := TrimStart(s[1..]);
        VisibleCollapse(t);
        VisibleTrimStart(s[1..]);
        VisibleAppend([' '], Collapse(t));
      } else {
        VisibleCollapse(s[1..]);
        VisibleAppend([s[0]], Collapse(s[1..]));
      }
    }
  }

  /** A slice keeps single plain spacing. */
  lemma {:induction false} SliceKeepsSpacing(s: string, i: int, j: int)
    requires 0 <= i <= j <= |s|
    requires NoDoubleSpace(s) && OnlyPlainSpaces(s)
    ensures NoDoubleSpace(s[i..j]) && OnlyPlainSpaces(s[i..j])
  {
    var t := s[i..j];
    forall k | 0 <= k < |t| - 1
      ensures !(IsSpace(t[k]) && IsSpace(t[k + 1]))
    {
      assert t[k] == s[i + k] && t[k + 1] == s[i + k + 1];
    }
    forall k | 0 <= k < |t| && IsSpace(t[k])
      ensures t[k] == ' '
    {
      assert t[k] == s[i + k];
    }
  }

  /** A word: a non-empty run of visible characters. */
  predicate IsWord(w: string) {
    w != [] && forall i :: 0 <= i < |w| ==> !IsSpace(w[i])
  }

  /** The words of `s`: its maximal runs of visible characters, in order. A visible
      character followed by another visible one belongs to the same word. */
  function Words(s: string): (r: seq<string>)
    ensures s != [] && !IsSpace(s[0]) ==> r != []
    decreases |s|
  {
    if s == [] then []
    else
      var rest := Words(s[1..]);
      if IsSpace(s[0]) then rest
      else if |s| > 1 && !IsSpace(s[1]) then [[s[0]] + rest[0]] + rest[1..]
      else [[s[0]]] + rest
  }

  /** Every word is non-empty and holds no white space. */
  lemma {:induction false} WordsAreWords(s: string)
    ensures forall k :: 0 <= k < |Words(s)| ==> IsWord(Words(s)[k])
    decreases |s|
  {
    if s != [] {
      var rest := Words(s[1..]);
      WordsAreWords(s[1..]);
      if !IsSpace(s[0]) && |s| > 1 && !IsSpace(s[1]) {
        var w := [s[0]] + rest[0];
        assert IsWord(w) by {
          assert IsWord(rest[0]);
          assert forall i :: 1 <= i < |w| ==> w[i] == rest[0][i - 1];
        }
        assert Words(s) == [w] + rest[1..];
      }
    }
  }

  /** All-white-space text has no word. */
  lemma {:induction false} WordsAllSpace(s: string)
    requires AllSpace(s)
    ensures Words(s) == []
    decreases |s|
  {
    if s != [] {
      WordsAllSpace(s[1..]);
    }
  }

  /** A white-space character in front changes no word. */
  lemma {:induction false} WordsSpaceCons(c: char, s: string)
    requires IsSpace(c)
    ensures Words([c] + s) == Words(s)
  {
    assert ([c] + s)[1..] == s;
  }

  /** A visible character in front starts a new word, or joins the first word when that
      starts right after it. */
  lemma {:induction false} WordsVisibleCons(c: char, s: string)
    requires !IsSpace(c)
    ensures s == [] || IsSpace(s[0]) ==> Words([c] + s) == [[c]] + Words(s)
    ensures s != [] && !IsSpace(s[0]) ==>
              Words(s) != [] && Words([c] + s) == [[c] + Words(s)[0]] + Words(s)[1..]
  {
    var cs := [c] + s;
    assert cs[0] == c && cs[1..] == s;
    if s != [] {
      assert cs[1] == s[0];
    }
  }

  /** Where the second part starts with white space, no word spans the boundary. */
  lemma {:induction false} WordsAppend(a: string, b: string)
    requires b == [] || IsSpace(b[0])
    ensures Words(a + b) == Words(a) + Words(b)
    decreases |a|
  {
    if a == [] {
      assert a + b == b;
    } else {
      WordsAppend(a[1..], b);
      WordsAppendCons(a[0], a[1..], b);
      assert [a[0]] + a[1..] == a;
    }
  }

  /** The step of `WordsAppend`: one more character in front of the first part. */
  lemma {:induction false} WordsAppendCons(c: char, a: string, b: string)
    requires b == [] || IsSpace(b[0])
    requires Words(a + b) == Words(a) + Words(b)
    ensures Words([c] + a + b) == Words([c] + a) + Words(b)
  {
    assert [c] + a + b == [c] + (a + b);
    if IsSpace(c) {
      WordsSpaceCons(c, a);
      WordsSpaceCons(c, a + b);
    } else if a == [] {
      assert a + b == b;
      WordsVisibleCons(c, a);
      WordsVisibleCons(c, b);
    } else {
      WordsAppendVisibleCons(c, a, b);
    }
  }

  lemma {:induction false} WordsAppendVisibleCons(c: char, a: string, b: string)
    requires Words(a + b) == Words(a) + Words(b)
    requires !IsSpace(c) && a != []
    ensures Words([c] + (a + b)) == Words([c] + a) + Words(b)
  {
    var wa, wb := Words(a), Words(b);
    assert (a + b)[0] == a[0];
    WordsVisibleCons(c, a);
    WordsVisibleCons(c, a + b);
    if IsSpace(a[0]) {
      AppendAssoc([[c]], wa, wb);
    } else {
      AppendDropFirst(wa, wb);
      AppendAssoc([[c] + wa[0]], wa[1..], wb);
    }
  }

  lemma AppendAssoc<T>(x: seq<T>, y: seq<T>, z: seq<T>)
    ensures x + (y + z) == x + y + z
  {
  }

  lemma AppendDropFirst<T>(x: seq<T>, y: seq<T>)
    requires |x| >= 1
    ensures (x + y)[0] == x[0] && (x + y)[1..] == x[1..] + y
  {
  }

  /** Leading white space changes no word. */
  lemma {:induction false} WordsTrimStart(s: string)
    ensures Words(TrimStart(s)) == Words(s)
    decreases |s|
  {
    if s != [] && IsSpace(s[0]) {
      assert s == [s[0]] + s[1..];
      TrimStartSpaceCons(s[0], s[1..]);
      WordsTrimStart(s[1..]);
    } else {
      TrimStartOfTrimmed(s);
    }
  }

  /** Trailing white space changes no word. */
  lemma {:induction false} WordsTrimEnd(s: string)
    ensures Words(TrimEnd(s)) == Words(s)
  {
    var e, tail := TrimEnd(s), s[|s| - TrailingSpaces(s)..];
    assert s == e + tail;
    TrailingSpacesAreSpaces(s);
    WordsAllSpace(tail);
    WordsAppend(e, tail);
  }

  /** `trim` changes no word. */
  lemma {:induction false} WordsTrim(s: string)
    ensures Words(Trim(s)) == Words(s)
  {
    WordsTrimStart(s);
    WordsTrimEnd(TrimStart(s));
  }

  /** Collapsing white space changes no word: every word is kept, and no two words run
      together. */
  lemma {:induction false} WordsCollapse(s: string)
    ensures Words(Collapse(s)) == Words(s)
    decreases |s|
  {
    if s != [] {
      var s' := s[1..];
      if IsSpace(s[0]) {
        var u := TrimStart(s');
        WordsCollapse(u);
        WordsSpaceCons(' ', Collapse(u));
        WordsTrimStart(s');
      } else {
        var x := Collapse(s');
        WordsCollapse(s');
        var cx := [s[0]] + x;
        assert cx[1..] == x;
        assert Collapse(s) == cx;
        if x != [] {
          assert cx[1] == x[0];
        }
      }
    }
  }

  /** A suffix of spaced text that starts with a visible character is spaced text. */
  lemma {:induction false} SpacedSuffix(t: string, i: int)
    requires Trimmed(t) && NoDoubleSpace(t) && OnlyPlainSpaces(t)
    requires 0 <= i < |t| && !IsSpace(t[i])
    ensures Trimmed(t[i..]) && NoDoubleSpace(t[i..]) && OnlyPlainSpaces(t[i..])
  {
    SliceKeepsSpacing(t, i, |t|);
    assert t[i..][|t| - i - 1] == t[|t| - 1];
  }

  /** Text with single plain spacing and no white space at either end is its words joined
      by single spaces. */
  lemma {:induction false} SpacedTextIsJoinedWords(t: string)
    requires Trimmed(t) && NoDoubleSpace(t) && OnlyPlainSpaces(t)
    ensures t == Join(Words(t), " ")
    decreases |t|
  {
    if t != [] {
      var c, t' := t[0], t[1..];
      if t' == [] {
        assert t == [c];
        assert Words(t) == [[c]];
      } else if !IsSpace(t'[0]) {
        SpacedSuffix(t, 1);
        SpacedTextIsJoinedWords(t');
        JoinedWordsVisibleCons(c, t');
        assert t == [c] + t';
      } else {
        assert 2 < |t| && t[1] == ' ' && !IsSpace(t[2]) by {
          assert !(IsSpace(t[1]) && IsSpace(t[2]));
        }
        var t'' := t[2..];
        SpacedSuffix(t, 2);
        SpacedTextIsJoinedWords(t'');
        JoinedWordsSpaceCons(c, t'');
        assert t == [c] + [' '] + t'';
      }
    }
  }

  /** A visible character put before joined words joins their first word. */
  lemma {:induction false} JoinedWordsVisibleCons(c: char, t: string)
    requires !IsSpace(c) && t != [] && !IsSpace(t[0])
    requires t == Join(Words(t), " ")
    ensures [c] + t == Join(Words([c] + t), " ")
  {
    WordsVisibleCons(c, t);
    JoinConsFirst(c, Words(t), " ");
  }

  /** A visible character and a space put before joined words make a word of their own. */
  lemma {:induction false} JoinedWordsSpaceCons(c: char, t: string)
    requires !IsSpace(c) && t != [] && !IsSpace(t[0])
    requires t == Join(Words(t), " ")
    ensures [c] + [' '] + t == Join(Words([c] + [' '] + t), " ")
  {
    var ws := Words(t);
    WordsSpaceCons(' ', t);
    assert [c] + [' '] + t == [c] + ([' '] + t);
    WordsVisibleCons(c, [' '] + t);
    JoinCons([c], ws, " ");
  }
}
