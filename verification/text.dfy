/**
 * The string operations the backend relies on, as Python defines them for
 * ASCII text: `str.lower`, `str.strip`, `str.split(sep)`, the code-point
 * order used by `<` and `sorted`, and a stable sort over it.
 */
module Text {

  // ---------------------------------------------------------------------
  // Letter case
  // ---------------------------------------------------------------------

  predicate IsUpper(c: char) {
    'A' <= c <= 'Z'
  }

  /** ASCII `lower` of one character. */
  function Lower(c: char): char {
    if IsUpper(c) then (c as int + 32) as char else c
  }

  /** `s.lower()` on ASCII text. */
  function LowerStr(s: string): (r: string)
    ensures |r| == |s|
    ensures forall i :: 0 <= i < |s| ==> !IsUpper(r[i])
  {
    seq(|s|, i requires 0 <= i < |s| => Lower(s[i]))
  }

  /** Two characters are the same letter up to case. */
  predicate SameLetter(c: char, d: char) {
    c == d
    || (IsUpper(c) && d as int == c as int + 32)
    || (IsUpper(d) && c as int == d as int + 32)
  }

  /** Case-insensitive equality, stated character by character. */
  predicate EqualsIgnoreCase(a: string, b: string) {
    |a| == |b| && forall i :: 0 <= i < |a| ==> SameLetter(a[i], b[i])
  }

  lemma SameLetterIffSameLower(c: char, d: char)
    ensures SameLetter(c, d) <==> Lower(c) == Lower(d)
  {
  }

  /** Lower-casing twice is lower-casing once; a lower-case string is its own lower form. */
  lemma LowerStrIdempotent(s: string)
    ensures LowerStr(LowerStr(s)) == LowerStr(s)
    ensures (forall i :: 0 <= i < |s| ==> !IsUpper(s[i])) ==> LowerStr(s) == s
  {
    var l := LowerStr(s);
    assert forall i :: 0 <= i < |l| ==> LowerStr(l)[i] == l[i];
  }

  /** `a.lower() == b.lower()` holds exactly when `a` and `b` agree up to case. */
  lemma {:induction false} LowerStrEqIff(a: string, b: string)
    ensures LowerStr(a) == LowerStr(b) <==> EqualsIgnoreCase(a, b)
  {
    if LowerStr(a) == LowerStr(b) {
      forall i | 0 <= i < |a|
        ensures SameLetter(a[i], b[i])
      {
        assert LowerStr(a)[i] == LowerStr(b)[i];
        SameLetterIffSameLower(a[i], b[i]);
      }
    }
    if EqualsIgnoreCase(a, b) {
      forall i | 0 <= i < |a|
        ensures LowerStr(a)[i] == LowerStr(b)[i]
      {
        SameLetterIffSameLower(a[i], b[i]);
      }
    }
  }

  /** The lower form of a string is the lower-case string it equals up to case. */
  lemma LowerToCaseVariant(a: string, b: string)
    requires EqualsIgnoreCase(a, b)
    requires forall i :: 0 <= i < |b| ==> !IsUpper(b[i])
    ensures LowerStr(a) == b
  {
    LowerStrEqIff(a, b);
    LowerStrIdempotent(b);
  }

  // ---------------------------------------------------------------------
  // Whitespace stripping
  // ---------------------------------------------------------------------

  /**
   * Python's ASCII whitespace: tab, newline, vertical tab, form feed,
   * carriage return, the separators 0x1C-0x1F, and space.
   */
  predicate IsSpace(c: char) {
    c == ' ' || 9 <= c as int <= 13 || 28 <= c as int <= 31
  }

  predicate AllSpace(s: string) {
    forall i :: 0 <= i < |s| ==> IsSpace(s[i])
  }

  function TrimStart(s: string): (r: string)
    ensures |r| <= |s|
    ensures r == [] || !IsSpace(r[0])
  {
    if |s| > 0 && IsSpace(s[0]) then TrimStart(s[1..]) else s
  }

  function TrimEnd(s: string): (r: string)
    ensures |r| <= |s|
    ensures r == [] || !IsSpace(r[|r| - 1])
  {
    if |s| > 0 && IsSpace(s[|s| - 1]) then TrimEnd(s[..|s| - 1]) else s
  }

  /** `TrimStart` drops an all-space prefix and keeps the rest. */
  lemma {:induction false} TrimStartDropsSpace(s: string)
    ensures TrimStart(s) == s[|s| - |TrimStart(s)|..]
    ensures AllSpace(s[..|s| - |TrimStart(s)|])
  {
    if |s| > 0 && IsSpace(s[0]) {
      TrimStartDropsSpace(s[1..]);
      var r := TrimStart(s[1..]);
      assert s[1..][|s| - 1 - |r|..] == s[|s| - |r|..];
      assert forall i :: 1 <= i < |s| - |r| ==> s[1..][..|s| - 1 - |r|][i - 1] == s[i];
    }
  }

  /** `TrimEnd` drops an all-space suffix and keeps the rest. */
  lemma {:induction false} TrimEndDropsSpace(s: string)
    ensures TrimEnd(s) == s[..|TrimEnd(s)|]
    ensures AllSpace(s[|TrimEnd(s)|..])
  {
    if |s| > 0 && IsSpace(s[|s| - 1]) {
      TrimEndDropsSpace(s[..|s| - 1]);
      var r := TrimEnd(s[..|s| - 1]);
      assert s[..|s| - 1][..|r|] == s[..|r|];
      assert forall i :: |r| <= i < |s| - 1 ==> s[..|s| - 1][|r|..][i - |r|] == s[i];
    }
  }

  /**
   * `s.strip()`: what is left after removing the leading and the trailing
   * whitespace; it starts and ends with a non-space character.
   */
  function Strip(s: string): (r: string)
    ensures |r| <= |s|
    ensures r == [] || (!IsSpace(r[0]) && !IsSpace(r[|r| - 1]))
  {
    var t := TrimStart(s);
    TrimEndDropsSpace(t);
    TrimEnd(t)
  }

  /**
   * What `Strip` removes is whitespace only: its result is the infix of `s`
   * between an all-space prefix and an all-space suffix, and it is empty
   * exactly when `s` is all whitespace.
   */
  lemma StripIsTrimmedInfix(s: string)
    ensures exists a :: 0 <= a && a + |Strip(s)| <= |s| && Strip(s) == s[a..a + |Strip(s)|]
                     && AllSpace(s[..a]) && AllSpace(s[a + |Strip(s)|..])
    ensures Strip(s) == [] <==> AllSpace(s)
  {
    var t := TrimStart(s);
    var r := TrimEnd(t);
    TrimStartDropsSpace(s);
    TrimEndDropsSpace(t);
    StripWitness(s, t, r);
    var a := |s| - |t|;
    assert r == s[a..a + |r|] && AllSpace(s[..a]) && AllSpace(s[a + |r|..]);
  }

  lemma AllSpaceConcat(x: string, y: string)
    requires AllSpace(x) && AllSpace(y)
    ensures AllSpace(x + y)
  {
  }

  lemma StripWitness(s: string, t: string, r: string)
    requires |t| <= |s| && t == s[|s| - |t|..] && AllSpace(s[..|s| - |t|])
    requires |r| <= |t| && r == t[..|r|] && AllSpace(t[|r|..])
    requires r == [] || !IsSpace(r[0])
    ensures |s| - |t| + |r| <= |s|
    ensures r == s[|s| - |t|..|s| - |t| + |r|]
    ensures AllSpace(s[..|s| - |t|]) && AllSpace(s[|s| - |t| + |r|..])
    ensures r == [] <==> AllSpace(s)
  {
    var a := |s| - |t|;
    assert s[a..a + |r|] == r;
    assert s[a + |r|..] == t[|r|..];
    if r == [] {
      assert s == s[..a] + t;
      AllSpaceConcat(s[..a], t);
    } else {
      assert s[a] == r[0];
      assert !AllSpace(s);
    }
  }

  // ---------------------------------------------------------------------
  // Splitting on a separator
  // ---------------------------------------------------------------------

  /**
   * `s.split(sep)` for a one-character separator: the segments between
   * separators, always at least one (`"".split(",") == [""]`), none of them
   * holding the separator.
   */
  function Split(s: string, sep: char): (parts: seq<string>)
    ensures |parts| >= 1
    ensures forall i :: 0 <= i < |parts| ==> sep !in parts[i]
  {
    if |s| == 0 then [[]]
    else
      var rest := Split(s[1..], sep);
      if s[0] == sep then [[]] + rest
      else [[s[0]] + rest[0]] + rest[1..]
  }

  /** `sep.join(parts)`, the inverse of `Split`. */
  function Join(parts: seq<string>, sep: char): string {
    if |parts| == 0 then []
    else if |parts| == 1 then parts[0]
    else parts[0] + [sep] + Join(parts[1..], sep)
  }

  /** Joining the segments back with the separator restores the string. */
  lemma {:induction false} JoinSplit(s: string, sep: char)
    ensures Join(Split(s, sep), sep) == s
  {
    if |s| > 0 {
      var rest := Split(s[1..], sep);
      JoinSplit(s[1..], sep);
      if s[0] == sep {
        assert Split(s, sep) == [[]] + rest;
      } else if |rest| == 1 {
        assert Split(s, sep) == [[s[0]] + rest[0]];
      } else {
        assert Split(s, sep)[1..] == rest[1..];
        assert s == [s[0]] + s[1..];
      }
    }
  }

  /** A separator-free prefix is glued onto the first segment of what follows. */
  lemma {:induction false} SplitPrefix(w: string, t: string, sep: char)
    requires sep !in w
    ensures Split(w + t, sep) == [w + Split(t, sep)[0]] + Split(t, sep)[1..]
  {
    if |w| > 0 {
      var tail := Split(t, sep);
      SplitPrefix(w[1..], t, sep);
      assert (w + t)[0] == w[0] && w[0] != sep;
      assert (w + t)[1..] == w[1..] + t;
      var rest := Split(w[1..] + t, sep);
      assert rest == [w[1..] + tail[0]] + tail[1..];
      assert Split(w + t, sep) == [[w[0]] + rest[0]] + rest[1..];
      assert [w[0]] + (w[1..] + tail[0]) == w + tail[0];
    } else {
      var tail := Split(t, sep);
      assert w + t == t;
      assert w + tail[0] == tail[0];
      assert [tail[0]] + tail[1..] == tail;
    }
  }

  /** Splitting a join of separator-free segments gives the segments back. */
  lemma {:induction false} SplitJoin(parts: seq<string>, sep: char)
    requires |parts| >= 1
    requires forall i :: 0 <= i < |parts| ==> sep !in parts[i]
    ensures Split(Join(parts, sep), sep) == parts
  {
    if |parts| == 1 {
      SplitPrefix(parts[0], [], sep);
      assert parts[0] + [] == parts[0];
    } else {
      var tail := Join(parts[1..], sep);
      SplitJoin(parts[1..], sep);
      assert Split([sep] + tail, sep) == [[]] + parts[1..];
      SplitPrefix(parts[0], [sep] + tail, sep);
      assert parts[0] + [sep] + tail == parts[0] + ([sep] + tail);
      assert parts[0] + [] == parts[0];
      assert parts == [parts[0]] + parts[1..];
    }
  }

  // ---------------------------------------------------------------------
  // Code-point order and sorting
  // ---------------------------------------------------------------------

  /** Python's `a < b` on strings: lexicographic by code point, a proper prefix first. */
  predicate StrLess(a: string, b: string) {
    if |a| == 0 then |b| > 0
    else if |b| == 0 then false
    else if a[0] != b[0] then a[0] < b[0]
    else StrLess(a[1..], b[1..])
  }

  lemma {:induction false} StrLessIrreflexive(a: string)
    ensures !StrLess(a, a)
  {
    if |a| > 0 {
      StrLessIrreflexive(a[1..]);
    }
  }

  lemma {:induction false} StrLessTransitive(a: string, b: string, c: string)
    requires StrLess(a, b) && StrLess(b, c)
    ensures StrLess(a, c)
  {
    if |a| > 0 && |b| > 0 && |c| > 0 && a[0] == b[0] && b[0] == c[0] {
      StrLessTransitive(a[1..], b[1..], c[1..]);
    }
  }

  /** Any two strings are ordered one way or the other, or are equal. */
  lemma {:induction false} StrLessTotal(a: string, b: string)
    ensures StrLess(a, b) || a == b || StrLess(b, a)
  {
    if |a| > 0 && |b| > 0 && a[0] == b[0] {
      StrLessTotal(a[1..], b[1..]);
      if a[1..] == b[1..] {
        assert a == [a[0]] + a[1..] && b == [b[0]] + b[1..];
      }
    }
  }

  lemma StrLessAsymmetric(a: string, b: string)
    requires StrLess(a, b)
    ensures !StrLess(b, a)
  {
    if StrLess(b, a) {
      StrLessTransitive(a, b, a);
      StrLessIrreflexive(a);
    }
  }

  /** Every later element is not below an earlier one (the result of `sorted`). */
  predicate Ascending(s: seq<string>) {
    forall i, j :: 0 <= i < j < |s| ==> !StrLess(s[j], s[i])
  }

  /** Every later element is strictly above an earlier one: ascending and duplicate-free. */
  predicate StrictlyAscending(s: seq<string>) {
    forall i, j :: 0 <= i < j < |s| ==> StrLess(s[i], s[j])
  }

  /** Strict order between neighbours extends to every pair. */
  lemma {:induction false} NeighboursStrictlyAscending(s: seq<string>)
    requires forall i :: 0 <= i < |s| - 1 ==> StrLess(s[i], s[i + 1])
    ensures StrictlyAscending(s)
  {
    if |s| > 1 {
      NeighboursStrictlyAscending(s[1..]);
      forall j | 1 < j < |s|
        ensures StrLess(s[0], s[j])
      {
        assert s[1..][0] == s[1] && s[1..][j - 1] == s[j];
        StrLessTransitive(s[0], s[1], s[j]);
      }
    }
  }

  lemma StrictlyAscendingIsAscending(s: seq<string>)
    requires StrictlyAscending(s)
    ensures Ascending(s)
    ensures forall i, j :: 0 <= i < j < |s| ==> s[i] != s[j]
  {
    forall i, j | 0 <= i < j < |s|
      ensures !StrLess(s[j], s[i]) && s[i] != s[j]
    {
      StrLessAsymmetric(s[i], s[j]);
      StrLessIrreflexive(s[i]);
    }
  }

  /** Places `x` before the first element that is not below it, which keeps equal elements stable. */
  function Insert(x: string, s: seq<string>): (r: seq<string>)
    ensures multiset(r) == multiset(s) + multiset{x}
    ensures |r| == |s| + 1
  {
    if |s| == 0 || !StrLess(s[0], x) then [x] + s
    else
      assert s == [s[0]] + s[1..];
      [s[0]] + Insert(x, s[1..])
  }

  lemma {:induction false} InsertAscending(x: string, s: seq<string>)
    requires Ascending(s)
    ensures Ascending(Insert(x, s))
  {
    if |s| == 0 || !StrLess(s[0], x) {
      var r := [x] + s;
      forall j | 0 < j < |r|
        ensures !StrLess(r[j], x)
      {
        // s[0] <= s[j - 1] and x <= s[0] give x <= s[j - 1]
        if StrLess(s[j - 1], x) {
          StrLessTotal(s[0], s[j - 1]);
          if StrLess(s[0], s[j - 1]) {
            StrLessTransitive(s[0], s[j - 1], x);
          }
        }
      }
    } else {
      InsertAscending(x, s[1..]);
      var r := [s[0]] + Insert(x, s[1..]);
      assert r == Insert(x, s);
      forall j | 0 < j < |r|
        ensures !StrLess(r[j], s[0])
      {
        assert r[j] in multiset(Insert(x, s[1..]));
        assert r[j] in multiset(s[1..]) || r[j] == x;
        if r[j] == x {
          StrLessAsymmetric(s[0], x);
        } else {
          var k :| 0 <= k < |s[1..]| && s[1..][k] == r[j];
          assert s[k + 1] == r[j];
        }
      }
    }
  }

  /** `sorted(s)`: a stable insertion sort with respect to `StrLess`. */
  function Sort(s: seq<string>): (r: seq<string>)
    ensures multiset(r) == multiset(s)
    ensures |r| == |s|
  {
    if |s| == 0 then []
    else
      assert s == [s[0]] + s[1..];
      Insert(s[0], Sort(s[1..]))
  }

  /** The result of `Sort` is ascending. */
  lemma {:induction false} SortAscending(s: seq<string>)
    ensures Ascending(Sort(s))
  {
    if |s| > 0 {
      SortAscending(s[1..]);
      InsertAscending(s[0], Sort(s[1..]));
    }
  }

  /** Sorting an ascending sequence leaves it as it is. */
  lemma {:induction false} SortOfAscending(s: seq<string>)
    requires Ascending(s)
    ensures Sort(s) == s
  {
    if |s| > 0 {
      SortOfAscending(s[1..]);
      assert s == [s[0]] + s[1..];
    }
  }

  /**
   * `sorted(iterable)`: copies the items into a new list and sorts that.
   * That the result is an ascending permutation is `SortedAscending`.
   */
  function Sorted(s: seq<string>): (r: seq<string>)
    ensures |r| == |s|
  {
    var copy := seq(|s|, i requires 0 <= i < |s| => s[i]);
    assert copy == s;
    Sort(copy)
  }

  /** `sorted` returns an ascending permutation of its argument. */
  lemma SortedAscending(s: seq<string>)
    ensures multiset(Sorted(s)) == multiset(s)
    ensures Ascending(Sorted(s))
  {
    var copy := seq(|s|, i requires 0 <= i < |s| => s[i]);
    assert copy == s;
    SortAscending(copy);
  }

  /** `sorted` of an ascending list is that list. */
  lemma SortedOfAscending(s: seq<string>)
    requires Ascending(s)
    ensures Sorted(s) == s
  {
    var copy := seq(|s|, i requires 0 <= i < |s| => s[i]);
    assert copy == s;
    SortOfAscending(copy);
  }
}
