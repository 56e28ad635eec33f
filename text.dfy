/**
 * String primitives shared by the parsers: Python's notion of whitespace, case mapping,
 * `strip`, `split`, `join`, `replace`, the whitespace-run substitution `re.sub(r'\s+', ' ', s)`
 * and the leftmost-position search that `re.search` performs.
 */
module Text {
  import opened Wrappers

  // ---------------------------------------------------------------------------------------------
  // Character classes

  /** Python's `str.isspace`, which `str.strip()`, `str.split()` and the regex class `\s` all use. */
  predicate IsSpace(c: char) {
    || ('\t' <= c <= '\r')
    || ('\U{1C}' <= c <= '\U{1F}')
    || c == ' '
    || c == '\U{85}'
    || c == '\U{A0}'
    || c == '\U{1680}'
    || ('\U{2000}' <= c <= '\U{200A}')
    || c == '\U{2028}'
    || c == '\U{2029}'
    || c == '\U{202F}'
    || c == '\U{205F}'
    || c == '\U{3000}'
  }

  /** The regex class `\d`, restricted to ASCII digits. */
  predicate IsDigit(c: char) {
    '0' <= c <= '9'
  }

  /** The regex class `\w`, restricted to ASCII letters and digits, `_` and the Cyrillic letters. */
  predicate IsWordChar(c: char) {
    || ('a' <= c <= 'z')
    || ('A' <= c <= 'Z')
    || IsDigit(c)
    || c == '_'
    || ('\U{400}' <= c <= '\U{481}')
    || ('\U{48A}' <= c <= '\U{4FF}')
  }

  /** No character of `s` is whitespace. */
  predicate NoSpace(s: string) {
    s == [] || (!IsSpace(s[0]) && NoSpace(s[1..]))
  }

  /** `NoSpace`, stated position by position. */
  lemma {:induction false} NoSpaceMeans(s: string)
    ensures NoSpace(s) <==> forall k | 0 <= k < |s| :: !IsSpace(s[k])
  {
    if s != [] {
      NoSpaceMeans(s[1..]);
      assert forall k | 1 <= k < |s| :: s[k] == s[1..][k - 1];
    }
  }

  // ---------------------------------------------------------------------------------------------
  // Case mapping (`str.lower`, `str.upper`) for the Latin and Cyrillic alphabets

  function LowerChar(c: char): char {
    if 'A' <= c <= 'Z' || '\U{410}' <= c <= '\U{42F}' then (c as int + 32) as char
    else if '\U{400}' <= c <= '\U{40F}' then (c as int + 80) as char
    else c
  }

  function UpperChar(c: char): char {
    if 'a' <= c <= 'z' || '\U{430}' <= c <= '\U{44F}' then (c as int - 32) as char
    else if '\U{450}' <= c <= '\U{45F}' then (c as int - 80) as char
    else c
  }

  function Lower(s: string): (r: string)
    ensures |r| == |s|
  {
    seq(|s|, k requires 0 <= k < |s| => LowerChar(s[k]))
  }

  function Upper(s: string): (r: string)
    ensures |r| == |s|
  {
    seq(|s|, k requires 0 <= k < |s| => UpperChar(s[k]))
  }

  /** Lower-casing works character by character, so it commutes with slicing. */
  lemma LowerSlice(s: string, i: nat, j: nat)
    requires i <= j <= |s|
    ensures Lower(s)[i..j] == Lower(s[i..j])
  {
  }

  // ---------------------------------------------------------------------------------------------
  // Substrings (`w in s`)

  predicate OccursAt(s: string, w: string, i: nat) {
    i + |w| <= |s| && s[i..i + |w|] == w
  }

  predicate Contains(s: string, w: string) {
    exists i: nat | i <= |s| :: OccursAt(s, w, i)
  }

  lemma SliceOfSlice(s: string, a: nat, b: nat, i: nat, j: nat)
    requires a <= b <= |s| && i <= j <= b - a
    ensures s[a..b][i..j] == s[a + i..a + j]
  {
    assert forall k | 0 <= k < j - i :: s[a..b][i..j][k] == s[a + i + k];
  }

  /** A character that `s` does not hold does not occur in `s` as a one-character word. */
  lemma AbsentChar(s: string, c: char)
    requires forall k | 0 <= k < |s| :: s[k] != c
    ensures !Contains(s, [c])
  {
    forall i: nat | i <= |s| ensures !OccursAt(s, [c], i) {
      if i < |s| {
        assert s[i..i + 1] == [s[i]];
      }
    }
  }

  /** A substring of a suffix is a substring of the whole. */
  lemma OccursInSuffix(s: string, d: nat, w: string, i: nat)
    requires d <= |s| && OccursAt(s[d..], w, i)
    ensures OccursAt(s, w, d + i)
  {
    assert s[d..][i..i + |w|] == s[d + i..d + i + |w|];
  }

  // ---------------------------------------------------------------------------------------------
  // Leftmost search (`re.search` tries start positions from left to right)

  /** The least position in `from..bound` that satisfies `p`, if there is one. */
  function FirstWhere(p: nat -> bool, from: nat, bound: nat): (r: Option<nat>)
    decreases bound - from
    ensures r.Some? ==> from <= r.value <= bound && p(r.value)
    ensures r.Some? ==> forall j | from <= j < r.value :: !p(j)
    ensures r.None? ==> forall j | from <= j <= bound :: !p(j)
  {
    if from > bound then None
    else if p(from) then Some(from)
    else FirstWhere(p, from + 1, bound)
  }

  /** The end of the longest run of ASCII digits that starts at `i` (a greedy `\d*`). */
  function DigitRunEnd(s: string, i: nat): (j: nat)
    requires i <= |s|
    decreases |s| - i
    ensures i <= j <= |s|
    ensures forall k | i <= k < j :: IsDigit(s[k])
    ensures j == |s| || !IsDigit(s[j])
  {
    if i < |s| && IsDigit(s[i]) then DigitRunEnd(s, i + 1) else i
  }

  predicate AllDigits(s: string) {
    forall k | 0 <= k < |s| :: IsDigit(s[k])
  }

  /** `DigitRunEnd(s, i)` is the first non-digit position at or after `i`. */
  lemma DigitRunEndUnique(s: string, i: nat, j: nat)
    requires i <= j <= |s| && AllDigits(s[i..j]) && (j == |s| || !IsDigit(s[j]))
    ensures DigitRunEnd(s, i) == j
  {
    assert forall k | i <= k < j :: s[k] == s[i..j][k - i];
  }

  /** A slice of digits. */
  lemma DigitsSlice(s: string, i: nat, j: nat)
    requires i <= j <= |s| && forall k | i <= k < j :: IsDigit(s[k])
    ensures AllDigits(s[i..j])
  {
  }

  // ---------------------------------------------------------------------------------------------
  // `str.strip()`

  /** The first position at or after `i` that does not hold whitespace (`|s|` when there is none). */
  function SkipSpaces(s: string, i: nat): (j: nat)
    requires i <= |s|
    decreases |s| - i
    ensures i <= j <= |s|
    ensures j == |s| || !IsSpace(s[j])
  {
    if i < |s| && IsSpace(s[i]) then SkipSpaces(s, i + 1) else i
  }

  /** The end of `s[i..j]` once its trailing whitespace is dropped. */
  function TrimEnd(s: string, i: nat, j: nat): (e: nat)
    requires i <= j <= |s|
    decreases j
    ensures i <= e <= j
    ensures e == i || !IsSpace(s[e - 1])
  {
    if j > i && IsSpace(s[j - 1]) then TrimEnd(s, i, j - 1) else j
  }

  /** Offset in `s` at which `LStrip(s)` and `Strip(s)` start. */
  function StripOffset(s: string): nat
  {
    SkipSpaces(s, 0)
  }

  /** Offset in `s` at which `Strip(s)` ends. */
  function StripEnd(s: string): nat
  {
    TrimEnd(s, SkipSpaces(s, 0), |s|)
  }

  /** `s.lstrip()`. */
  function LStrip(s: string): (r: string)
    ensures |r| <= |s|
    ensures r == [] || !IsSpace(r[0])
    ensures s != [] && IsSpace(s[0]) ==> |r| < |s|
  {
    s[SkipSpaces(s, 0)..]
  }

  /** `s.strip()`: `s` without its leading and trailing whitespace. */
  function Strip(s: string): (r: string)
    ensures r == [] || (!IsSpace(r[0]) && !IsSpace(r[|r| - 1]))
    ensures (s == [] || (!IsSpace(s[0]) && !IsSpace(s[|s| - 1]))) ==> r == s
  {
    s[SkipSpaces(s, 0)..TrimEnd(s, SkipSpaces(s, 0), |s|)]
  }

  lemma {:induction false} SkipSpacesSkipsSpaces(s: string, i: nat)
    requires i <= |s|
    ensures forall k | i <= k < SkipSpaces(s, i) :: IsSpace(s[k])
    decreases |s| - i
  {
    if i < |s| && IsSpace(s[i]) {
      SkipSpacesSkipsSpaces(s, i + 1);
    }
  }

  lemma {:induction false} TrimEndTrimsSpaces(s: string, i: nat, j: nat)
    requires i <= j <= |s|
    ensures forall k | TrimEnd(s, i, j) <= k < j :: IsSpace(s[k])
    decreases j
  {
    if j > i && IsSpace(s[j - 1]) {
      TrimEndTrimsSpaces(s, i, j - 1);
    }
  }

  /** `Strip` removes whitespace only: every other character of `s` lies inside the result. */
  lemma StripKeepsNonSpace(s: string)
    ensures Strip(s) == s[StripOffset(s)..StripEnd(s)]
    ensures forall k | 0 <= k < |s| && !IsSpace(s[k]) :: StripOffset(s) <= k < StripEnd(s)
  {
    SkipSpacesSkipsSpaces(s, 0);
    TrimEndTrimsSpaces(s, SkipSpaces(s, 0), |s|);
  }

  /** Stripping adds no character. */
  lemma StripDropsNoChar(s: string, c: char)
    requires c !in s
    ensures c !in Strip(s)
  {
    StripKeepsNonSpace(s);
    var r := Strip(s);
    assert forall i | 0 <= i < |r| :: r[i] == s[StripOffset(s) + i];
  }

  /** `Strip(s)` is the piece of `s` that starts at `StripOffset(s)`. */
  lemma StripOccurs(s: string)
    ensures OccursAt(s, Strip(s), StripOffset(s))
  {
    StripKeepsNonSpace(s);
  }

  /** What occurs in `Strip(s)` occurs in `s`. */
  lemma StripSlice(s: string, w: string, i: nat) returns (d: nat)
    requires OccursAt(Strip(s), w, i)
    ensures OccursAt(s, w, d)
  {
    var o := SkipSpaces(s, 0);
    var e := TrimEnd(s, o, |s|);
    SliceOfSlice(s, o, e, i, i + |w|);
    d := o + i;
  }

  // ---------------------------------------------------------------------------------------------
  // `re.sub(r'\s+', ' ', s)` and `' '.join(s.split())`

  /** Every whitespace character is a plain space and no two whitespace characters are adjacent. */
  predicate SingleSpaced(s: string) {
    s == [] ||
    (&& (IsSpace(s[0]) ==> s[0] == ' ' && (|s| > 1 ==> !IsSpace(s[1])))
     && SingleSpaced(s[1..]))
  }

  /** `SingleSpaced`, stated position by position. */
  lemma {:induction false} SingleSpacedMeans(s: string)
    requires SingleSpaced(s)
    ensures forall k | 0 <= k < |s| && IsSpace(s[k]) :: s[k] == ' '
    ensures forall k | 0 <= k < |s| - 1 :: !IsSpace(s[k]) || !IsSpace(s[k + 1])
  {
    if s != [] {
      SingleSpacedMeans(s[1..]);
      assert forall k | 1 <= k < |s| :: s[k] == s[1..][k - 1];
    }
  }

  /** Single-spaced and without leading or trailing whitespace. */
  predicate Normalized(s: string) {
    && SingleSpaced(s)
    && (s == [] || (!IsSpace(s[0]) && !IsSpace(s[|s| - 1])))
  }

  /** `re.sub(r'\s+', ' ', s)`: each maximal run of whitespace becomes one space. */
  function Collapse(s: string): (r: string)
    decreases |s|
    ensures |r| <= |s|
    ensures r == [] <==> s == []
    ensures r != [] ==> (IsSpace(r[0]) <==> IsSpace(s[0]))
  {
    if s == [] then []
    else if IsSpace(s[0]) then " " + Collapse(LStrip(s))
    else [s[0]] + Collapse(s[1..])
  }

  /** `' '.join(s.split())`, which equals `re.sub(r'\s+', ' ', s).strip()`. */
  function NormalizeSpaces(s: string): (r: string)
    ensures Normalized(r)
  {
    CollapseSingleSpaced(s);
    StripNormalizes(Collapse(s));
    Strip(Collapse(s))
  }

  lemma StripNormalizes(s: string)
    requires SingleSpaced(s)
    ensures Normalized(Strip(s))
  {
    SliceSingleSpaced(s, StripOffset(s), StripEnd(s));
  }

  /** `Collapse` leaves only plain, isolated spaces. */
  lemma {:induction false} CollapseSingleSpaced(s: string)
    ensures SingleSpaced(Collapse(s))
    decreases |s|
  {
    if s != [] {
      if IsSpace(s[0]) {
        CollapseSingleSpaced(LStrip(s));
      } else {
        CollapseSingleSpaced(s[1..]);
      }
    }
  }

  lemma {:induction false} SingleSpacedDrop(s: string, a: nat)
    requires a <= |s| && SingleSpaced(s)
    ensures SingleSpaced(s[a..])
  {
    if a > 0 {
      assert s[1..][a - 1..] == s[a..];
      SingleSpacedDrop(s[1..], a - 1);
    }
  }

  lemma {:induction false} SingleSpacedTake(s: string, b: nat)
    requires b <= |s| && SingleSpaced(s)
    ensures SingleSpaced(s[..b])
  {
    if b > 0 {
      assert s[..b][1..] == s[1..][..b - 1];
      SingleSpacedTake(s[1..], b - 1);
    }
  }

  lemma SliceSingleSpaced(s: string, a: nat, b: nat)
    requires a <= b <= |s| && SingleSpaced(s)
    ensures SingleSpaced(s[a..b])
  {
    SingleSpacedDrop(s, a);
    SingleSpacedTake(s[a..], b - a);
    assert s[a..][..b - a] == s[a..b];
  }

  lemma {:induction false} CollapseFixesSingleSpaced(s: string)
    requires SingleSpaced(s)
    ensures Collapse(s) == s
    decreases |s|
  {
    if s != [] {
      var t := s[1..];
      assert SingleSpaced(t);
      if IsSpace(s[0]) {
        assert t == [] || !IsSpace(t[0]);
        assert SkipSpaces(s, 1) == 1;
        assert LStrip(s) == t;
        assert Collapse(s) == " " + Collapse(t);
      } else {
        assert Collapse(s) == [s[0]] + Collapse(t);
      }
      CollapseFixesSingleSpaced(t);
    }
  }

  /** Text without whitespace is normalized. */
  lemma {:induction false} NoSpaceNormalized(s: string)
    requires NoSpace(s)
    ensures Normalized(s)
  {
    if s != [] {
      NoSpaceNormalized(s[1..]);
      NoSpaceMeans(s);
    }
  }

  /** Normalization does nothing to text that is already normalized. */
  lemma NormalizeFixesNormalized(s: string)
    requires Normalized(s)
    ensures NormalizeSpaces(s) == s
  {
    CollapseFixesSingleSpaced(s);
  }

  /** If `Collapse(t)` starts with a whitespace-free `u`, so does `t`. */
  lemma {:induction false} CollapsePrefix(t: string, u: string)
    requires NoSpace(u) && |u| <= |Collapse(t)| && Collapse(t)[..|u|] == u
    ensures |u| <= |t| && t[..|u|] == u
    decreases |u|
  {
    if u != [] {
      assert !IsSpace(t[0]);
      assert Collapse(t) == [t[0]] + Collapse(t[1..]);
      assert Collapse(t[1..])[..|u| - 1] == u[1..];
      CollapsePrefix(t[1..], u[1..]);
    }
  }

  /** A whitespace-free word found in `Collapse(s)` at `i` was already in `s`, at `j`. */
  lemma {:induction false} CollapseKeepsWords(s: string, w: string, i: nat) returns (j: nat)
    requires NoSpace(w) && w != [] && OccursAt(Collapse(s), w, i)
    ensures OccursAt(s, w, j)
    decreases |s|
  {
    if IsSpace(s[0]) {
      var j' := CollapseKeepsWordsAfterSpace(s, w, i);
      OccursInSuffix(s, StripOffset(s), w, j');
      j := StripOffset(s) + j';
    } else if i == 0 {
      CollapseKeepsFirstWord(s, w);
      j := 0;
    } else {
      var j' := CollapseKeepsWordsAfterChar(s, w, i);
      OccursInSuffix(s, 1, w, j');
      j := 1 + j';
    }
  }

  /** The step of `CollapseKeepsWords` over a leading non-whitespace character. */
  lemma {:induction false} CollapseKeepsWordsAfterChar(s: string, w: string, i: nat) returns (j: nat)
    requires NoSpace(w) && w != [] && OccursAt(Collapse(s), w, i)
    requires s != [] && !IsSpace(s[0]) && i > 0
    ensures OccursAt(s[1..], w, j)
    decreases |s|, 0
  {
    var rest := Collapse(s[1..]);
    assert Collapse(s) == [s[0]] + rest;
    assert rest[i - 1..i - 1 + |w|] == Collapse(s)[i..i + |w|];
    j := CollapseKeepsWords(s[1..], w, i - 1);
  }

  /** The step of `CollapseKeepsWords` over a leading whitespace run. */
  lemma {:induction false} CollapseKeepsWordsAfterSpace(s: string, w: string, i: nat) returns (j: nat)
    requires NoSpace(w) && w != [] && OccursAt(Collapse(s), w, i)
    requires s != [] && IsSpace(s[0])
    ensures OccursAt(LStrip(s), w, j)
    decreases |s|, 0
  {
    var c := Collapse(s);
    var rest := Collapse(LStrip(s));
    assert c == " " + rest;
    assert c[i] == w[0] && !IsSpace(c[i]);
    assert rest[i - 1..i - 1 + |w|] == c[i..i + |w|];
    j := CollapseKeepsWords(LStrip(s), w, i - 1);
  }

  /** A whitespace-free word at the very start of `Collapse(s)` starts `s`. */
  lemma CollapseKeepsFirstWord(s: string, w: string)
    requires NoSpace(w) && w != [] && OccursAt(Collapse(s), w, 0)
    ensures OccursAt(s, w, 0)
  {
    var rest := Collapse(s[1..]);
    assert !IsSpace(s[0]);
    assert Collapse(s) == [s[0]] + rest;
    assert rest[..|w| - 1] == w[1..];
    CollapsePrefix(s[1..], w[1..]);
    assert s[..|w|] == [s[0]] + s[1..][..|w| - 1];
  }

  /** A whitespace-free word found in `NormalizeSpaces(s)` was already in `s`. */
  lemma NormalizeKeepsWords(s: string, w: string, i: nat) returns (j: nat)
    requires NoSpace(w) && w != [] && OccursAt(NormalizeSpaces(s), w, i)
    ensures OccursAt(s, w, j)
  {
    var c := Collapse(s);
    var d := StripSlice(c, w, i);
    j := CollapseKeepsWords(s, w, d);
  }

  // ---------------------------------------------------------------------------------------------
  // `str.replace(pat, rep)`

  /** `s.replace(pat, rep)`: occurrences found left to right, without overlap, are replaced. */
  function ReplaceAll(s: string, pat: string, rep: string): (r: string)
    requires pat != []
    decreases |s|
  {
    if |s| < |pat| then s
    else if s[..|pat|] == pat then rep + ReplaceAll(s[|pat|..], pat, rep)
    else [s[0]] + ReplaceAll(s[1..], pat, rep)
  }

  /** Replacing a pattern that does not occur changes nothing. */
  lemma {:induction false} ReplaceAbsent(s: string, pat: string, rep: string)
    requires pat != [] && !Contains(s, pat)
    ensures ReplaceAll(s, pat, rep) == s
    decreases |s|
  {
    if |s| >= |pat| {
      assert !OccursAt(s, pat, 0);
      assert !Contains(s[1..], pat) by {
        forall j: nat | j <= |s[1..]| ensures !OccursAt(s[1..], pat, j) {
          if OccursAt(s[1..], pat, j) { OccursInSuffix(s, 1, pat, j); }
        }
      }
      ReplaceAbsent(s[1..], pat, rep);
    }
  }

  /** If replacing by a space yields a text starting with a space-free `u`, the input started with `u`. */
  lemma {:induction false} ReplacePrefix(t: string, pat: string, u: string)
    requires pat != [] && ' ' !in u
    requires |u| <= |ReplaceAll(t, pat, " ")| && ReplaceAll(t, pat, " ")[..|u|] == u
    ensures |u| <= |t| && t[..|u|] == u
    decreases |u|
  {
    if u != [] && |t| >= |pat| {
      var r := ReplaceAll(t, pat, " ");
      assert r[0] == u[0] && u[0] != ' ';
      assert t[..|pat|] != pat;
      assert r == [t[0]] + ReplaceAll(t[1..], pat, " ");
      assert ReplaceAll(t[1..], pat, " ")[..|u| - 1] == u[1..];
      ReplacePrefix(t[1..], pat, u[1..]);
      assert t[..|u|] == [t[0]] + t[1..][..|u| - 1];
    }
  }

  /** Replacing a space-free pattern by a space creates no new occurrence of a space-free word. */
  lemma {:induction false} ReplaceKeepsWords(s: string, pat: string, w: string, i: nat) returns (j: nat)
    requires pat != [] && ' ' !in w && w != [] && OccursAt(ReplaceAll(s, pat, " "), w, i)
    ensures OccursAt(s, w, j)
    decreases |s|
  {
    if |s| < |pat| {
      j := i;
    } else if s[..|pat|] == pat {
      var j' := ReplaceKeepsWordsAfterPattern(s, pat, w, i);
      OccursInSuffix(s, |pat|, w, j');
      j := |pat| + j';
    } else if i == 0 {
      ReplaceKeepsFirstWord(s, pat, w);
      j := 0;
    } else {
      var j' := ReplaceKeepsWordsAfterChar(s, pat, w, i);
      OccursInSuffix(s, 1, w, j');
      j := 1 + j';
    }
  }

  /** The step of `ReplaceKeepsWords` over a leading occurrence of the pattern. */
  lemma {:induction false} ReplaceKeepsWordsAfterPattern(s: string, pat: string, w: string, i: nat) returns (j: nat)
    requires pat != [] && ' ' !in w && w != [] && OccursAt(ReplaceAll(s, pat, " "), w, i)
    requires |pat| <= |s| && s[..|pat|] == pat
    ensures OccursAt(s[|pat|..], w, j)
    decreases |s|, 0
  {
    var r := ReplaceAll(s, pat, " ");
    var rest := ReplaceAll(s[|pat|..], pat, " ");
    assert r == " " + rest;
    assert i != 0 by { assert r[0] == ' '; assert r[i] == w[0]; }
    assert rest[i - 1..i - 1 + |w|] == r[i..i + |w|];
    j := ReplaceKeepsWords(s[|pat|..], pat, w, i - 1);
  }

  /** The step of `ReplaceKeepsWords` over a leading character that does not start the pattern. */
  lemma {:induction false} ReplaceKeepsWordsAfterChar(s: string, pat: string, w: string, i: nat) returns (j: nat)
    requires pat != [] && ' ' !in w && w != [] && OccursAt(ReplaceAll(s, pat, " "), w, i)
    requires |pat| <= |s| && s[..|pat|] != pat && i > 0
    ensures OccursAt(s[1..], w, j)
    decreases |s|, 0
  {
    var r := ReplaceAll(s, pat, " ");
    var rest := ReplaceAll(s[1..], pat, " ");
    assert r == [s[0]] + rest;
    assert rest[i - 1..i - 1 + |w|] == r[i..i + |w|];
    j := ReplaceKeepsWords(s[1..], pat, w, i - 1);
  }

  /** A space-free word at the very start of the replaced text starts `s`. */
  lemma ReplaceKeepsFirstWord(s: string, pat: string, w: string)
    requires pat != [] && ' ' !in w && w != [] && OccursAt(ReplaceAll(s, pat, " "), w, 0)
    requires |pat| <= |s| && s[..|pat|] != pat
    ensures OccursAt(s, w, 0)
  {
    ReplacePrefix(s, pat, w);
  }

  /** After replacing every occurrence of a space-free pattern by a space, none is left. */
  lemma {:induction false} ReplaceRemovesPattern(s: string, pat: string, i: nat)
    requires pat != [] && ' ' !in pat
    ensures !OccursAt(ReplaceAll(s, pat, " "), pat, i)
    decreases |s|
  {
    if |s| >= |pat| && OccursAt(ReplaceAll(s, pat, " "), pat, i) {
      if s[..|pat|] == pat {
        ReplaceRemovesAfterPattern(s, pat, i);
        ReplaceRemovesPattern(s[|pat|..], pat, i - 1);
      } else if i == 0 {
        ReplaceKeepsFirstWord(s, pat, pat);
      } else {
        ReplaceRemovesAfterChar(s, pat, i);
        ReplaceRemovesPattern(s[1..], pat, i - 1);
      }
    }
  }

  /** An occurrence after a replaced leading pattern is an occurrence in the rest's replacement. */
  lemma ReplaceRemovesAfterPattern(s: string, pat: string, i: nat)
    requires pat != [] && ' ' !in pat && |pat| <= |s| && s[..|pat|] == pat
    requires OccursAt(ReplaceAll(s, pat, " "), pat, i)
    ensures i > 0 && OccursAt(ReplaceAll(s[|pat|..], pat, " "), pat, i - 1)
  {
    var r := ReplaceAll(s, pat, " ");
    var rest := ReplaceAll(s[|pat|..], pat, " ");
    assert r == " " + rest;
    assert i != 0 by { assert r[0] == ' '; assert r[i] == pat[0]; }
    assert rest[i - 1..i - 1 + |pat|] == r[i..i + |pat|];
  }

  /** An occurrence after a kept leading character is an occurrence in the rest's replacement. */
  lemma ReplaceRemovesAfterChar(s: string, pat: string, i: nat)
    requires pat != [] && |pat| <= |s| && s[..|pat|] != pat && i > 0
    requires OccursAt(ReplaceAll(s, pat, " "), pat, i)
    ensures OccursAt(ReplaceAll(s[1..], pat, " "), pat, i - 1)
  {
    var r := ReplaceAll(s, pat, " ");
    var rest := ReplaceAll(s[1..], pat, " ");
    ReplaceKeepsHead(s, pat);
    assert rest[i - 1..i - 1 + |pat|] == r[i..i + |pat|];
  }

  /** Where the pattern does not start the text, the first character is kept as it is. */
  lemma ReplaceKeepsHead(s: string, pat: string)
    requires pat != [] && |pat| <= |s| && s[..|pat|] != pat
    ensures ReplaceAll(s, pat, " ") == [s[0]] + ReplaceAll(s[1..], pat, " ")
  {
  }

  // ---------------------------------------------------------------------------------------------
  // `sep.join(parts)` and `s.split(c)`

  function Join(parts: seq<string>, sep: string): string {
    if |parts| == 0 then []
    else if |parts| == 1 then parts[0]
    else parts[0] + sep + Join(parts[1..], sep)
  }

  /** `s.split(c)`: the pieces between occurrences of `c`, none of which holds `c`. */
  function Split(s: string, c: char): (r: seq<string>)
    decreases |s|
    ensures |r| >= 1
    ensures forall k | 0 <= k < |r| :: c !in r[k]
  {
    if s == [] then [[]]
    else
      var rest := Split(s[1..], c);
      if s[0] == c then [[]] + rest
      else [[s[0]] + rest[0]] + rest[1..]
  }

  /** Joining the pieces of `s.split(c)` with `c` gives `s` back. */
  lemma {:induction false} SplitJoin(s: string, c: char)
    ensures Join(Split(s, c), [c]) == s
    decreases |s|
  {
    if s != [] {
      var rest := Split(s[1..], c);
      SplitJoin(s[1..], c);
      if s[0] == c {
        assert ([[]] + rest)[1..] == rest;
      } else {
        var r := [[s[0]] + rest[0]] + rest[1..];
        assert r[1..] == rest[1..];
        if |rest| > 1 {
          assert Join(rest, [c]) == rest[0] + [c] + Join(rest[1..], [c]);
        }
      }
    }
  }

  /** The first piece of `s.split(c)` runs up to the first `c`; the other pieces split the rest. */
  lemma {:induction false} SplitHead(s: string, c: char, m: nat)
    requires m <= |s| && c !in s[..m] && (m == |s| || s[m] == c)
    ensures Split(s, c)[0] == s[..m]
    ensures m < |s| ==> |Split(s, c)| >= 2 && Split(s, c)[1..] == Split(s[m + 1..], c)
    decreases m
  {
    if m > 0 {
      assert s[0] == s[..m][0];
      assert s[1..][..m - 1] == s[1..m];
      SplitHead(s[1..], c, m - 1);
      if m < |s| {
        assert s[1..][m..] == s[m + 1..];
      }
      assert s[..m] == [s[0]] + s[1..m];
    }
  }

  /** `s.split(c)` has one piece exactly when `c` does not occur in `s`. */
  lemma SplitOnePiece(s: string, c: char)
    ensures |Split(s, c)| == 1 <==> c !in s
  {
    var r := Split(s, c);
    SplitJoin(s, c);
    if |r| > 1 {
      assert Join(r, [c]) == r[0] + [c] + Join(r[1..], [c]);
      assert s[|r[0]|] == c;
    }
  }

  /** The last piece of `s.split(c)` is what follows the last `c` (all of `s` when there is none). */
  lemma SplitLast(s: string, c: char)
    ensures var r := Split(s, c); var l := r[|r| - 1];
      && |l| <= |s| && l == s[|s| - |l|..] && c !in l
      && (c in s ==> |l| < |s| && s[|s| - |l| - 1] == c)
      && (c !in s ==> l == s)
  {
    var r := Split(s, c);
    SplitOnePiece(s, c);
    SplitJoin(s, c);
    if |r| > 1 {
      JoinEndsWithSepAndLast(r, [c]);
    }
  }

  /** With two pieces or more, a join ends with the separator and the last piece. */
  lemma {:induction false} JoinEndsWithSepAndLast(parts: seq<string>, sep: string)
    requires |parts| >= 2
    ensures var j := Join(parts, sep); var l := parts[|parts| - 1];
      |sep| + |l| <= |j| && j[|j| - |l| - |sep|..] == sep + l
  {
    if |parts| > 2 {
      JoinEndsWithSepAndLast(parts[1..], sep);
    }
  }

  /** `[p.strip() for p in parts if p.strip()]`. */
  function StrippedNonEmpty(parts: seq<string>): (r: seq<string>)
    ensures |r| <= |parts|
    ensures forall k | 0 <= k < |r| :: r[k] != [] && !IsSpace(r[k][0]) && !IsSpace(r[k][|r[k]| - 1])
  {
    if parts == [] then []
    else
      var t := Strip(parts[0]);
      (if t != [] then [t] else []) + StrippedNonEmpty(parts[1..])
  }
}
