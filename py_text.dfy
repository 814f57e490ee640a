/** The handful of Python `str` operations the core relies on: whitespace as
    `str.isspace` and the regular-expression class `\s` define it, `strip()`,
    `startswith`, `" ".join(...)` and `re.sub(r"\s+", " ", s)`. */
module PyText {

  /** `c` lies in one of the closed ranges `rs`. */
  predicate InRanges(c: char, rs: seq<(char, char)>) {
    rs != [] && ((rs[0].0 <= c <= rs[0].1) || InRanges(c, rs[1..]))
  }

  /** The ranges of `IsSpace`, the plain space first. */
  const SpaceRanges: seq<(char, char)> :=
    [(' ', ' '), ('\t', '\r'), ('\U{1C}', ' '), ('\U{85}', '\U{85}'), ('\U{A0}', '\U{A0}'),
     ('\U{1680}', '\U{1680}'), ('\U{2000}', '\U{200A}'), ('\U{2028}', '\U{2029}'),
     ('\U{202F}', '\U{202F}'), ('\U{205F}', '\U{205F}'), ('\U{3000}', '\U{3000}')]

  /** Python's whitespace set (`str.isspace`, `str.strip()` and `\s` on `str` agree),
      as closed ranges of code points: U+0009..U+000D, U+001C..U+0020, U+0085, U+00A0,
      U+1680, U+2000..U+200A, U+2028, U+2029, U+202F, U+205F and U+3000. */
  predicate IsSpace(c: char) {
    InRanges(c, SpaceRanges)
  }

  predicate AllSpace(s: string) {
    forall i :: 0 <= i < |s| ==> IsSpace(s[i])
  }

  /** Neither the first nor the last character is whitespace. */
  predicate NoEdgeSpace(s: string) {
    s == [] || (!IsSpace(s[0]) && !IsSpace(s[|s| - 1]))
  }

  /** No two adjacent characters are both whitespace. */
  predicate NoDoubleSpace(s: string) {
    forall i :: 0 <= i < |s| - 1 ==> !(IsSpace(s[i]) && IsSpace(s[i + 1]))
  }

  /** The only whitespace character that occurs is the plain space. */
  predicate OnlyPlainSpaces(s: string) {
    forall i :: 0 <= i < |s| && IsSpace(s[i]) ==> s[i] == ' '
  }

  /** A paragraph: words separated by single plain spaces, nothing at the edges. */
  predicate Normalized(s: string) {
    NoEdgeSpace(s) && NoDoubleSpace(s) && OnlyPlainSpaces(s)
  }

  /** Every string of `xs` is non-empty and has no edge whitespace. */
  predicate AllTrimmed(xs: seq<string>) {
    forall k :: 0 <= k < |xs| ==> xs[k] != [] && NoEdgeSpace(xs[k])
  }

  predicate StartsWith(s: string, prefix: string) {
    |prefix| <= |s| && s[..|prefix|] == prefix
  }

  /** The non-whitespace characters of `s`, in order. */
  function NonSpace(s: string): string {
    if s == [] then []
    else if IsSpace(s[0]) then NonSpace(s[1..])
    else [s[0]] + NonSpace(s[1..])
  }

  /** The number of whitespace characters `s` starts with. */
  function LeadSpaces(s: string): (n: nat)
    ensures n <= |s|
    ensures forall k :: 0 <= k < n ==> IsSpace(s[k])
    ensures n < |s| ==> !IsSpace(s[n])
  {
    if s != [] && IsSpace(s[0]) then 1 + LeadSpaces(s[1..]) else 0
  }

  /** The number of whitespace characters `s` ends with. */
  function TrailSpaces(s: string): (n: nat)
    ensures n <= |s|
    ensures forall k :: |s| - n <= k < |s| ==> IsSpace(s[k])
    ensures n < |s| ==> !IsSpace(s[|s| - 1 - n])
  {
    if s != [] && IsSpace(s[|s| - 1]) then
      var init := s[..|s| - 1];
      var m := TrailSpaces(init);
      assert forall k :: |init| - m <= k < |init| ==> init[k] == s[k];
      assert m < |init| ==> init[|init| - 1 - m] == s[|s| - 2 - m];
      1 + m
    else 0
  }

  /** The trailing whitespace of a suffix `s[i..]` is trailing whitespace of `s`. */
  lemma TrailOfSuffix(s: string, i: int)
    requires 0 <= i <= |s|
    ensures TrailSpaces(s[i..]) <= |s| - i
    ensures AllSpace(s[|s| - TrailSpaces(s[i..])..])
  {
    var l := s[i..];
    var t := TrailSpaces(l);
    assert s[|s| - t..] == l[|l| - t..];
  }

  /** `s.strip()`: a slice `s[i..j]` with only whitespace outside it and none at its edges. */
  function Strip(s: string): (r: string)
    ensures NoEdgeSpace(r)
    ensures exists i, j :: 0 <= i <= j <= |s| && r == s[i..j] && AllSpace(s[..i]) && AllSpace(s[j..])
  {
    var i := LeadSpaces(s);
    var l := s[i..];
    var t := TrailSpaces(l);
    TrailOfSuffix(s, i);
    assert AllSpace(s[..i]);
    var r := l[..|l| - t];
    assert r == s[i..|s| - t];
    assert r != [] ==> r[0] == s[i] && r[|r| - 1] == l[|l| - 1 - t];
    r
  }

  /** `sep.join(xs)`. */
  function Join(sep: string, xs: seq<string>): string {
    if xs == [] then ""
    else if |xs| == 1 then xs[0]
    else xs[0] + sep + Join(sep, xs[1..])
  }

  /** All strings of `xs` concatenated. */
  function Flatten(xs: seq<string>): string {
    if xs == [] then "" else xs[0] + Flatten(xs[1..])
  }

  /** Putting a character in front of a string keeps single plain spacing, provided it
      does not create a whitespace pair. */
  lemma ConsKeepsSpacing(x: char, c: string)
    requires NoDoubleSpace(c) && OnlyPlainSpaces(c)
    requires IsSpace(x) ==> x == ' ' && (c == [] || !IsSpace(c[0]))
    ensures NoDoubleSpace([x] + c) && OnlyPlainSpaces([x] + c)
  {
    var r := [x] + c;
    assert forall k :: 1 <= k < |r| ==> r[k] == c[k - 1];
  }

  /** `re.sub(r"\s+", " ", s)`: every maximal run of whitespace becomes one plain space
      (`CollapseSpacing`, `CollapseRun`). */
  function Collapse(s: string): (r: string)
    ensures r == [] <==> s == []
    ensures r != [] ==> (IsSpace(r[0]) <==> IsSpace(s[0]))
    ensures r != [] ==> (IsSpace(r[|r| - 1]) <==> IsSpace(s[|s| - 1]))
    decreases |s|
  {
    if s == [] then []
    else if IsSpace(s[0]) then
      var rest := s[LeadSpaces(s)..];
      var c := Collapse(rest);
      assert rest != [] ==> rest[|rest| - 1] == s[|s| - 1];
      assert rest == [] ==> IsSpace(s[|s| - 1]);
      var r := [' '] + c;
      assert c != [] ==> r[|r| - 1] == c[|c| - 1];
      r
    else
      var c := Collapse(s[1..]);
      var r := [s[0]] + c;
      assert c != [] ==> r[|r| - 1] == c[|c| - 1] && s[1..][|s| - 2] == s[|s| - 1];
      r
  }

  /** After collapsing, no two whitespace characters are adjacent and the only
      whitespace is the plain space. */
  lemma {:induction false} CollapseSpacing(s: string)
    ensures NoDoubleSpace(Collapse(s)) && OnlyPlainSpaces(Collapse(s))
    decreases |s|
  {
    if s != [] {
      if IsSpace(s[0]) {
        var rest := s[LeadSpaces(s)..];
        CollapseSpacing(rest);
        ConsKeepsSpacing(' ', Collapse(rest));
      } else {
        CollapseSpacing(s[1..]);
        ConsKeepsSpacing(s[0], Collapse(s[1..]));
      }
    }
  }

  /** The whitespace normalisation applied to recognised text: collapse, then strip. */
  function Normalize(s: string): string {
    Strip(Collapse(s))
  }

  // ---------------------------------------------------------------------------
  // Properties of the operations above
  // ---------------------------------------------------------------------------

  lemma {:induction false} NonSpaceAppend(a: string, b: string)
    ensures NonSpace(a + b) == NonSpace(a) + NonSpace(b)
  {
    if a != [] {
      assert (a + b)[1..] == a[1..] + b;
      NonSpaceAppend(a[1..], b);
    } else {
      assert a + b == b;
    }
  }

  /** A string has no non-whitespace character exactly when it is all whitespace. */
  lemma {:induction false} NonSpaceEmpty(s: string)
    ensures NonSpace(s) == [] <==> AllSpace(s)
  {
    if s != [] {
      NonSpaceEmpty(s[1..]);
      if AllSpace(s[1..]) && IsSpace(s[0]) {
        assert forall i :: 1 <= i < |s| ==> s[i] == s[1..][i - 1];
      }
    }
  }

  /** Cutting whitespace off both ends keeps the non-whitespace characters. */
  lemma NonSpaceOfInnerSlice(s: string, i: int, j: int)
    requires 0 <= i <= j <= |s|
    requires AllSpace(s[..i]) && AllSpace(s[j..])
    ensures NonSpace(s[i..j]) == NonSpace(s)
  {
    var a, b, c := s[..i], s[i..j], s[j..];
    assert s == (a + b) + c;
    NonSpaceAppend(a + b, c);
    NonSpaceAppend(a, b);
    NonSpaceEmpty(a);
    NonSpaceEmpty(c);
    assert NonSpace(s) == NonSpace(a) + NonSpace(b) + NonSpace(c);
  }

  /** `strip()` removes whitespace only. */
  lemma StripKeepsNonSpace(s: string)
    ensures NonSpace(Strip(s)) == NonSpace(s)
  {
    var i, j :| 0 <= i <= j <= |s| && Strip(s) == s[i..j] && AllSpace(s[..i]) && AllSpace(s[j..]);
    NonSpaceOfInnerSlice(s, i, j);
  }

  /** `strip()` leaves a string without edge whitespace as it is, so it is idempotent. */
  lemma StripIdentity(s: string)
    requires NoEdgeSpace(s)
    ensures Strip(s) == s
  {
    assert LeadSpaces(s) == 0;
    assert TrailSpaces(s) == 0;
  }

  lemma StripIdempotent(s: string)
    ensures Strip(Strip(s)) == Strip(s)
  {
    StripIdentity(Strip(s));
  }

  /** Collapsing whitespace runs keeps every other character, in order. */
  lemma {:induction false} CollapseKeepsNonSpace(s: string)
    ensures NonSpace(Collapse(s)) == NonSpace(s)
    decreases |s|
  {
    if s != [] {
      if IsSpace(s[0]) {
        var n := LeadSpaces(s);
        var rest := s[n..];
        CollapseKeepsNonSpace(rest);
        assert s == s[..n] + rest;
        NonSpaceAppend(s[..n], rest);
        NonSpaceEmpty(s[..n]);
        var c := Collapse(rest);
        assert (" " + c)[1..] == c;
        assert NonSpace(" " + c) == NonSpace(c);
      } else {
        CollapseKeepsNonSpace(s[1..]);
        assert ([s[0]] + Collapse(s[1..]))[1..] == Collapse(s[1..]);
      }
    }
  }

  /** Collapsing does nothing to a string whose whitespace is already single plain spaces. */
  lemma {:induction false} CollapseIdentity(s: string)
    requires NoDoubleSpace(s) && OnlyPlainSpaces(s)
    ensures Collapse(s) == s
    decreases |s|
  {
    if s != [] {
      var t := s[1..];
      assert NoDoubleSpace(t) && OnlyPlainSpaces(t) by {
        assert forall i :: 0 <= i < |t| ==> t[i] == s[i + 1];
      }
      CollapseIdentity(t);
      if IsSpace(s[0]) {
        assert t != [] ==> !IsSpace(t[0]) && t[0] == s[1];
        assert LeadSpaces(s) == 1 + LeadSpaces(t) == 1;
        assert s == [' '] + t;
      } else {
        assert s == [s[0]] + t;
      }
    }
  }

  lemma SliceKeepsSpacing(s: string, i: int, j: int)
    requires 0 <= i <= j <= |s|
    requires NoDoubleSpace(s) && OnlyPlainSpaces(s)
    ensures NoDoubleSpace(s[i..j]) && OnlyPlainSpaces(s[i..j])
  {
    assert forall k :: 0 <= k < j - i ==> s[i..j][k] == s[i + k];
  }

  /** Normalisation yields a paragraph. */
  lemma NormalizeIsNormalized(s: string)
    ensures Normalized(Normalize(s))
  {
    var c := Collapse(s);
    CollapseSpacing(s);
    var i, j :| 0 <= i <= j <= |c| && Strip(c) == c[i..j] && AllSpace(c[..i]) && AllSpace(c[j..]);
    SliceKeepsSpacing(c, i, j);
  }

  /** Normalisation only removes or replaces whitespace. */
  lemma NormalizeKeepsNonSpace(s: string)
    ensures NonSpace(Normalize(s)) == NonSpace(s)
  {
    StripKeepsNonSpace(Collapse(s));
    CollapseKeepsNonSpace(s);
  }

  /** Normalisation is empty exactly when the input is all whitespace. */
  lemma NormalizeEmpty(s: string)
    ensures Normalize(s) == [] <==> NonSpace(s) == []
  {
    var n := Normalize(s);
    NormalizeKeepsNonSpace(s);
    NonSpaceEmpty(n);
    assert n != [] ==> !IsSpace(n[0]);
  }

  /** A paragraph is left as it is by normalisation. */
  lemma NormalizeIdentity(s: string)
    requires Normalized(s)
    ensures Normalize(s) == s
  {
    CollapseIdentity(s);
    StripIdentity(s);
  }

  /** Two non-empty paragraphs joined by one plain space form a paragraph. */
  lemma ConcatNormalized(a: string, b: string)
    requires a != [] && Normalized(a) && b != [] && Normalized(b)
    ensures Normalized(a + " " + b)
  {
    var j := a + " " + b;
    assert !IsSpace(a[|a| - 1]) && !IsSpace(b[0]);
    forall k | 0 <= k < |j| - 1
      ensures !(IsSpace(j[k]) && IsSpace(j[k + 1]))
    {
      if k + 1 < |a| {
        assert j[k] == a[k] && j[k + 1] == a[k + 1];
      } else if k + 1 == |a| {
        assert j[k] == a[|a| - 1];
      } else if k == |a| {
        assert j[k + 1] == b[0];
      } else {
        assert j[k] == b[k - |a| - 1] && j[k + 1] == b[k - |a|];
      }
    }
    forall k | 0 <= k < |j| && IsSpace(j[k])
      ensures j[k] == ' '
    {
      if k < |a| {
        assert j[k] == a[k];
      } else if k > |a| {
        assert j[k] == b[k - |a| - 1];
      }
    }
    assert j[0] == a[0] && j[|j| - 1] == b[|b| - 1];
  }

  /** Joining non-empty paragraphs with single spaces gives a paragraph. */
  lemma {:induction false} JoinNormalized(xs: seq<string>)
    requires forall k :: 0 <= k < |xs| ==> xs[k] != [] && Normalized(xs[k])
    ensures Normalized(Join(" ", xs))
    ensures xs != [] ==> Join(" ", xs) != [] && Join(" ", xs)[0] == xs[0][0]
    ensures xs != [] ==> Join(" ", xs)[|Join(" ", xs)| - 1] == xs[|xs| - 1][|xs[|xs| - 1]| - 1]
  {
    if |xs| > 1 {
      JoinNormalized(xs[1..]);
      var a, b := xs[0], Join(" ", xs[1..]);
      ConcatNormalized(a, b);
      var j := a + " " + b;
      assert j[0] == a[0] && j[|j| - 1] == b[|b| - 1];
    }
  }

  /** Joining with spaces adds whitespace only: the other characters are those of the
      parts, in the parts' order. */
  lemma {:induction false} JoinKeepsNonSpace(xs: seq<string>)
    ensures NonSpace(Join(" ", xs)) == NonSpace(Flatten(xs))
  {
    if |xs| == 1 {
      assert xs[1..] == [];
      assert Flatten(xs) == xs[0] + "" == xs[0];
    } else if |xs| > 1 {
      JoinKeepsNonSpace(xs[1..]);
      NonSpaceAppend(xs[0] + " ", Join(" ", xs[1..]));
      NonSpaceAppend(xs[0], " ");
      NonSpaceAppend(xs[0], Flatten(xs[1..]));
    }
  }

  // ---------------------------------------------------------------------------
  // Collapse replaces each whitespace run by exactly one space
  // ---------------------------------------------------------------------------

  /** The leading whitespace of `a + b` is that of `a`, unless `a` is all whitespace and
      `b` starts with more. */
  lemma {:induction false} LeadSpacesAppend(a: string, b: string)
    ensures LeadSpaces(a) < |a| ==> LeadSpaces(a + b) == LeadSpaces(a)
    ensures LeadSpaces(a) == |a| && (b == [] || !IsSpace(b[0])) ==> LeadSpaces(a + b) == |a|
  {
    if a == [] {
      assert a + b == b;
    } else {
      assert (a + b)[0] == a[0] && (a + b)[1..] == a[1..] + b;
      LeadSpacesAppend(a[1..], b);
    }
  }

  /** One step of `Collapse` on a string that starts with a non-whitespace character. */
  lemma CollapseWord(x: char, s: string)
    requires !IsSpace(x)
    ensures Collapse([x] + s) == [x] + Collapse(s)
  {
    assert ([x] + s)[0] == x && ([x] + s)[1..] == s;
  }

  /** One step of `Collapse` on a string that starts with whitespace. */
  lemma CollapseSpace(s: string)
    requires s != [] && IsSpace(s[0])
    ensures Collapse(s) == " " + Collapse(s[LeadSpaces(s)..])
  {
  }

  lemma AppendAssoc(x: string, y: string, z: string)
    ensures x + (y + z) == (x + y) + z
  {
  }

  /** Collapsing distributes over a concatenation that does not split a whitespace run. */
  lemma {:induction false} CollapseAppend(a: string, b: string)
    requires a == [] || b == [] || !IsSpace(a[|a| - 1]) || !IsSpace(b[0])
    ensures Collapse(a + b) == Collapse(a) + Collapse(b)
    decreases |a|, 1
  {
    if a == [] {
      assert a + b == b;
      assert Collapse(a) == [];
    } else if b == [] {
      assert a + b == a;
      assert Collapse(b) == [];
    } else if !IsSpace(a[0]) {
      CollapseAppendWord(a, b);
    } else {
      CollapseAppendSpace(a, b);
    }
  }

  lemma {:induction false} CollapseAppendWord(a: string, b: string)
    requires a != [] && b != [] && !IsSpace(a[0])
    requires !IsSpace(a[|a| - 1]) || !IsSpace(b[0])
    ensures Collapse(a + b) == Collapse(a) + Collapse(b)
    decreases |a|, 0
  {
    var t := a[1..];
    assert a == [a[0]] + t && a + b == [a[0]] + (t + b);
    assert t != [] ==> t[|t| - 1] == a[|a| - 1];
    CollapseAppend(t, b);
    CollapseWord(a[0], t);
    CollapseWord(a[0], t + b);
    AppendAssoc([a[0]], Collapse(t), Collapse(b));
  }

  lemma {:induction false} CollapseAppendSpace(a: string, b: string)
    requires a != [] && b != [] && IsSpace(a[0])
    requires !IsSpace(a[|a| - 1]) || !IsSpace(b[0])
    ensures Collapse(a + b) == Collapse(a) + Collapse(b)
    decreases |a|, 0
  {
    var n := LeadSpaces(a);
    var w, t := a[..n], a[n..];
    assert a == w + t && a + b == w + (t + b);
    assert w != [] && AllSpace(w);
    if n < |a| {
      assert t[|t| - 1] == a[|a| - 1] && (t + b)[0] == t[0];
      CollapseSpacePrefix(w, t);
      CollapseSpacePrefix(w, t + b);
      CollapseAppend(t, b);
      AppendAssoc(" ", Collapse(t), Collapse(b));
      assert Collapse(a) == " " + Collapse(t);
      assert Collapse(a + b) == " " + (Collapse(t) + Collapse(b));
    } else {
      assert IsSpace(a[|a| - 1]) && t == [];
      assert a + b == w + b && a == w + [];
      CollapseSpacePrefix(w, b);
      CollapseSpacePrefix(w, []);
      assert Collapse(a) == " ";
    }
  }

  /** A leading whitespace run collapses to one space when the rest starts with a
      non-whitespace character. */
  lemma CollapseSpacePrefix(w: string, u: string)
    requires w != [] && AllSpace(w)
    requires u == [] || !IsSpace(u[0])
    ensures Collapse(w + u) == " " + Collapse(u)
  {
    assert LeadSpaces(w) == |w|;
    LeadSpacesAppend(w, u);
    assert (w + u)[0] == w[0] && (w + u)[|w|..] == u;
    CollapseSpace(w + u);
  }

  /** A run of whitespace between two non-whitespace characters (or the ends) becomes
      exactly one plain space, and the text either side is collapsed on its own. */
  lemma CollapseRun(a: string, w: string, b: string)
    requires w != [] && AllSpace(w)
    requires a == [] || !IsSpace(a[|a| - 1])
    requires b == [] || !IsSpace(b[0])
    ensures Collapse(a + w + b) == Collapse(a) + " " + Collapse(b)
  {
    assert a + w + b == a + (w + b);
    CollapseAppend(a, w + b);
    CollapseSpacePrefix(w, b);
    AppendAssoc(Collapse(a), " ", Collapse(b));
  }

  /** `Normalize` applied to each string. */
  function NormalizeEach(xs: seq<string>): (r: seq<string>)
    ensures |r| == |xs| && forall k :: 0 <= k < |xs| ==> r[k] == Normalize(xs[k])
  {
    if xs == [] then [] else [Normalize(xs[0])] + NormalizeEach(xs[1..])
  }

  /** A string without edge whitespace is normalised by collapsing alone. */
  lemma CollapseOfTrimmed(x: string)
    requires x != [] && NoEdgeSpace(x)
    ensures Normalize(x) == Collapse(x) && Collapse(x) != [] && NoEdgeSpace(Collapse(x))
  {
    StripIdentity(Collapse(x));
  }

  lemma JoinHead(xs: seq<string>)
    requires xs != [] && xs[0] != []
    ensures Join(" ", xs) != [] && Join(" ", xs)[0] == xs[0][0]
  {
  }

  /** Collapsing a space-join of trimmed, non-empty strings normalises each part. */
  lemma {:induction false} CollapseJoin(xs: seq<string>)
    requires AllTrimmed(xs)
    ensures Collapse(Join(" ", xs)) == Join(" ", NormalizeEach(xs))
  {
    if |xs| == 1 {
      CollapseOfTrimmed(xs[0]);
    } else if |xs| > 1 {
      var j := Join(" ", xs[1..]);
      CollapseJoin(xs[1..]);
      JoinHead(xs[1..]);
      CollapseRun(xs[0], " ", j);
      CollapseOfTrimmed(xs[0]);
      assert NormalizeEach(xs)[1..] == NormalizeEach(xs[1..]);
    }
  }

  /** Normalising a space-join of trimmed, non-empty strings is the space-join of their
      normalisations: parts stay separated by exactly one space. */
  lemma NormalizeJoin(xs: seq<string>)
    requires AllTrimmed(xs)
    ensures Normalize(Join(" ", xs)) == Join(" ", NormalizeEach(xs))
  {
    var j := Join(" ", xs);
    CollapseJoin(xs);
    NormalizeTrimmedJoin(xs);
    assert Normalize(j) == Collapse(j);
  }

  /** On a space-join of trimmed strings, normalising is just collapsing. */
  lemma NormalizeTrimmedJoin(xs: seq<string>)
    requires AllTrimmed(xs)
    ensures Normalize(Join(" ", xs)) == Collapse(Join(" ", xs))
  {
    JoinNoEdgeSpace(xs);
    StripIdentity(Collapse(Join(" ", xs)));
  }

  /** A space-join of trimmed, non-empty strings has no edge whitespace. */
  lemma {:induction false} JoinNoEdgeSpace(xs: seq<string>)
    requires AllTrimmed(xs)
    ensures NoEdgeSpace(Join(" ", xs))
  {
    if |xs| > 1 {
      var j := Join(" ", xs[1..]);
      JoinNoEdgeSpace(xs[1..]);
      JoinHead(xs[1..]);
      var r := xs[0] + " " + j;
      assert r[0] == xs[0][0] && r[|r| - 1] == j[|j| - 1];
    }
  }
}
