/**
 * The `search` text derived from a coding's display before it is indexed: the first
 * parenthetical group is removed, then the first "Computed tomography" gains " CT" and the
 * first "Magnetic resonance" gains " MRI". Each step is a JavaScript `String.prototype.replace`
 * with a non-global regular expression, so it rewrites the first match only.
 */
module SearchText {
  import opened Wrappers

  const ComputedTomography: string := "Computed tomography"
  const MagneticResonance: string := "Magnetic resonance"
  const CtSuffix: string := " CT"
  const MriSuffix: string := " MRI"

  // ---------------------------------------------------------------- /\(.*?\)/ -> ''

  /** The characters a regular-expression `.` does not match. */
  predicate IsLineTerminator(c: char) {
    c == '\n' || c == '\r' || c == '\U{2028}' || c == '\U{2029}'
  }

  /** No `)` and no line terminator in `s[a..b]`. */
  ghost predicate ClearBetween(s: string, a: int, b: int)
    requires 0 <= a && b <= |s|
  {
    forall m :: a <= m < b ==> s[m] != ')' && !IsLineTerminator(s[m])
  }

  /** `s[i..j+1]` is a match of `\(.*?\)` starting at `i`: the lazy `.*?` stops at the first `)`. */
  ghost predicate GroupAt(s: string, i: int, j: int) {
    0 <= i < j < |s| && s[i] == '(' && s[j] == ')' && ClearBetween(s, i + 1, j)
  }

  /** The first `)` at or after `k`, provided no line terminator comes before it. */
  function CloseFrom(s: string, k: nat): (r: Option<nat>)
    requires k <= |s|
    ensures r.Some? ==> k <= r.value < |s| && s[r.value] == ')' && ClearBetween(s, k, r.value)
    ensures r.None? ==> forall j :: k <= j < |s| && s[j] == ')' ==> !ClearBetween(s, k, j)
    decreases |s| - k
  {
    if k == |s| then None
    else if s[k] == ')' then Some(k)
    else if IsLineTerminator(s[k]) then None
    else CloseFrom(s, k + 1)
  }

  /** The leftmost match at or after `i`, as (position of `(`, position of `)`). */
  function FirstGroupFrom(s: string, i: nat): (r: Option<(nat, nat)>)
    requires i <= |s|
    ensures r.Some? ==> i <= r.value.0 && GroupAt(s, r.value.0, r.value.1)
                        && forall a, b :: i <= a < r.value.0 ==> !GroupAt(s, a, b)
    ensures r.None? ==> forall a, b :: i <= a ==> !GroupAt(s, a, b)
    decreases |s| - i
  {
    if i == |s| then None
    else if s[i] == '(' then
      match CloseFrom(s, i + 1)
      case Some(j) => Some((i, j))
      case None => FirstGroupFrom(s, i + 1)
    else FirstGroupFrom(s, i + 1)
  }

  /** A match starting at `i` ends at one place only. */
  lemma GroupEndUnique(s: string, i: int, j: int, j': int)
    requires GroupAt(s, i, j) && GroupAt(s, i, j')
    ensures j == j'
  {
  }

  /** `s[i..j+1]` is the leftmost match. */
  ghost predicate FirstGroupAt(s: string, i: int, j: int) {
    GroupAt(s, i, j) && forall a, b :: 0 <= a < i ==> !GroupAt(s, a, b)
  }

  /** The leftmost match is unique. */
  lemma FirstGroupUnique(s: string, i: int, j: int, i': int, j': int)
    requires FirstGroupAt(s, i, j) && FirstGroupAt(s, i', j')
    ensures i == i' && j == j'
  {
    assert i == i';
    GroupEndUnique(s, i, j, j');
  }

  /** `.replace(/\(.*?\)/, '')` */
  function StripFirstGroup(s: string): (r: string)
    ensures '(' !in s ==> r == s
    ensures (forall a, b :: !GroupAt(s, a, b)) ==> r == s
    ensures forall i, j :: FirstGroupAt(s, i, j) ==> r == s[..i] + s[j + 1..]
  {
    match FirstGroupFrom(s, 0)
    case None => s
    case Some(g) =>
      assert FirstGroupAt(s, g.0, g.1);
      assert forall i, j :: FirstGroupAt(s, i, j) ==> i == g.0 && j == g.1 by {
        forall i, j | FirstGroupAt(s, i, j)
          ensures i == g.0 && j == g.1
        {
          FirstGroupUnique(s, i, j, g.0, g.1);
        }
      }
      assert s[g.0] in s;
      s[..g.0] + s[g.1 + 1..]
  }

  // ---------------------------------------------------------------- /literal/ -> replacement

  ghost predicate OccursAt(s: string, pat: string, i: int) {
    0 <= i && i + |pat| <= |s| && s[i..i + |pat|] == pat
  }

  ghost predicate Contains(s: string, pat: string) {
    exists i :: OccursAt(s, pat, i)
  }

  /** The first occurrence of `pat` at or after `i`. */
  function IndexOfFrom(s: string, pat: string, i: nat): (r: Option<nat>)
    ensures r.Some? ==> i <= r.value && OccursAt(s, pat, r.value)
                        && forall k :: i <= k < r.value ==> !OccursAt(s, pat, k)
    ensures r.None? ==> forall k :: i <= k ==> !OccursAt(s, pat, k)
    decreases |s| - i
  {
    if i + |pat| > |s| then None
    else if s[i..i + |pat|] == pat then Some(i)
    else IndexOfFrom(s, pat, i + 1)
  }

  /** `pat` occurs at `i` and nowhere before it. */
  ghost predicate FirstAt(s: string, pat: string, i: int) {
    OccursAt(s, pat, i) && forall k :: 0 <= k < i ==> !OccursAt(s, pat, k)
  }

  /** The first occurrence is unique. */
  lemma FirstOccurrenceUnique(s: string, pat: string, i: int, i': int)
    requires FirstAt(s, pat, i) && FirstAt(s, pat, i')
    ensures i == i'
  {
  }

  /** The first occurrence of `pat` in `s`. */
  function IndexOf(s: string, pat: string): (r: Option<nat>)
    ensures r.Some? <==> Contains(s, pat)
    ensures r.Some? ==> FirstAt(s, pat, r.value)
  {
    IndexOfFrom(s, pat, 0)
  }

  /** `s.replace(/pat/, rep)` for a `pat` with no special characters and a `rep` with no `$`. */
  function ReplaceFirst(s: string, pat: string, rep: string): (r: string)
    ensures !Contains(s, pat) ==> r == s
    ensures forall i :: FirstAt(s, pat, i) ==> r == s[..i] + rep + s[i + |pat|..]
  {
    match IndexOf(s, pat)
    case None => s
    case Some(i) =>
      assert forall i' :: FirstAt(s, pat, i') ==> i' == i by {
        forall i' | FirstAt(s, pat, i')
          ensures i' == i
        {
          FirstOccurrenceUnique(s, pat, i, i');
        }
      }
      s[..i] + rep + s[i + |pat|..]
  }

  /** The `search` field of an indexed coding; a display with no `(` and neither phrase is indexed as it is. */
  function SearchText(display: string): (r: string)
    ensures '(' !in display && !Contains(display, ComputedTomography) && !Contains(display, MagneticResonance)
            ==> r == display
  {
    ReplaceFirst(ReplaceFirst(StripFirstGroup(display), ComputedTomography, ComputedTomography + CtSuffix),
                 MagneticResonance, MagneticResonance + MriSuffix)
  }

  // ---------------------------------------------------------------- properties

  /** Replacing `pat` by `pat + sfx` where `pat` occurs is inserting `sfx` after it. */
  lemma SpliceSuffix(s: string, i: nat, pat: string, sfx: string)
    requires OccursAt(s, pat, i)
    ensures s[..i] + (pat + sfx) + s[i + |pat|..] == s[..i + |pat|] + sfx + s[i + |pat|..]
    ensures OccursAt(s[..i + |pat|] + sfx + s[i + |pat|..], pat + sfx, i)
  {
    var n := i + |pat|;
    assert s[..n] == s[..i] + s[i..n];
    var t := s[..n] + sfx + s[n..];
    assert t[i..n + |sfx|] == pat + sfx;
  }

  /** Suffixing the first occurrence of `pat`, at `i`, inserts `sfx` right after it. */
  lemma SuffixFirstAt(s: string, pat: string, sfx: string, i: nat)
    requires FirstAt(s, pat, i)
    ensures ReplaceFirst(s, pat, pat + sfx) == s[..i + |pat|] + sfx + s[i + |pat|..]
    ensures OccursAt(ReplaceFirst(s, pat, pat + sfx), pat + sfx, i)
  {
    assert ReplaceFirst(s, pat, pat + sfx) == s[..i] + (pat + sfx) + s[i + |pat|..];
    SpliceSuffix(s, i, pat, sfx);
  }

  /** Suffixing the first occurrence of `pat` inserts `sfx` right after it. */
  lemma SuffixFirst(s: string, pat: string, sfx: string)
    requires Contains(s, pat)
    ensures var i := IndexOf(s, pat).value;
            && OccursAt(s, pat, i)
            && ReplaceFirst(s, pat, pat + sfx) == s[..i + |pat|] + sfx + s[i + |pat|..]
            && OccursAt(ReplaceFirst(s, pat, pat + sfx), pat + sfx, i)
  {
    SuffixFirstAt(s, pat, sfx, IndexOf(s, pat).value);
  }

  /** Inserting text at `q` keeps an occurrence of `pat` that `q` does not cut. */
  lemma InsertKeeps(s: string, q: nat, ins: string, pat: string, k: nat)
    requires q <= |s| && OccursAt(s, pat, k)
    requires q <= k || k + |pat| <= q
    ensures Contains(s[..q] + ins + s[q..], pat)
  {
    var t := s[..q] + ins + s[q..];
    if q <= k {
      assert t[k + |ins|..k + |ins| + |pat|] == s[k..k + |pat|];
      assert OccursAt(t, pat, k + |ins|);
    } else {
      assert t[k..k + |pat|] == s[k..k + |pat|];
      assert OccursAt(t, pat, k);
    }
  }

  /** Where an occurrence of `q` starts inside one of `p`, its first letter is a letter of `p`. */
  lemma OverlapLetter(s: string, p: string, i: nat, q: string, k: nat)
    requires OccursAt(s, p, i) && OccursAt(s, q, k) && |q| > 0
    ensures i <= k < i + |p| ==> q[0] in p
  {
    if i <= k < i + |p| {
      assert s[k] == s[k..k + |q|][0] == q[0];
      assert s[k] == s[i..i + |p|][k - i];
    }
  }

  /** Occurrences of two phrases, neither of whose first letter occurs in the other, never overlap. */
  lemma Disjoint(s: string, p: string, i: nat, q: string, k: nat)
    requires OccursAt(s, p, i) && OccursAt(s, q, k) && |p| > 0 && |q| > 0
    requires q[0] !in p && p[0] !in q
    ensures i + |p| <= k || k + |q| <= i
  {
    OverlapLetter(s, p, i, q, k);
    OverlapLetter(s, q, k, p, i);
  }

  /** Inserting `sfx` after the first `p`, at `i`, keeps the occurrence of `q` at `k`. */
  lemma SuffixKeepsAt(s: string, p: string, sfx: string, i: nat, q: string, k: nat)
    requires FirstAt(s, p, i) && OccursAt(s, q, k) && |p| > 0 && |q| > 0
    requires q[0] !in p && p[0] !in q
    ensures Contains(ReplaceFirst(s, p, p + sfx), q)
  {
    SuffixFirstAt(s, p, sfx, i);
    Disjoint(s, p, i, q, k);
    InsertKeeps(s, i + |p|, sfx, q, k);
  }

  /** Suffixing the first `p` keeps every occurrence of a phrase `q` that cannot overlap `p`. */
  lemma SuffixKeeps(s: string, p: string, sfx: string, q: string)
    requires Contains(s, q) && |p| > 0 && |q| > 0
    requires q[0] !in p && p[0] !in q
    ensures Contains(ReplaceFirst(s, p, p + sfx), q)
  {
    if Contains(s, p) {
      var k :| OccursAt(s, q, k);
      SuffixKeepsAt(s, p, sfx, IndexOf(s, p).value, q, k);
    }
  }

  /** "Magnetic resonance" survives the CT suffix. */
  lemma CtSuffixKeepsMagneticResonance(s: string)
    requires Contains(s, MagneticResonance)
    ensures Contains(ReplaceFirst(s, ComputedTomography, ComputedTomography + CtSuffix), MagneticResonance)
  {
    assert MagneticResonance[0] == 'M' && 'M' !in ComputedTomography;
    assert ComputedTomography[0] == 'C' && 'C' !in MagneticResonance;
    SuffixKeeps(s, ComputedTomography, CtSuffix, MagneticResonance);
  }

  /** "Computed tomography CT" survives the MRI suffix. */
  lemma MriSuffixKeepsComputedTomographyCt(s: string)
    requires Contains(s, ComputedTomography + CtSuffix)
    ensures Contains(ReplaceFirst(s, MagneticResonance, MagneticResonance + MriSuffix), ComputedTomography + CtSuffix)
  {
    var ctct := ComputedTomography + CtSuffix;
    assert ctct == "Computed tomography CT";
    assert ctct[0] == 'C' && 'C' !in MagneticResonance;
    assert MagneticResonance[0] == 'M' && 'M' !in ctct;
    SuffixKeeps(s, MagneticResonance, MriSuffix, ctct);
  }

  /**
   * Once the parenthetical group is gone, each imaging phrase that remains is indexed
   * together with its abbreviation.
   */
  lemma SearchTextAbbreviations(display: string)
    ensures Contains(StripFirstGroup(display), ComputedTomography)
            ==> Contains(SearchText(display), ComputedTomography + CtSuffix)
    ensures Contains(StripFirstGroup(display), MagneticResonance)
            ==> Contains(SearchText(display), MagneticResonance + MriSuffix)
  {
    var stripped := StripFirstGroup(display);
    var afterCt := ReplaceFirst(stripped, ComputedTomography, ComputedTomography + CtSuffix);
    if Contains(stripped, ComputedTomography) {
      SuffixFirst(stripped, ComputedTomography, CtSuffix);
      MriSuffixKeepsComputedTomographyCt(afterCt);
    }
    if Contains(stripped, MagneticResonance) {
      CtSuffixKeepsMagneticResonance(stripped);
      SuffixFirst(afterCt, MagneticResonance, MriSuffix);
    }
  }
}
