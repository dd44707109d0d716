/**
 * The regular expression `/(\d+)d(\d+)/` run with `exec`: the engine tries each
 * start position from the left; at a start it takes the longest digit run for the
 * first group, needs a `d` right after it and at least one digit after that, and
 * takes the longest digit run for the second group.
 */
module RollPattern {
  import opened Wrappers
  import opened JsText

  /** A match: the count digits are `s[start..dAt]`, the `d` is at `dAt`, the sides
      digits are `s[dAt + 1..end]`. */
  datatype RollMatch = RollMatch(start: nat, dAt: nat, end: nat)

  /** `s[p..q] d s[q+1..e]` is an occurrence of digits, `d`, digits (not necessarily greedy). */
  ghost predicate IsRollAt(s: string, p: int, q: int, e: int) {
    0 <= p < q && q + 1 < e <= |s|
    && (forall k :: p <= k < q ==> IsDigit(s[k]))
    && s[q] == 'd'
    && (forall k :: q < k < e ==> IsDigit(s[k]))
  }

  /** The end of the longest digit run starting at `i`. */
  function DigitRunEnd(s: string, i: nat): (r: nat)
    requires i <= |s|
    ensures i <= r <= |s|
    ensures forall k :: i <= k < r ==> IsDigit(s[k])
    ensures r == |s| || !IsDigit(s[r])
    decreases |s| - i
  {
    if i < |s| && IsDigit(s[i]) then DigitRunEnd(s, i + 1) else i
  }

  /** One attempt of the engine at start position `p`. */
  function MatchAt(s: string, p: nat): (m: Option<RollMatch>)
    requires p <= |s|
    ensures m.Some? ==> m.value.start == p && IsRollAt(s, m.value.start, m.value.dAt, m.value.end)
    ensures m.Some? ==> m.value.end == |s| || !IsDigit(s[m.value.end])
    ensures m.None? ==> forall q, e :: !IsRollAt(s, p, q, e)
  {
    var q := DigitRunEnd(s, p);
    if p < q && q < |s| && s[q] == 'd' then
      var e := DigitRunEnd(s, q + 1);
      if q + 1 < e then Some(RollMatch(p, q, e)) else None
    else None
  }

  /** The engine's scan from start position `p` onwards. */
  function ExecFrom(s: string, p: nat): (m: Option<RollMatch>)
    requires p <= |s|
    ensures m.Some? ==> p <= m.value.start <= |s| && MatchAt(s, m.value.start) == m
    ensures m.Some? ==> forall p', q, e :: p <= p' < m.value.start ==> !IsRollAt(s, p', q, e)
    ensures m.None? ==> forall p', q, e :: p <= p' ==> !IsRollAt(s, p', q, e)
    decreases |s| - p
  {
    if p == |s| then None
    else
      var m := MatchAt(s, p);
      if m.Some? then m else ExecFrom(s, p + 1)
  }

  /** `/(\d+)d(\d+)/.exec(s)`, reduced to the positions of its two groups. */
  function Exec(s: string): Option<RollMatch>
  {
    ExecFrom(s, 0)
  }

  /** The text of the count group, `M` in `const [_, M, N] = match`. */
  function CountText(s: string): (t: string)
    requires Exec(s).Some?
    ensures t != [] && AllDigits(t)
  {
    var m := Exec(s).value;
    assert IsRollAt(s, m.start, m.dAt, m.end);
    s[m.start..m.dAt]
  }

  /** The text of the sides group, `N` in `const [_, M, N] = match`. */
  function SidesText(s: string): (t: string)
    requires Exec(s).Some?
    ensures t != [] && AllDigits(t)
  {
    var m := Exec(s).value;
    assert IsRollAt(s, m.start, m.dAt, m.end);
    s[m.dAt + 1..m.end]
  }

  /** White space is neither a digit nor `d`, so every occurrence in a text padded with
      white space lies inside the unpadded middle, at the same place. */
  lemma RollAtOfSlice(s: string, i: nat, j: nat)
    requires i <= j <= |s| && AllWhiteSpace(s[..i]) && AllWhiteSpace(s[j..])
    ensures forall p, q, e :: IsRollAt(s[i..j], p, q, e) ==> IsRollAt(s, p + i, q + i, e + i)
    ensures forall p, q, e :: IsRollAt(s, p, q, e) ==> i <= p && e <= j && IsRollAt(s[i..j], p - i, q - i, e - i)
  {
    var t := s[i..j];
    WhiteSpaceAround(s, i, j);
    forall p, q, e | IsRollAt(s, p, q, e)
      ensures i <= p && e <= j && IsRollAt(t, p - i, q - i, e - i)
    {
      assert !IsWhiteSpace(s[p]) && !IsWhiteSpace(s[e - 1]);
    }
  }

  /** `exec` finds a match in a text padded with white space exactly when it finds one
      in the unpadded middle. */
  lemma ExecOfSliceNone(s: string, i: nat, j: nat)
    requires i <= j <= |s| && AllWhiteSpace(s[..i]) && AllWhiteSpace(s[j..])
    ensures Exec(s[i..j]).None? <==> Exec(s).None?
  {
    RollAtOfSlice(s, i, j);
    ExecSpec(s);
    ExecSpec(s[i..j]);
  }

  /** The match in the unpadded middle is the match in the padded text, shifted by the
      leading white space. */
  lemma ExecOfSliceSome(s: string, i: nat, j: nat, m: RollMatch)
    requires i <= j <= |s| && AllWhiteSpace(s[..i]) && AllWhiteSpace(s[j..])
    requires Exec(s) == Some(m)
    ensures i <= m.start && m.end <= j
    ensures Exec(s[i..j]) == Some(RollMatch(m.start - i, m.dAt - i, m.end - i))
  {
    ExecMatch(s, m);
    RollAtInSlice(s, i, j, m.start, m.dAt, m.end);
    MaximalInSlice(s, s[i..j], i, j, m.end);
    LeftmostInSlice(s, i, j, m);
  }

  /** The match `exec` returns is an occurrence whose second digit run is maximal. */
  lemma ExecMatch(s: string, m: RollMatch)
    requires Exec(s) == Some(m)
    ensures IsRollAt(s, m.start, m.dAt, m.end)
    ensures m.end == |s| || !IsDigit(s[m.end])
  {
    assert MatchAt(s, m.start) == Exec(s);
  }

  /** An occurrence in a text padded with white space is an occurrence in the middle. */
  lemma RollAtInSlice(s: string, i: nat, j: nat, p: nat, q: nat, e: nat)
    requires i <= j <= |s| && AllWhiteSpace(s[..i]) && AllWhiteSpace(s[j..])
    requires IsRollAt(s, p, q, e)
    ensures i <= p && e <= j && IsRollAt(s[i..j], p - i, q - i, e - i)
  {
    RollAtOfSlice(s, i, j);
  }

  /** The shifted match is the leftmost occurrence in the middle, so `exec` returns it. */
  lemma LeftmostInSlice(s: string, i: nat, j: nat, m: RollMatch)
    requires i <= j <= |s|
    requires Exec(s) == Some(m) && i <= m.start && m.end <= j
    requires IsRollAt(s[i..j], m.start - i, m.dAt - i, m.end - i)
    requires m.end - i == j - i || !IsDigit(s[i..j][m.end - i])
    ensures Exec(s[i..j]) == Some(RollMatch(m.start - i, m.dAt - i, m.end - i))
  {
    NoEarlierInSlice(s, i, j, m);
    ExecLeftmost(s[i..j], m.start - i, m.dAt - i, m.end - i);
  }

  /** No occurrence in the middle starts before the match in the whole text. */
  lemma NoEarlierInSlice(s: string, i: nat, j: nat, m: RollMatch)
    requires i <= j <= |s| && Exec(s) == Some(m)
    ensures forall p, q, e :: IsRollAt(s[i..j], p, q, e) ==> m.start - i <= p
  {
    forall p, q, e | IsRollAt(s[i..j], p, q, e)
      ensures m.start - i <= p
    {
      RollAtOfMiddle(s, i, j, p, q, e);
      ExecLeftmostStart(s, m, p + i, q + i, e + i);
    }
  }

  /** An occurrence in the middle is an occurrence in the whole text. */
  lemma RollAtOfMiddle(s: string, i: nat, j: nat, p: int, q: int, e: int)
    requires i <= j <= |s| && IsRollAt(s[i..j], p, q, e)
    ensures IsRollAt(s, p + i, q + i, e + i)
  {
    var t := s[i..j];
    forall k | p + i <= k < q + i
      ensures IsDigit(s[k])
    {
      assert t[k - i] == s[k];
    }
    assert t[q] == s[q + i];
    forall k | q + i < k < e + i
      ensures IsDigit(s[k])
    {
      assert t[k - i] == s[k];
    }
  }

  /** No occurrence starts before the match `exec` returns. */
  lemma ExecLeftmostStart(s: string, m: RollMatch, p: int, q: int, e: int)
    requires Exec(s) == Some(m) && IsRollAt(s, p, q, e)
    ensures m.start <= p
  {
    ExecSpec(s);
  }

  /** The match in the whole text ends its digit run in the middle too. */
  lemma MaximalInSlice(s: string, t: string, i: nat, j: nat, e: nat)
    requires i <= e <= j <= |s| && t == s[i..j]
    requires e == |s| || !IsDigit(s[e])
    ensures e - i == |t| || !IsDigit(t[e - i])
  {
    if e < j {
      assert t[e - i] == s[e];
    }
  }

  /** `exec` of a text padded with white space finds the same groups as `exec` of the
      unpadded middle. */
  lemma ExecOfSlice(s: string, i: nat, j: nat)
    requires i <= j <= |s| && AllWhiteSpace(s[..i]) && AllWhiteSpace(s[j..])
    ensures Exec(s[i..j]).None? <==> Exec(s).None?
    ensures Exec(s).Some? ==>
      CountText(s[i..j]) == CountText(s) && SidesText(s[i..j]) == SidesText(s)
  {
    ExecOfSliceNone(s, i, j);
    if Exec(s).Some? {
      ExecOfSliceGroups(s, i, j);
    }
  }

  /** The groups of a padded text are the groups of its unpadded middle. */
  lemma ExecOfSliceGroups(s: string, i: nat, j: nat)
    requires i <= j <= |s| && AllWhiteSpace(s[..i]) && AllWhiteSpace(s[j..])
    requires Exec(s).Some?
    ensures Exec(s[i..j]).Some?
    ensures CountText(s[i..j]) == CountText(s) && SidesText(s[i..j]) == SidesText(s)
  {
    var m := Exec(s).value;
    ExecOfSliceSome(s, i, j, m);
    ShiftedGroups(s, s[i..j], i, j, m, RollMatch(m.start - i, m.dAt - i, m.end - i));
  }

  /** Groups of a match in `t == s[i..j]` that is the match in `s` shifted by `i`. */
  lemma ShiftedGroups(s: string, t: string, i: nat, j: nat, m: RollMatch, mt: RollMatch)
    requires i <= m.start && m.end <= j <= |s| && i <= j && t == s[i..j]
    requires Exec(s) == Some(m) && Exec(t) == Some(mt)
    requires mt == RollMatch(m.start - i, m.dAt - i, m.end - i)
    ensures CountText(t) == CountText(s) && SidesText(t) == SidesText(s)
  {
    GroupsOf(s, m);
    GroupsOf(t, mt);
    SliceOfSlice(s, i, j, m.start, m.dAt);
    assert CountText(t) == t[mt.start..mt.dAt] == s[m.start..m.dAt];
    SliceOfSlice(s, i, j, m.dAt + 1, m.end);
    assert SidesText(t) == t[mt.dAt + 1..mt.end] == s[m.dAt + 1..m.end];
  }

  /** The two groups of a match, by its positions. */
  lemma GroupsOf(s: string, m: RollMatch)
    requires Exec(s) == Some(m)
    ensures m.start <= m.dAt < m.end <= |s|
    ensures CountText(s) == s[m.start..m.dAt] && SidesText(s) == s[m.dAt + 1..m.end]
  {
  }

  /** A slice of a slice is a slice of the whole. */
  lemma SliceOfSlice(s: string, i: nat, j: nat, a: nat, b: nat)
    requires i <= a <= b <= j <= |s|
    ensures s[i..j][a - i..b - i] == s[a..b]
  {
    var u := s[i..j][a - i..b - i];
    assert |u| == b - a;
    forall k | 0 <= k < b - a
      ensures u[k] == s[a..b][k]
    {
      assert u[k] == s[i..j][a - i + k] == s[a + k];
    }
  }

  /** The second group is greedy: no occurrence at the same `d` reaches further. */
  lemma MatchAtGreedy(s: string, p: nat, e': int)
    requires p <= |s| && MatchAt(s, p).Some?
    requires IsRollAt(s, p, MatchAt(s, p).value.dAt, e')
    ensures e' <= MatchAt(s, p).value.end
  {
  }

  /** The first group is determined by its start: it always ends at the first non-digit. */
  lemma RollAtUniqueD(s: string, p: int, q: int, e: int, q': int, e': int)
    requires IsRollAt(s, p, q, e) && IsRollAt(s, p, q', e')
    ensures q == q'
  {
  }

  /** `Exec` is the leftmost-longest reading of the pattern: it finds a match exactly when
      the text holds digits-`d`-digits somewhere; the match starts at the leftmost such
      occurrence; and its sides group is the longest one at that `d`. */
  lemma ExecSpec(s: string)
    ensures Exec(s).None? <==> forall p, q, e :: !IsRollAt(s, p, q, e)
    ensures Exec(s).Some? ==>
      var m := Exec(s).value;
      IsRollAt(s, m.start, m.dAt, m.end)
      && (forall p, q, e :: IsRollAt(s, p, q, e) ==> m.start <= p)
      && (forall q, e :: IsRollAt(s, m.start, q, e) ==> q == m.dAt && e <= m.end)
  {
    var r := Exec(s);
    if r.Some? {
      var m := r.value;
      assert MatchAt(s, m.start) == r;
      forall q, e | IsRollAt(s, m.start, q, e)
        ensures q == m.dAt && e <= m.end
      {
        RollAtUniqueD(s, m.start, q, e, m.dAt, m.end);
        MatchAtGreedy(s, m.start, e);
      }
    }
  }

  /** Conversely, the leftmost occurrence with the longest sides run is the match. */
  lemma ExecLeftmost(s: string, p: nat, q: nat, e: nat)
    requires IsRollAt(s, p, q, e)
    requires forall p', q', e' :: IsRollAt(s, p', q', e') ==> p <= p'
    requires e == |s| || !IsDigit(s[e])
    ensures Exec(s) == Some(RollMatch(p, q, e))
  {
    ExecSpec(s);
    var m := Exec(s).value;
    assert m.start == p by {
      assert m.start <= p;
      assert IsRollAt(s, m.start, m.dAt, m.end);
    }
    RollAtUniqueD(s, p, q, e, m.dAt, m.end);
    assert e <= m.end;
    assert m.end <= e by {
      if m.end > e {
        assert false;
      }
    }
  }

  /** The count digits run from a digit-free boundary: the first group is the whole
      digit run in front of the `d`, not a suffix of it. */
  lemma ExecCountIsWholeRun(s: string)
    requires Exec(s).Some?
    ensures var m := Exec(s).value; m.start == 0 || !IsDigit(s[m.start - 1])
  {
    var m := Exec(s).value;
    if m.start > 0 && IsDigit(s[m.start - 1]) {
      assert IsRollAt(s, m.start - 1, m.dAt, m.end);
    }
  }

  /** Text around a match does not matter: the matched substring on its own is
      matched in full, with the same count and sides digits. */
  lemma ExecOfMatch(s: string)
    requires Exec(s).Some?
    ensures var m := Exec(s).value;
      Exec(s[m.start..m.end]) == Some(RollMatch(0, m.dAt - m.start, m.end - m.start))
  {
    var m := Exec(s).value;
    var t := s[m.start..m.end];
    var q, e := m.dAt - m.start, m.end - m.start;
    assert IsRollAt(t, 0, q, e);
    assert DigitRunEnd(t, 0) == q by {
      var r := DigitRunEnd(t, 0);
      if r < q { assert false; }
      if r > q { assert false; }
    }
    assert DigitRunEnd(t, q + 1) == e;
    assert MatchAt(t, 0) == Some(RollMatch(0, q, e));
  }
}
