/**
 * `normalize_date` of scripts/check_certificates.py: a date as the checker
 * prints it ("2023-02-08 19:07:10 GMT+08:00") becomes an ISO-like string
 * ("2023-02-08T19:07:10+08:00").
 */
module Dates {
  import opened Wrappers
  import opened Text

  /** `G`, `M` and `T` followed by a sign: the match of `GMT(?=\+|\-)`. */
  predicate GmtAt(s: string, i: int) {
    0 <= i && i + 3 < |s| && s[i] == 'G' && s[i + 1] == 'M' && s[i + 2] == 'T' &&
    (s[i + 3] == '+' || s[i + 3] == '-')
  }

  /**
   * `re.sub(r'GMT(?=\+|\-)', '', s)`: one left-to-right pass that deletes every
   * "GMT" standing right before a sign; the sign itself stays.
   */
  function DropGmt(s: string): (r: string)
    ensures |r| <= |s|
    ensures forall c :: c in r ==> c in s
    decreases |s|
  {
    if s == [] then []
    else if GmtAt(s, 0) then DropGmt(s[3..])
    else [s[0]] + DropGmt(s[1..])
  }

  /** `s.replace('  ', ' ')`: one left-to-right pass over non-overlapping pairs of spaces. */
  function CollapseDoubleSpaces(s: string): (r: string)
    ensures |r| <= |s|
    ensures forall c :: c in r ==> c in s
    decreases |s|
  {
    if s == [] then []
    else if |s| >= 2 && s[0] == ' ' && s[1] == ' ' then [' '] + CollapseDoubleSpaces(s[2..])
    else [s[0]] + CollapseDoubleSpaces(s[1..])
  }

  /** A numeric UTC offset `[+-]dd:dd`. */
  predicate IsOffset(t: string) {
    |t| == 6 && (t[0] == '+' || t[0] == '-') && IsDigit(t[1]) && IsDigit(t[2]) &&
    t[3] == ':' && IsDigit(t[4]) && IsDigit(t[5])
  }

  /** An offset holds only a sign, digits and a colon. */
  lemma OffsetChars(t: string)
    requires IsOffset(t)
    ensures 'G' !in t && 'M' !in t && 'T' !in t && ' ' !in t
  {
    assert t == [t[0], t[1], t[2], t[3], t[4], t[5]];
  }

  /** `re.search(r'([+\-]\d{2}:\d{2})$', s)` finds a match: the last six characters are an offset. */
  predicate HasOffset(s: string) {
    |s| >= 6 && IsOffset(s[|s| - 6..])
  }

  /** `s` ends with `t`. */
  predicate EndsWith(s: string, t: string) {
    |t| <= |s| && s[|s| - |t|..] == t
  }

  /**
   * The offset branch of `normalize_date` on the prepared text `s`: with an
   * offset at the end, the stripped part before it gets its first space made
   * `T` and the offset is put back; otherwise the first space of `s` becomes `T`.
   */
  function Reformat(s: string): (r: string)
    ensures |r| <= |s|
    ensures forall c :: c in r ==> c in s || c == 'T'
    ensures HasOffset(s) ==> EndsWith(r, s[|s| - 6..])
    ensures !HasOffset(s) ==> |r| == |s|
  {
    if HasOffset(s) then
      var core := Strip(s[..|s| - 6]);
      StripSubset(s[..|s| - 6]);
      StripSlice(s[..|s| - 6]);
      ReplaceFirstSpace(core) + s[|s| - 6..]
    else
      ReplaceFirstSpace(s)
  }

  /**
   * The text `normalize_date` hands to its offset test: the stripped input
   * with "GMT" deleted before a sign and double spaces halved.
   */
  function Prepared(txt: string): (r: string)
    ensures |r| <= |txt|
    ensures forall c :: c in r ==> c in txt
  {
    StripSubset(txt);
    StripSlice(txt);
    CollapseDoubleSpaces(DropGmt(Strip(txt)))
  }

  /**
   * `normalize_date(txt)`: `None` for a missing or empty text; otherwise the
   * prepared text reformatted by `Reformat`. No `Z` is ever appended.
   */
  function NormalizeDate(txt: Option<string>): (r: Option<string>)
    ensures r.None? <==> txt.None? || txt.value == ""
    ensures r.Some? ==> |r.value| <= |txt.value|
    ensures r.Some? ==> forall c :: c in r.value ==> c in txt.value || c == 'T'
  {
    if txt.None? || txt.value == "" then None
    else Some(Reformat(Prepared(txt.value)))
  }

  /** Characters other than `G` never start a match, so such a string survives `DropGmt`. */
  lemma {:induction false} DropGmtNoG(t: string)
    requires 'G' !in t
    ensures DropGmt(t) == t
    decreases |t|
  {
    if t != [] {
      assert 'G' !in t[1..];
      DropGmtNoG(t[1..]);
      assert [t[0]] + t[1..] == t;
    }
  }

  /** A "GMT" match at the front of `p + t` lies inside `p` when `t` has no `T`. */
  lemma GmtInPrefix(p: string, t: string)
    requires 'T' !in t
    requires GmtAt(p + t, 0)
    ensures |p| >= 3
  {
    var s := p + t;
    forall k | |p| <= k < |s|
      ensures s[k] != 'T'
    {
      assert s[k] == t[k - |p|];
    }
  }

  /** Putting a character in front keeps a suffix. */
  lemma EndsWithCons(c: char, d: string, t: string)
    requires EndsWith(d, t)
    ensures EndsWith([c] + d, t)
  {
    assert ([c] + d)[|[c] + d| - |t|..] == d[|d| - |t|..];
  }

  /** A tail free of `G`, `M` and `T` cannot be part of a deleted "GMT", so it survives `DropGmt`. */
  lemma {:induction false} DropGmtSuffix(p: string, t: string)
    requires 'G' !in t && 'M' !in t && 'T' !in t
    ensures EndsWith(DropGmt(p + t), t)
    decreases |p|
  {
    var s := p + t;
    if p == [] {
      assert s == t;
      DropGmtNoG(t);
    } else if GmtAt(s, 0) {
      GmtInPrefix(p, t);
      assert s[3..] == p[3..] + t;
      DropGmtSuffix(p[3..], t);
    } else {
      assert s[1..] == p[1..] + t;
      DropGmtSuffix(p[1..], t);
      EndsWithCons(s[0], DropGmt(p[1..] + t), t);
    }
  }

  /** A string without a space survives `CollapseDoubleSpaces`. */
  lemma {:induction false} CollapseDoubleSpacesNoSpace(t: string)
    requires ' ' !in t
    ensures CollapseDoubleSpaces(t) == t
    decreases |t|
  {
    if t != [] {
      assert ' ' !in t[1..];
      CollapseDoubleSpacesNoSpace(t[1..]);
      assert [t[0]] + t[1..] == t;
    }
  }

  /** A space-free tail survives `CollapseDoubleSpaces`. */
  lemma {:induction false} CollapseDoubleSpacesSuffix(p: string, t: string)
    requires ' ' !in t
    ensures EndsWith(CollapseDoubleSpaces(p + t), t)
    decreases |p|
  {
    if p == [] {
      assert p + t == t;
      CollapseDoubleSpacesNoSpace(t);
    } else if |p + t| >= 2 && (p + t)[0] == ' ' && (p + t)[1] == ' ' {
      assert |p| >= 2;
      assert (p + t)[2..] == p[2..] + t;
      CollapseDoubleSpacesSuffix(p[2..], t);
    } else {
      assert (p + t)[1..] == p[1..] + t;
      CollapseDoubleSpacesSuffix(p[1..], t);
    }
  }

  /** Deleting "GMT" and halving double spaces keep a final offset. */
  lemma PrepareKeepsOffset(s0: string)
    requires HasOffset(s0)
    ensures HasOffset(CollapseDoubleSpaces(DropGmt(s0)))
    ensures var s := CollapseDoubleSpaces(DropGmt(s0)); s[|s| - 6..] == s0[|s0| - 6..]
  {
    var tz := s0[|s0| - 6..];
    assert s0 == s0[..|s0| - 6] + tz;
    OffsetChars(tz);
    DropGmtSuffix(s0[..|s0| - 6], tz);
    var d := DropGmt(s0);
    assert d == d[..|d| - 6] + tz;
    CollapseDoubleSpacesSuffix(d[..|d| - 6], tz);
  }

  /**
   * A text whose stripped form ends in a numeric offset keeps that offset:
   * the result is the reformatted date-time part followed by exactly that offset.
   */
  lemma NormalizeDateKeepsOffset(txt: string)
    requires HasOffset(Strip(txt))
    ensures var s0 := Strip(txt); var tz := s0[|s0| - 6..];
      NormalizeDate(Some(txt)).Some? && EndsWith(NormalizeDate(Some(txt)).value, tz)
  {
    PrepareKeepsOffset(Strip(txt));
  }

  /**
   * Without an offset at the end of the prepared text, its first space (at
   * `k`) becomes `T` and every other character is kept.
   */
  lemma NormalizeDateWithoutOffset(txt: string, k: int)
    requires txt != "" && !HasOffset(Prepared(txt))
    requires 0 <= k < |Prepared(txt)| && Prepared(txt)[k] == ' '
    requires forall j :: 0 <= j < k ==> Prepared(txt)[j] != ' '
    ensures var p := Prepared(txt); NormalizeDate(Some(txt)) == Some(p[..k] + "T" + p[k + 1..])
  {
    ReplaceFirstSpaceAt(Prepared(txt), k);
  }

  /** Without an offset and without a space, the prepared text is the result. */
  lemma NormalizeDateWithoutSpace(txt: string)
    requires txt != "" && !HasOffset(Prepared(txt)) && ' ' !in Prepared(txt)
    ensures NormalizeDate(Some(txt)) == Some(Prepared(txt))
  {
    ReplaceFirstSpaceNone(Prepared(txt));
  }

  /**
   * With an offset `z` at the end of the prepared text, the stripped part
   * before it has its first space (at `k`) made `T`, and `z` follows directly.
   */
  lemma NormalizeDateWithOffset(txt: string, pre: string, z: string, k: int)
    requires Prepared(txt) == pre + z && IsOffset(z)
    requires 0 <= k < |Strip(pre)| && Strip(pre)[k] == ' '
    requires forall j :: 0 <= j < k ==> Strip(pre)[j] != ' '
    ensures var c := Strip(pre); NormalizeDate(Some(txt)) == Some(c[..k] + "T" + c[k + 1..] + z)
  {
    NormalizeDateSteps(txt);
    ReformatOffset(pre, z);
    ReplaceFirstSpaceAt(Strip(pre), k);
  }

  /** With an offset `z` and no space before it, the stripped part before `z` is joined to it. */
  lemma NormalizeDateOffsetWithoutSpace(txt: string, pre: string, z: string)
    requires Prepared(txt) == pre + z && IsOffset(z)
    requires ' ' !in Strip(pre)
    ensures NormalizeDate(Some(txt)) == Some(Strip(pre) + z)
  {
    NormalizeDateSteps(txt);
    ReformatOffset(pre, z);
    ReplaceFirstSpaceNone(Strip(pre));
  }

  lemma {:induction false} DropGmtPrefix(a: string, b: string)
    requires 'G' !in a
    ensures DropGmt(a + b) == a + DropGmt(b)
    decreases |a|
  {
    if a != [] {
      assert (a + b)[1..] == a[1..] + b;
      assert 'G' !in a[1..];
      DropGmtPrefix(a[1..], b);
      assert [a[0]] + a[1..] == a;
    } else {
      assert a + b == b;
    }
  }

  lemma {:induction false} CollapseDoubleSpacesPrefix(a: string, b: string)
    requires ' ' !in a
    ensures CollapseDoubleSpaces(a + b) == a + CollapseDoubleSpaces(b)
    decreases |a|
  {
    if a != [] {
      assert (a + b)[1..] == a[1..] + b;
      assert ' ' !in a[1..];
      CollapseDoubleSpacesPrefix(a[1..], b);
      assert [a[0]] + a[1..] == a;
    } else {
      assert a + b == b;
    }
  }

  /** A lone space (one not followed by another) is kept by `CollapseDoubleSpaces`. */
  lemma CollapseDoubleSpacesLone(b: string)
    requires b == [] || b[0] != ' '
    ensures CollapseDoubleSpaces([' '] + b) == [' '] + CollapseDoubleSpaces(b)
  {
    assert ([' '] + b)[1..] == b;
  }

  /** Stripping a stripped string with one trailing space gives the string back. */
  lemma StripTrailingSpace(x: string)
    requires x != [] && IsStripped(x)
    ensures Strip(x + [' ']) == x
  {
    var y := x + [' '];
    assert TrimLeft(y) == y;
    assert y[..|y| - 1] == x;
    assert TrimRight(y) == TrimRight(x);
  }

  /** Ending in an offset `z`, the text before it is reformatted and `z` is put back. */
  lemma ReformatOffset(core: string, z: string)
    requires IsOffset(z)
    ensures Reformat(core + z) == ReplaceFirstSpace(Strip(core)) + z
  {
    var s := core + z;
    assert s[|s| - 6..] == z && s[..|s| - 6] == core;
  }

  /** The first space of a date part, a space and a time part is the one after the date. */
  lemma ReplaceFirstSpaceDateTime(d: string, t: string)
    requires ' ' !in d
    ensures ReplaceFirstSpace(d + " " + t) == d + "T" + t
  {
    var dt := d + " " + t;
    ReplaceFirstSpaceAt(dt, |d|);
    assert dt[..|d|] == d && dt[|d| + 1..] == t;
  }

  /** The reformatting of a date part, a space, a time part, an optional space and an offset. */
  lemma ReformatDateTime(d: string, t: string, gap: string, z: string)
    requires d != [] && ' ' !in d && IsStripped(d)
    requires t != [] && IsStripped(t)
    requires gap == "" || gap == " "
    requires IsOffset(z)
    ensures Reformat(d + " " + t + gap + z) == d + "T" + t + z
  {
    var dt := d + " " + t;
    assert d + " " + t + gap + z == (dt + gap) + z;
    ReformatOffset(dt + gap, z);
    if gap == "" {
      assert dt + gap == dt;
      StripStripped(dt);
    } else {
      StripTrailingSpace(dt);
    }
    ReplaceFirstSpaceDateTime(d, t);
  }

  lemma Regroup(d: string, t: string, w: string)
    ensures d + " " + t + w == d + ([' '] + (t + w))
  {
  }

  /** Words without spaces and single spaces between them pass `CollapseDoubleSpaces` untouched. */
  lemma CollapseDoubleSpacesWords(d: string, t: string, w: string)
    requires ' ' !in d && t != [] && ' ' !in t
    ensures CollapseDoubleSpaces(d + " " + t + w) == d + " " + t + CollapseDoubleSpaces(w)
  {
    Regroup(d, t, w);
    CollapseDoubleSpacesPrefix(d, [' '] + (t + w));
    assert (t + w)[0] == t[0];
    CollapseDoubleSpacesLone(t + w);
    CollapseDoubleSpacesPrefix(t, w);
    Regroup(d, t, CollapseDoubleSpaces(w));
  }

  /** The same for a date whose offset follows the time directly. */
  lemma PreparePlain(d: string, t: string, z: string)
    requires ' ' !in d && 'G' !in d
    requires t != [] && ' ' !in t && 'G' !in t
    requires IsOffset(z)
    ensures CollapseDoubleSpaces(DropGmt(d + " " + t + z)) == d + " " + t + z
  {
    OffsetChars(z);
    assert 'G' !in d + " " + t + z;
    DropGmtNoG(d + " " + t + z);
    CollapseDoubleSpacesWords(d, t, z);
    CollapseDoubleSpacesNoSpace(z);
  }

  /** A "GMT" right before an offset is deleted, and nothing else when no other `G` occurs. */
  lemma DropGmtBeforeOffset(a: string, z: string)
    requires 'G' !in a && IsOffset(z)
    ensures DropGmt(a + "GMT" + z) == a + z
  {
    OffsetChars(z);
    assert a + "GMT" + z == a + ("GMT" + z);
    DropGmtPrefix(a, "GMT" + z);
    assert ("GMT" + z)[3..] == z;
    DropGmtNoG(z);
  }

  /** Deleting "GMT" and halving double spaces in a date as the checker prints it. */
  lemma PrepareGmt(d: string, t: string, z: string)
    requires ' ' !in d && 'G' !in d
    requires t != [] && ' ' !in t && 'G' !in t
    requires IsOffset(z)
    ensures CollapseDoubleSpaces(DropGmt(d + " " + t + " GMT" + z)) == d + " " + t + " " + z
  {
    var a := d + " " + t + " ";
    assert 'G' !in a;
    assert d + " " + t + " GMT" + z == a + "GMT" + z;
    DropGmtBeforeOffset(a, z);
    assert a + z == d + " " + t + (" " + z);
    CollapseDoubleSpacesWords(d, t, " " + z);
    OffsetChars(z);
    CollapseDoubleSpacesLone(z);
    CollapseDoubleSpacesNoSpace(z);
  }

  /**
   * A date as the checker prints it ("2023-02-08 19:07:10 GMT+08:00", from its
   * date part, time part and offset) becomes "2023-02-08T19:07:10+08:00".
   */
  lemma NormalizeDateGmt(d: string, t: string, z: string)
    requires d != [] && ' ' !in d && 'G' !in d && IsStripped(d)
    requires t != [] && ' ' !in t && 'G' !in t && IsStripped(t)
    requires IsOffset(z)
    ensures NormalizeDate(Some(d + " " + t + " GMT" + z)) == Some(d + "T" + t + z)
  {
    var txt := d + " " + t + " GMT" + z;
    assert txt[0] == d[0] && txt[|txt| - 1] == z[5];
    StripStripped(txt);
    NormalizeDateSteps(txt);
    PrepareGmt(d, t, z);
    ReformatDateTime(d, t, " ", z);
  }

  /** The same without "GMT" ("2025-04-09 20:50:26+08:00" becomes "2025-04-09T20:50:26+08:00"). */
  lemma NormalizeDatePlain(d: string, t: string, z: string)
    requires d != [] && ' ' !in d && 'G' !in d && IsStripped(d)
    requires t != [] && ' ' !in t && 'G' !in t && IsStripped(t)
    requires IsOffset(z)
    ensures NormalizeDate(Some(d + " " + t + z)) == Some(d + "T" + t + z)
  {
    var txt := d + " " + t + z;
    assert txt[0] == d[0] && txt[|txt| - 1] == z[5];
    StripStripped(txt);
    NormalizeDateSteps(txt);
    PreparePlain(d, t, z);
    var dt := d + " " + t;
    assert dt + "" == dt;
    ReformatDateTime(d, t, "", z);
  }

  lemma NormalizeDateSteps(txt: string)
    requires |Prepared(txt)| > 0 || txt != ""
    ensures NormalizeDate(Some(txt)) == Some(Reformat(Prepared(txt)))
  {
  }
}
