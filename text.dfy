/** Option, the stand-in for Python's `None`. */
module Wrappers {
  datatype Option<+T> = None | Some(value: T)
}

/**
 * String primitives the checker script uses through Python's str methods:
 * strip, lower, startswith, `in`, split, join and replace.
 */
module Text {

  /** Python's `str.isspace()` (and the `\s` class of `re` on str patterns). */
  predicate IsSpace(c: char) {
    c == ' ' || ('\t' <= c <= '\r') || ('\U{1C}' <= c <= '\U{1F}') ||
    c == '\U{85}' || c == '\U{A0}' || c == '\U{1680}' ||
    ('\U{2000}' <= c <= '\U{200A}') || c == '\U{2028}' || c == '\U{2029}' ||
    c == '\U{202F}' || c == '\U{205F}' || c == '\U{3000}'
  }

  /** ASCII digit (the model's reading of `\d`). */
  predicate IsDigit(c: char) {
    '0' <= c <= '9'
  }

  /** `s.lstrip()`: drops leading whitespace; the result is a suffix of `s`. */
  function TrimLeft(s: string): (r: string)
    ensures |r| <= |s| && r == s[|s| - |r|..]
    ensures r == [] || !IsSpace(r[0])
    ensures forall i :: 0 <= i < |s| - |r| ==> IsSpace(s[i])
  {
    if s != [] && IsSpace(s[0]) then TrimLeft(s[1..]) else s
  }

  /** `s.rstrip()`: drops trailing whitespace; the result is a prefix of `s`. */
  function TrimRight(s: string): (r: string)
    ensures |r| <= |s| && r == s[..|r|]
    ensures r == [] || !IsSpace(r[|r| - 1])
    ensures forall i :: |r| <= i < |s| ==> IsSpace(s[i])
  {
    if s != [] && IsSpace(s[|s| - 1]) then TrimRight(s[..|s| - 1]) else s
  }

  /** Whitespace only (or empty). */
  predicate Blank(s: string) {
    forall i :: 0 <= i < |s| ==> IsSpace(s[i])
  }

  /** No whitespace at either end. */
  predicate IsStripped(s: string) {
    s == [] || (!IsSpace(s[0]) && !IsSpace(s[|s| - 1]))
  }

  /** `s.strip()`: the result is the slice of `s` between its leading and trailing whitespace. */
  function Strip(s: string): (r: string)
    ensures IsStripped(r)
    ensures r == [] <==> Blank(s)
  {
    TrimRight(TrimLeft(s))
  }

  /** The non-whitespace characters of `s`, in order. */
  function NonSpace(s: string): (r: string)
    ensures |r| <= |s|
  {
    if s == [] then [] else (if IsSpace(s[0]) then [] else [s[0]]) + NonSpace(s[1..])
  }

  lemma {:induction false} NonSpaceAppend(a: string, b: string)
    ensures NonSpace(a + b) == NonSpace(a) + NonSpace(b)
    decreases |a|
  {
    if a == [] {
      assert a + b == b;
    } else {
      assert (a + b)[1..] == a[1..] + b;
      NonSpaceAppend(a[1..], b);
    }
  }

  lemma {:induction false} NonSpaceBlank(s: string)
    requires Blank(s)
    ensures NonSpace(s) == []
    decreases |s|
  {
    if s != [] {
      NonSpaceBlank(s[1..]);
    }
  }

  /** `lstrip()` removes whitespace only. */
  lemma NonSpaceTrimLeft(s: string)
    ensures NonSpace(TrimLeft(s)) == NonSpace(s)
  {
    var l := TrimLeft(s);
    var p := s[..|s| - |l|];
    assert s == p + l;
    NonSpaceAppend(p, l);
    NonSpaceBlank(p);
  }

  /** `rstrip()` removes whitespace only. */
  lemma NonSpaceTrimRight(s: string)
    ensures NonSpace(TrimRight(s)) == NonSpace(s)
  {
    var r := TrimRight(s);
    var q := s[|r|..];
    assert s == r + q;
    NonSpaceAppend(r, q);
    NonSpaceBlank(q);
    assert NonSpace(r) + [] == NonSpace(r);
  }

  /** `strip()` removes whitespace only: every other character survives, in order. */
  lemma NonSpaceStrip(s: string)
    ensures NonSpace(Strip(s)) == NonSpace(s)
  {
    NonSpaceTrimLeft(s);
    NonSpaceTrimRight(TrimLeft(s));
  }

  /** `strip()` returns a slice of its argument: character `k` of the result is character `a + k` of `s`. */
  lemma StripSlice(s: string)
    ensures |Strip(s)| <= |TrimLeft(s)| && Strip(s) == s[|s| - |TrimLeft(s)|..][..|Strip(s)|]
  {
    assert Strip(s) == TrimRight(TrimLeft(s));
  }

  /** So it adds no character. */
  lemma StripSubset(s: string)
    ensures forall c :: c in Strip(s) ==> c in s
  {
    StripSlice(s);
    SliceMembers(s, |s| - |TrimLeft(s)|, |Strip(s)|);
  }

  /** Every element of a slice is an element of the whole. */
  lemma SliceMembers<T>(s: seq<T>, a: nat, n: nat)
    requires a + n <= |s|
    ensures forall c :: c in s[a..][..n] ==> c in s
  {
    forall c | c in s[a..][..n]
      ensures c in s
    {
      var k :| 0 <= k < n && s[a..][..n][k] == c;
      assert s[a + k] == c;
    }
  }

  /** Stripping a stripped string changes nothing. */
  lemma StripStripped(s: string)
    requires IsStripped(s)
    ensures Strip(s) == s
  {
  }

  /** `strip()` after `lstrip()` is `strip()`. */
  lemma StripTrimLeft(s: string)
    ensures Strip(TrimLeft(s)) == Strip(s)
  {
  }

  /** ASCII part of `str.lower()`. */
  function LowerChar(c: char): (r: char)
    ensures 'A' <= c <= 'Z' ==> 'a' <= r <= 'z'
    ensures !('A' <= c <= 'Z') ==> r == c
  {
    if 'A' <= c <= 'Z' then (c as int + 32) as char else c
  }

  /** `s.lower()`, ASCII letters only; the length is kept. */
  function Lower(s: string): (r: string)
    ensures |r| == |s|
  {
    if s == [] then [] else [LowerChar(s[0])] + Lower(s[1..])
  }

  /** `lower()` works character by character. */
  lemma {:induction false} LowerAt(s: string)
    ensures forall i :: 0 <= i < |s| ==> Lower(s)[i] == LowerChar(s[i])
  {
    if s != [] {
      LowerAt(s[1..]);
    }
  }

  /** `s.startswith(p)`. */
  predicate StartsWith(s: string, p: string) {
    |p| <= |s| && s[..|p|] == p
  }

  /** `p` occurs in `s` starting at index `i`. */
  predicate OccursAt(s: string, p: string, i: int) {
    0 <= i <= |s| - |p| && s[i..i + |p|] == p
  }

  /** `p in s`: `p` occurs as a contiguous slice of `s`. */
  predicate Contains(s: string, p: string) {
    exists i :: 0 <= i <= |s| - |p| && OccursAt(s, p, i)
  }

  /** A case-insensitive search for a lower-case literal (`re.search(p, s, re.I)`). */
  predicate ContainsCI(s: string, p: string) {
    Contains(Lower(s), p)
  }

  /** A non-empty prefix fixes the first character. */
  lemma StartsWithHead(s: string, q: string)
    requires q != [] && StartsWith(s, q)
    ensures s != [] && s[0] == q[0]
  {
    assert s[..|q|][0] == s[0];
  }

  /** A string whose first character differs from a prefix's does not start with it. */
  lemma NotStartsWith(s: string, q: string)
    requires s != [] && q != [] && s[0] != q[0]
    ensures !StartsWith(s, q)
  {
  }

  lemma AppendAssoc<T>(a: seq<T>, b: seq<T>, c: seq<T>)
    ensures a + b + c == a + (b + c)
  {
  }

  /** Number of occurrences of `c` in `s`. */
  function CountChar(s: string, c: char): nat {
    if s == [] then 0 else (if s[0] == c then 1 else 0) + CountChar(s[1..], c)
  }

  lemma CountCharAbsent(s: string, c: char)
    requires c !in s
    ensures CountChar(s, c) == 0
  {
    if s != [] {
      assert c !in s[1..];
      CountCharAbsent(s[1..], c);
    }
  }

  /**
   * `s.split(c)` for a one-character separator: the pieces between separators,
   * always at least one, none containing the separator.
   */
  function Split(s: string, c: char): (r: seq<string>)
    ensures |r| == CountChar(s, c) + 1
    ensures forall p <- r :: c !in p
  {
    if s == [] then [[]]
    else
      var rest := Split(s[1..], c);
      if s[0] == c then [[]] + rest
      else [[s[0]] + rest[0]] + rest[1..]
  }

  /** `c.join(ps)`; Python joins an empty list to the empty string. */
  function Join(ps: seq<string>, c: char): string
    decreases |ps|
  {
    if ps == [] then []
    else if |ps| == 1 then ps[0]
    else ps[0] + [c] + Join(ps[1..], c)
  }

  /** Joining what `split` produced gives back the original string. */
  lemma {:induction false} JoinSplit(s: string, c: char)
    ensures Join(Split(s, c), c) == s
  {
    if s != [] {
      var rest := Split(s[1..], c);
      JoinSplit(s[1..], c);
      if s[0] == c {
        assert Split(s, c) == [[]] + rest;
        assert ([[]] + rest)[1..] == rest;
      } else {
        var r := Split(s, c);
        assert r[0] == [s[0]] + rest[0] && r[1..] == rest[1..];
        if |rest| > 1 {
          assert rest == [rest[0]] + rest[1..];
        }
      }
    }
  }

  /** Splitting `a + c + t`, where `a` has no separator, splits off `a` first. */
  lemma {:induction false} SplitCons(a: string, t: string, c: char)
    requires c !in a
    ensures Split(a + [c] + t, c) == [a] + Split(t, c)
  {
    if a == [] {
      assert a + [c] + t == [c] + t;
      assert ([c] + t)[1..] == t;
    } else {
      assert (a + [c] + t)[1..] == a[1..] + [c] + t;
      SplitCons(a[1..], t, c);
      assert [a[0]] + a[1..] == a;
    }
  }

  /** Splitting a join of separator-free pieces gives the pieces back. */
  lemma {:induction false} SplitJoin(ps: seq<string>, c: char)
    requires |ps| >= 1
    requires forall p <- ps :: c !in p
    ensures Split(Join(ps, c), c) == ps
  {
    if |ps| > 1 {
      SplitJoin(ps[1..], c);
      SplitCons(ps[0], Join(ps[1..], c), c);
      assert [ps[0]] + ps[1..] == ps;
    } else {
      assert ps == [ps[0]];
      SplitNoSeparator(ps[0], c);
    }
  }

  lemma {:induction false} SplitNoSeparator(s: string, c: char)
    requires c !in s
    ensures Split(s, c) == [s]
  {
    if s != [] {
      assert c !in s[1..];
      SplitNoSeparator(s[1..], c);
      assert [s[0]] + s[1..] == s;
    }
  }

  /** `s.replace(' ', 'T', 1)`: the first space, and only it, becomes `T`. */
  function ReplaceFirstSpace(s: string): (r: string)
    ensures |r| == |s|
    ensures forall c :: c in r ==> c in s || c == 'T'
  {
    if s == [] then []
    else if s[0] == ' ' then ['T'] + s[1..]
    else [s[0]] + ReplaceFirstSpace(s[1..])
  }

  /** With its first space at `k`, exactly that character is replaced. */
  lemma {:induction false} ReplaceFirstSpaceAt(s: string, k: int)
    requires 0 <= k < |s| && s[k] == ' '
    requires forall j :: 0 <= j < k ==> s[j] != ' '
    ensures ReplaceFirstSpace(s) == s[..k] + ['T'] + s[k + 1..]
  {
    if k > 0 {
      ReplaceFirstSpaceAt(s[1..], k - 1);
      assert s[..k] == [s[0]] + s[1..][..k - 1];
    }
  }

  /** Without a space nothing is replaced. */
  lemma {:induction false} ReplaceFirstSpaceNone(s: string)
    requires ' ' !in s
    ensures ReplaceFirstSpace(s) == s
  {
    if s != [] {
      assert ' ' !in s[1..];
      ReplaceFirstSpaceNone(s[1..]);
      assert [s[0]] + s[1..] == s;
    }
  }
}
