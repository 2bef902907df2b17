/**
 * The two line helpers of scripts/check_certificates.py: `split_kv`, which cuts
 * a line at its first colon, and `clean_value`, which normalises whitespace.
 */
module KeyValue {
  import opened Wrappers
  import opened Text

  /** The separators of `split_kv`: the ASCII colon and the full-width colon U+FF1A. */
  predicate IsColon(c: char) {
    c == ':' || c == '\U{FF1A}'
  }

  /** Index of the first colon of either kind, if any. */
  function FindColon(s: string): (r: Option<nat>)
    ensures r.Some? ==> (r.value < |s| && IsColon(s[r.value]) &&
      forall t :: 0 <= t < r.value ==> !IsColon(s[t]))
    ensures r.None? ==> forall t :: 0 <= t < |s| ==> !IsColon(s[t])
  {
    if s == [] then None
    else if IsColon(s[0]) then Some(0)
    else match FindColon(s[1..])
      case None => None
      case Some(k) => Some(k + 1)
  }

  /** `c` is the position of the first colon of `s`. */
  predicate FirstColonAt(s: string, c: int) {
    0 <= c < |s| && IsColon(s[c]) && forall t :: 0 <= t < c ==> !IsColon(s[t])
  }

  /** The first colon is unique, so `FindColon` finds exactly it. */
  lemma FindColonFirst(s: string, c: int)
    requires FirstColonAt(s, c)
    ensures FindColon(s) == Some(c)
  {
  }

  /**
   * `re.split(r'[:：]\s*', line, maxsplit=1)` when it yields two parts: the text
   * before the first colon, and the text after it with the whitespace the
   * separator pattern swallows removed. `None` when the line has no colon.
   */
  function SplitAtColon(line: string): (r: Option<(string, string)>)
    ensures r.None? <==> forall t :: 0 <= t < |line| ==> !IsColon(line[t])
    ensures r.Some? ==> forall ch :: ch in r.value.0 ==> !IsColon(ch)
  {
    match FindColon(line)
    case None => None
    case Some(c) =>
      assert forall ch :: ch in line[..c] ==> !IsColon(ch);
      Some((line[..c], TrimLeft(line[c + 1..])))
  }

  /** `split_kv(line)`: key and value, both stripped; the key holds no colon. */
  function SplitKv(line: string): (r: (string, string))
    ensures ':' !in r.0 && '\U{FF1A}' !in r.0
    ensures IsStripped(r.0) && IsStripped(r.1)
    ensures (forall t :: 0 <= t < |line| ==> !IsColon(line[t])) ==> r == (Strip(line), "")
  {
    var parts := SplitAtColon(line);
    if parts.None? then
      StripSubset(line);
      (Strip(line), "")
    else
      StripSubset(parts.value.0);
      (Strip(parts.value.0), Strip(parts.value.1))
  }

  /** With a colon present, `split_kv` cuts at the first one only and strips both halves. */
  lemma SplitKvAtFirstColon(line: string, c: int)
    requires FirstColonAt(line, c)
    ensures SplitKv(line) == (Strip(line[..c]), Strip(line[c + 1..]))
  {
    FindColonFirst(line, c);
    StripTrimLeft(line[c + 1..]);
  }

  /** Every whitespace character is a plain space and no two are adjacent. */
  ghost predicate SingleSpaced(s: string) {
    (forall i :: 0 <= i < |s| && IsSpace(s[i]) ==> s[i] == ' ') &&
    (forall i, j :: 0 <= i < j < |s| && j == i + 1 ==> !(IsSpace(s[i]) && IsSpace(s[j])))
  }

  /** The normal form of `clean_value` and of every extracted line. */
  ghost predicate Normalized(s: string) {
    SingleSpaced(s) && IsStripped(s)
  }

  lemma SingleSpacedCons(c: char, t: string)
    requires SingleSpaced(t)
    requires IsSpace(c) ==> c == ' ' && (t == [] || !IsSpace(t[0]))
    ensures SingleSpaced([c] + t)
  {
    var r := [c] + t;
    forall i | 0 < i < |r| ensures r[i] == t[i - 1] { }
  }

  lemma BlankCons(c: char, t: string)
    ensures Blank([c] + t) <==> IsSpace(c) && Blank(t)
  {
    var r := [c] + t;
    forall i | 0 < i < |r| ensures r[i] == t[i - 1] { }
    if IsSpace(c) && Blank(t) {
      forall i | 0 <= i < |r| ensures IsSpace(r[i]) { if i > 0 { assert r[i] == t[i - 1]; } }
    }
    if Blank(r) {
      assert IsSpace(r[0]);
      forall i | 0 <= i < |t| ensures IsSpace(t[i]) { assert r[i + 1] == t[i]; }
    }
  }

  /** Leading whitespace is all that `TrimLeft` drops, so a string is blank exactly when its trimmed rest is. */
  lemma BlankTrimLeft(s: string)
    ensures Blank(TrimLeft(s)) <==> Blank(s)
  {
    var t := TrimLeft(s);
    if t != [] { assert s[|s| - |t|] == t[0]; }
  }

  /** `re.sub(r'\s+', ' ', s)`: every maximal run of whitespace becomes one space. */
  function Collapse(s: string): (r: string)
    ensures |r| == 0 <==> |s| == 0
    ensures |s| > 0 ==> (IsSpace(r[0]) <==> IsSpace(s[0]))
    ensures SingleSpaced(r)
    ensures Blank(r) <==> Blank(s)
    decreases |s|
  {
    if s == [] then []
    else if IsSpace(s[0]) then
      var t := TrimLeft(s);
      BlankTrimLeft(s);
      SingleSpacedCons(' ', Collapse(t));
      BlankCons(' ', Collapse(t));
      [' '] + Collapse(t)
    else
      SingleSpacedCons(s[0], Collapse(s[1..]));
      BlankCons(s[0], Collapse(s[1..]));
      BlankCons(s[0], s[1..]);
      assert [s[0]] + s[1..] == s;
      [s[0]] + Collapse(s[1..])
  }

  /** `Collapse` on a string opening with whitespace: one space, then the rest after the run. */
  lemma CollapseSpaceStep(s: string)
    requires s != [] && IsSpace(s[0])
    ensures Collapse(s) == [' '] + Collapse(TrimLeft(s))
  {
  }

  /** `Collapse` on a string opening with a word character: that character, then the rest. */
  lemma CollapseWordStep(s: string)
    requires s != [] && !IsSpace(s[0])
    ensures Collapse(s) == [s[0]] + Collapse(s[1..])
  {
  }

  /** Leading whitespace of `x` is all `lstrip` sees when `x` holds a non-space character. */
  lemma {:induction false} TrimLeftAppend(x: string, y: string)
    requires !Blank(x)
    ensures TrimLeft(x + y) == TrimLeft(x) + y
    decreases |x|
  {
    if IsSpace(x[0]) {
      assert !Blank(x[1..]) by {
        var i :| 0 <= i < |x| && !IsSpace(x[i]);
        assert x[1..][i - 1] == x[i];
      }
      assert (x + y)[1..] == x[1..] + y;
      TrimLeftAppend(x[1..], y);
    }
  }

  /** `lstrip` of a blank run followed by a word is the word. */
  lemma {:induction false} TrimLeftBlankPrefix(w: string, b: string)
    requires Blank(w)
    requires b == [] || !IsSpace(b[0])
    ensures TrimLeft(w + b) == b
    decreases |w|
  {
    if w == [] {
      assert w + b == b;
    } else {
      assert (w + b)[1..] == w[1..] + b;
      TrimLeftBlankPrefix(w[1..], b);
    }
  }

  /** A cut after a non-space character is not inside a whitespace run, so `Collapse` works on both sides alone. */
  lemma {:induction false} CollapseAppend(x: string, y: string)
    requires x == [] || !IsSpace(x[|x| - 1])
    ensures Collapse(x + y) == Collapse(x) + Collapse(y)
    decreases |x|
  {
    if x == [] {
      assert x + y == y;
    } else if IsSpace(x[0]) {
      var t := TrimLeft(x);
      assert !Blank(x);
      TrimLeftAppend(x, y);
      BlankTrimLeft(x);
      assert t[|t| - 1] == x[|x| - 1];
      CollapseAppend(t, y);
      CollapseSpaceStep(x);
      CollapseSpaceStep(x + y);
      AppendAssoc([' '], Collapse(t), Collapse(y));
    } else {
      assert (x + y)[1..] == x[1..] + y;
      CollapseAppend(x[1..], y);
      CollapseWordStep(x);
      CollapseWordStep(x + y);
      AppendAssoc([x[0]], Collapse(x[1..]), Collapse(y));
    }
  }

  /**
   * `re.sub(r'\s+', ' ', ...)` on a maximal whitespace run between two words:
   * the run, whatever it holds, becomes exactly one space.
   */
  lemma CollapseRun(a: string, w: string, b: string)
    requires a == [] || !IsSpace(a[|a| - 1])
    requires w != [] && Blank(w)
    requires b == [] || !IsSpace(b[0])
    ensures Collapse(a + w + b) == Collapse(a) + [' '] + Collapse(b)
  {
    AppendAssoc(a, w, b);
    CollapseAppend(a, w + b);
    TrimLeftBlankPrefix(w, b);
    CollapseSpaceStep(w + b);
    AppendAssoc(Collapse(a), [' '], Collapse(b));
  }

  /** `Collapse` changes whitespace only: the other characters survive, in order. */
  lemma {:induction false} CollapseKeepsWords(s: string)
    ensures NonSpace(Collapse(s)) == NonSpace(s)
    decreases |s|
  {
    if s != [] {
      if IsSpace(s[0]) {
        var t := TrimLeft(s);
        var p := s[..|s| - |t|];
        assert s == p + t;
        NonSpaceAppend(p, t);
        NonSpaceBlank(p);
        CollapseKeepsWords(t);
        NonSpaceAppend([' '], Collapse(t));
      } else {
        CollapseKeepsWords(s[1..]);
        NonSpaceAppend([s[0]], Collapse(s[1..]));
      }
    }
  }

  /** A single-spaced string is left as it is by `Collapse`. */
  lemma {:induction false} CollapseSingleSpaced(s: string)
    requires SingleSpaced(s)
    ensures Collapse(s) == s
    decreases |s|
  {
    if s != [] {
      assert SingleSpaced(s[1..]);
      if IsSpace(s[0]) {
        assert TrimLeft(s) == s[1..] by {
          if |s| > 1 { assert !IsSpace(s[1]); }
        }
      }
      CollapseSingleSpaced(s[1..]);
      assert [s[0]] + s[1..] == s;
    }
  }

  /** A slice of a single-spaced string is single-spaced. */
  lemma SingleSpacedSlice(s: string, a: int, b: int, r: string)
    requires SingleSpaced(s) && 0 <= a <= b <= |s| && r == s[a..b]
    ensures SingleSpaced(r)
  {
    forall i | 0 <= i < |r| ensures r[i] == s[a + i] { }
  }

  /** Stripping keeps a string single-spaced. */
  lemma StripSingleSpaced(s: string)
    requires SingleSpaced(s)
    ensures SingleSpaced(Strip(s))
  {
    var l := TrimLeft(s);
    SingleSpacedSlice(s, |s| - |l|, |s|, l);
    SingleSpacedSlice(l, 0, |TrimRight(l)|, TrimRight(l));
  }

  /** `clean_value(raw)`: `None` becomes "", otherwise whitespace runs collapse to one space and the ends are stripped. */
  function CleanValue(raw: Option<string>): (r: string)
    ensures Normalized(r)
    ensures raw.None? ==> r == ""
    ensures raw.Some? ==> (r == "" <==> Blank(raw.value))
  {
    match raw
    case None => ""
    case Some(s) =>
      var c := Collapse(s);
      StripSingleSpaced(c);
      Strip(c)
  }

  /** `clean_value` is idempotent: a cleaned value is its own normal form. */
  lemma CleanValueIdempotent(raw: Option<string>)
    ensures CleanValue(Some(CleanValue(raw))) == CleanValue(raw)
  {
    var v := CleanValue(raw);
    CollapseSingleSpaced(v);
    StripStripped(v);
  }

  /** A normalised string is its own clean value. */
  lemma CleanValueFixpoint(s: string)
    requires Normalized(s)
    ensures CleanValue(Some(s)) == s
  {
    CollapseSingleSpaced(s);
    StripStripped(s);
  }

  /** `clean_value` changes whitespace only: the other characters of the raw value survive, in order. */
  lemma CleanValueKeepsWords(s: string)
    ensures NonSpace(CleanValue(Some(s))) == NonSpace(s)
  {
    CollapseKeepsWords(s);
    NonSpaceStrip(Collapse(s));
  }
}
