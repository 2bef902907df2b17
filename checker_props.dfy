/**
 * What the line scanner of `parse_checker_html` guarantees: where the binding
 * section ends and which entries it yields, what the permission dictionary
 * holds, which line each date comes from, and that the cursor only moves forward.
 */
module CheckerProps {
  import opened Wrappers
  import opened Text
  import opened KeyValue
  import opened Dates
  import opened Checker

  // ---------- Binding Certificates ----------

  /** An entry scan covers no header line and stops at a header, at the end, or at a key naming a following section. */
  lemma {:induction false} ScanEntryStops(lines: seq<string>, j2: nat, e: BindingCert)
    requires j2 <= |lines|
    ensures var r := ScanEntry(lines, j2, e);
      (forall t :: j2 <= t < r.stop ==> !IsCertHeader(lines[t])) &&
      (r.stop == |lines| || IsCertHeader(lines[r.stop]) || IsTerminator(SplitKv(lines[r.stop]).0))
    decreases |lines| - j2
  {
    var r := ScanEntry(lines, j2, e);
    if j2 < |lines| && !IsCertHeader(lines[j2]) && EntryArmOf(lines[j2]) != StopLine {
      var e' := Fill(e, lines[j2]);
      ScanEntryStep(lines, j2, e, e');
      ScanEntryStops(lines, j2 + 1, e');
      var h := lines[j2];
      forall t | j2 <= t < r.stop ensures !IsCertHeader(lines[t]) {
        if t == j2 {
          assert lines[t] == h && !IsCertHeader(h);
        }
      }
    } else {
      ScanEntryHalt(lines, j2, e);
    }
  }

  /** One line inside an entry that is neither a header nor a stop line is filled in and the scan moves on. */
  lemma ScanEntryStep(lines: seq<string>, j2: nat, e: BindingCert, e': BindingCert)
    requires j2 < |lines| && !IsCertHeader(lines[j2]) && EntryArmOf(lines[j2]) != StopLine
    requires e' == Fill(e, lines[j2])
    ensures ScanEntry(lines, j2, e) == ScanEntry(lines, j2 + 1, e')
  {
  }

  /** The entry scan stops at the end, at a header, or at a stop line, with the entry as it is. */
  lemma ScanEntryHalt(lines: seq<string>, j2: nat, e: BindingCert)
    requires j2 <= |lines|
    requires j2 == |lines| || IsCertHeader(lines[j2]) || EntryArmOf(lines[j2]) == StopLine
    ensures ScanEntry(lines, j2, e) == EntryScan(j2, e)
  {
  }

  /** A binding section ends at the end of the lines or at a non-header line naming a following section. */
  lemma {:induction false} SectionEnds(lines: seq<string>, j: nat)
    requires j <= |lines|
    ensures var r := Section(lines, j);
      r.end < |lines| ==> IsTerminator(lines[r.end]) && !IsCertHeader(lines[r.end])
    decreases |lines| - j
  {
    if j < |lines| {
      if IsCertHeader(lines[j]) {
        SectionEnds(lines, ScanEntry(lines, j + 1, EmptyEntry).stop);
      } else if !IsTerminator(lines[j]) {
        SectionEnds(lines, j + 1);
      }
    }
  }

  /** The header lines in `[a, b)`, in order. */
  function Headers(lines: seq<string>, a: nat, b: nat): (hs: seq<nat>)
    requires a <= b <= |lines|
    ensures forall t :: 0 <= t < |hs| ==> a <= hs[t] < b && IsCertHeader(lines[hs[t]])
    decreases b - a
  {
    if a == b then []
    else (if IsCertHeader(lines[a]) then [a] else []) + Headers(lines, a + 1, b)
  }

  /** The entry a header at `h` yields: the entry scan from the line after it. */
  function EntryFor(lines: seq<string>, h: nat): BindingCert {
    if h < |lines| then ScanEntry(lines, h + 1, EmptyEntry).entry else EmptyEntry
  }

  /** The entries a list of headers yields, in order. */
  function EntriesAt(lines: seq<string>, hs: seq<nat>): (es: seq<BindingCert>)
    ensures |es| == |hs|
  {
    if hs == [] then [] else [EntryFor(lines, hs[0])] + EntriesAt(lines, hs[1..])
  }

  /** The entries of a header list that starts with `h`. */
  lemma EntriesAtCons(lines: seq<string>, h: nat, hs: seq<nat>)
    ensures EntriesAt(lines, [h] + hs) == [EntryFor(lines, h)] + EntriesAt(lines, hs)
  {
    assert ([h] + hs)[1..] == hs;
  }

  lemma {:induction false} HeadersSkip(lines: seq<string>, a: nat, c: nat, b: nat)
    requires a <= c <= b <= |lines|
    requires forall t :: a <= t < c ==> !IsCertHeader(lines[t])
    ensures Headers(lines, a, b) == Headers(lines, c, b)
    decreases c - a
  {
    if a < c {
      assert !IsCertHeader(lines[a]);
      assert Headers(lines, a, b) == [] + Headers(lines, a + 1, b);
      HeadersSkip(lines, a + 1, c, b);
    }
  }

  /**
   * The binding section yields one entry per header line before its end, in
   * input order, each the entry scan that follows its header.
   */
  lemma {:induction false} SectionEntries(lines: seq<string>, j: nat)
    requires j <= |lines|
    ensures var r := Section(lines, j);
      r.entries == EntriesAt(lines, Headers(lines, j, r.end))
    decreases |lines| - j
  {
    var r := Section(lines, j);
    if j == |lines| {
      assert r == SectionScan(j, []);
    } else if IsCertHeader(lines[j]) {
      var es := ScanEntry(lines, j + 1, EmptyEntry);
      SectionEntries(lines, es.stop);
      SectionHeaderStep(lines, j, es, Section(lines, es.stop));
    } else if IsTerminator(lines[j]) {
      assert r == SectionScan(j, []);
    } else {
      assert r == Section(lines, j + 1);
      SectionEntries(lines, j + 1);
      assert Headers(lines, j, r.end) == Headers(lines, j + 1, r.end);
    }
  }

  /** At a header, the section is that header's entry followed by the section from where its scan stops. */
  lemma SectionAtHeader(lines: seq<string>, j: nat, j2: nat, entry: BindingCert)
    requires j < |lines| && IsCertHeader(lines[j])
    requires EntryScan(j2, entry) == ScanEntry(lines, j + 1, EmptyEntry)
    ensures Section(lines, j) == SectionScan(Section(lines, j2).end, [entry] + Section(lines, j2).entries)
  {
  }

  /** At a terminator line, the section ends there with no entry. */
  lemma SectionAtTerminator(lines: seq<string>, j: nat)
    requires j < |lines| && !IsCertHeader(lines[j]) && IsTerminator(lines[j])
    ensures Section(lines, j) == SectionScan(j, [])
  {
  }

  /** Any other line is skipped. */
  lemma SectionSkip(lines: seq<string>, j: nat)
    requires j < |lines| && !IsCertHeader(lines[j]) && !IsTerminator(lines[j])
    ensures Section(lines, j) == Section(lines, j + 1)
  {
  }

  /** A header opens one entry, followed by the entries of the rest of the section. */
  lemma SectionHeaderStep(lines: seq<string>, j: nat, es: EntryScan, rest: SectionScan)
    requires j < |lines| && IsCertHeader(lines[j])
    requires es == ScanEntry(lines, j + 1, EmptyEntry) && rest == Section(lines, es.stop)
    requires rest.entries == EntriesAt(lines, Headers(lines, es.stop, rest.end))
    ensures var r := Section(lines, j);
      r.entries == EntriesAt(lines, Headers(lines, j, r.end))
  {
    assert Section(lines, j) == SectionScan(rest.end, [es.entry] + rest.entries);
    HeadersOfEntry(lines, j, rest.end);
    assert EntryFor(lines, j) == es.entry;
    EntriesAtCons(lines, j, Headers(lines, es.stop, rest.end));
  }

  /** The headers from a header line on: that line, then those from where its entry scan stops. */
  lemma HeadersOfEntry(lines: seq<string>, j: nat, b: nat)
    requires j < |lines| && IsCertHeader(lines[j])
    requires ScanEntry(lines, j + 1, EmptyEntry).stop <= b <= |lines|
    ensures Headers(lines, j, b) == [j] + Headers(lines, ScanEntry(lines, j + 1, EmptyEntry).stop, b)
  {
    ScanEntryStops(lines, j + 1, EmptyEntry);
    HeadersAfterHeader(lines, j, ScanEntry(lines, j + 1, EmptyEntry).stop, b);
  }

  /** The headers from a header line on: that line, then those after a stretch without headers. */
  lemma HeadersAfterHeader(lines: seq<string>, j: nat, c: nat, b: nat)
    requires j < c <= b <= |lines| && IsCertHeader(lines[j])
    requires forall t :: j + 1 <= t < c ==> !IsCertHeader(lines[t])
    ensures Headers(lines, j, b) == [j] + Headers(lines, c, b)
  {
    HeadersSkip(lines, j + 1, c, b);
  }

  // ---------- Permission Status ----------

  /** Assigning into a dictionary keeps its keys unique. */
  lemma PutUnique(m: Perms, k: string, v: string)
    requires UniqueKeys(m)
    ensures UniqueKeys(Put(m, k, v))
  {
    var ks := Keys(m);
    if k !in ks {
      var ks' := ks + [k];
      forall a, b | 0 <= a < b < |ks'| ensures ks'[a] != ks'[b] {
        if b == |ks| {
          assert ks'[a] == ks[a];
        }
      }
    }
  }

  /** The permission dictionary never holds a key twice. */
  lemma {:induction false} PermissionsUnique(lines: seq<string>, j: nat, m: Perms)
    requires j <= |lines|
    requires UniqueKeys(m)
    ensures UniqueKeys(Permissions(lines, j, m))
    decreases |lines| - j
  {
    if j < |lines| && !ContainsCI(lines[j], "devices limit") {
      var pair := PermPair(lines[j]);
      if pair.Some? {
        PutUnique(m, pair.value.0, pair.value.1);
      }
      PermissionsUnique(lines, j + 1, PutLine(m, lines[j]));
    }
  }

  /** What the lines in `[a, b)` contribute to the permission dictionary, one optional pair per line. */
  function PermPairs(lines: seq<string>, a: nat, b: nat): (ps: seq<Option<(string, string)>>)
    requires a <= b <= |lines|
    ensures |ps| == b - a
    ensures forall t :: 0 <= t < b - a ==> ps[t] == PermPair(lines[a + t])
  {
    seq(b - a, t requires 0 <= t < b - a => PermPair(lines[a + t]))
  }

  /** The value of the last pair with key `k`, if any. */
  function LastValue(ps: seq<Option<(string, string)>>, k: string): Option<string> {
    if ps == [] then None
    else
      var p := ps[|ps| - 1];
      if p.Some? && p.value.0 == k then Some(p.value.1) else LastValue(ps[..|ps| - 1], k)
  }

  /** Reading `LastValue` from the front: a later pair takes precedence over the first. */
  lemma {:induction false} LastValueFront(ps: seq<Option<(string, string)>>, k: string)
    requires ps != []
    ensures LastValue(ps, k) ==
      var rest := LastValue(ps[1..], k);
      if rest.Some? then rest else if ps[0].Some? && ps[0].value.0 == k then Some(ps[0].value.1) else None
  {
    if |ps| > 1 {
      var init := ps[..|ps| - 1];
      LastValueFront(init, k);
      assert init[1..] == ps[1..][..|ps[1..]| - 1];
    }
  }

  /**
   * `perms[k]` after the permission loop from `j`: the value of the last line
   * before the stop line whose key is `k`, and otherwise what `m` held.
   */
  lemma {:induction false} PermissionsLookup(lines: seq<string>, j: nat, m: Perms, k: string)
    requires j <= |lines|
    ensures Lookup(Permissions(lines, j, m), k) ==
      var last := LastValue(PermPairs(lines, j, PermStop(lines, j)), k);
      if last.Some? then last else Lookup(m, k)
    decreases |lines| - j
  {
    var s := PermStop(lines, j);
    if j == |lines| || ContainsCI(lines[j], "devices limit") {
      assert Permissions(lines, j, m) == m;
      assert PermPairs(lines, j, s) == [];
    } else {
      var m' := PutLine(m, lines[j]);
      assert Permissions(lines, j, m) == Permissions(lines, j + 1, m');
      assert s == PermStop(lines, j + 1);
      PermissionsLookup(lines, j + 1, m', k);
      var ps := PermPairs(lines, j, s);
      assert ps[1..] == PermPairs(lines, j + 1, s);
      assert ps[0] == PermPair(lines[j]);
      LastValueFront(ps, k);
    }
  }

  /** A permission line with a colon contributes exactly what `split_kv` makes of it. */
  lemma PermPairIsSplitKv(line: string)
    requires SplitAtColon(line).Some?
    ensures PermPair(line) == Some(SplitKv(line))
  {
  }

  // ---------- The elif chain ----------

  /** Only the date branches read the dictionaries: without a date key the chain ignores them. */
  lemma ChainNoDateKey(lk: string, h: bool, d: bool, dv: bool, c: Certificate, p: Provisioning, c': Certificate, p': Provisioning)
    requires !StartsWith(lk, "effective date") && !StartsWith(lk, "expiration date")
    ensures Chain(lk, h, d, dv, c, p) == Chain(lk, h, d, dv, c', p')
  {
  }

  /** The branches whose choice does not depend on the dictionaries. */
  predicate StateFree(a: Arm) {
    a !in {CertEffectiveArm, CertExpirationArm, CertHexArm, CertDecimalArm, ProvEffectiveArm,
           ProvExpirationArm, DevicesLimitArm, NoArm}
  }

  /** A key starting with 'e' (as both date keys do) starts with none of the keys of the branches that ignore the dictionaries. */
  lemma NoStateFreeKey(lk: string)
    requires lk != [] && lk[0] == 'e'
    ensures !StartsWith(lk, "certname") &&
      !StartsWith(lk, "cert name") &&
      !StartsWith(lk, "issuer") &&
      !StartsWith(lk, "country") &&
      !StartsWith(lk, "organization") &&
      !StartsWith(lk, "certificate status") &&
      !StartsWith(lk, "revocation time") &&
      !StartsWith(lk, "mp name") &&
      !StartsWith(lk, "mpname") &&
      !StartsWith(lk, "app id") &&
      !StartsWith(lk, "appid") &&
      !StartsWith(lk, "identifier") &&
      !StartsWith(lk, "platform") &&
      !StartsWith(lk, "binding certificates") &&
      !StartsWith(lk, "certificate matching status") &&
      !StartsWith(lk, "permission status")
  {
    NotStartsWith(lk, "certname");
    NotStartsWith(lk, "cert name");
    NotStartsWith(lk, "issuer");
    NotStartsWith(lk, "country");
    NotStartsWith(lk, "organization");
    NotStartsWith(lk, "certificate status");
    NotStartsWith(lk, "revocation time");
    NotStartsWith(lk, "mp name");
    NotStartsWith(lk, "mpname");
    NotStartsWith(lk, "app id");
    NotStartsWith(lk, "appid");
    NotStartsWith(lk, "identifier");
    NotStartsWith(lk, "platform");
    NotStartsWith(lk, "binding certificates");
    NotStartsWith(lk, "certificate matching status");
    NotStartsWith(lk, "permission status");
  }

  /** A key that starts with 'e', as both date keys do, can only reach a branch that depends on the dictionaries. */
  lemma ChainDateKey(lk: string, h: bool, d: bool, dv: bool, c: Certificate, p: Provisioning)
    requires lk != [] && lk[0] == 'e'
    ensures !StateFree(Chain(lk, h, d, dv, c, p))
  {
    NoStateFreeKey(lk);
  }

  /** A line that reaches a branch other than the date, number and fall-through ones reaches it whatever the dictionaries hold. */
  lemma ClassifyStateFree(line: string, c: Certificate, p: Provisioning, c': Certificate, p': Provisioning)
    requires StateFree(Classify(line, c, p))
    ensures Classify(line, c', p') == Classify(line, c, p)
  {
    var k := SplitKv(line).0;
    var lk, h, d, dv := Lower(k), IsHexKey(k), IsDecimalKey(k), ContainsCI(line, "devices limit");
    if StartsWith(lk, "effective date") || StartsWith(lk, "expiration date") {
      if StartsWith(lk, "effective date") {
        StartsWithHead(lk, "effective date");
      } else {
        StartsWithHead(lk, "expiration date");
      }
      ChainDateKey(lk, h, d, dv, c, p);
    } else {
      ChainNoDateKey(lk, h, d, dv, c, p, c', p');
    }
  }

  /**
   * Only a date key makes the branch depend on the dictionaries: a line whose
   * key starts with neither date name, including a hex, decimal, devices-limit
   * or unmatched line, takes the same branch whatever they hold.
   */
  lemma ClassifyNoDateKey(line: string, c: Certificate, p: Provisioning, c': Certificate, p': Provisioning)
    requires !StartsWith(Lower(SplitKv(line).0), "effective date")
    requires !StartsWith(Lower(SplitKv(line).0), "expiration date")
    ensures Classify(line, c', p') == Classify(line, c, p)
  {
    var k := SplitKv(line).0;
    ChainNoDateKey(Lower(k), IsHexKey(k), IsDecimalKey(k), ContainsCI(line, "devices limit"), c, p, c', p');
  }

  /** A key starting with 'b' starts with none of the keys tested before "binding certificates". */
  lemma NoKeyBeforeBinding(lk: string)
    requires lk != [] && lk[0] == 'b'
    ensures !StartsWith(lk, "certname") &&
      !StartsWith(lk, "cert name") &&
      !StartsWith(lk, "effective date") &&
      !StartsWith(lk, "expiration date") &&
      !StartsWith(lk, "issuer") &&
      !StartsWith(lk, "country") &&
      !StartsWith(lk, "organization") &&
      !StartsWith(lk, "certificate status") &&
      !StartsWith(lk, "revocation time") &&
      !StartsWith(lk, "mp name") &&
      !StartsWith(lk, "mpname") &&
      !StartsWith(lk, "app id") &&
      !StartsWith(lk, "appid") &&
      !StartsWith(lk, "identifier") &&
      !StartsWith(lk, "platform")
  {
    NotStartsWith(lk, "certname");
    NotStartsWith(lk, "cert name");
    NotStartsWith(lk, "effective date");
    NotStartsWith(lk, "expiration date");
    NotStartsWith(lk, "issuer");
    NotStartsWith(lk, "country");
    NotStartsWith(lk, "organization");
    NotStartsWith(lk, "certificate status");
    NotStartsWith(lk, "revocation time");
    NotStartsWith(lk, "mp name");
    NotStartsWith(lk, "mpname");
    NotStartsWith(lk, "app id");
    NotStartsWith(lk, "appid");
    NotStartsWith(lk, "identifier");
    NotStartsWith(lk, "platform");
  }

  lemma ChainBinding(lk: string, h: bool, d: bool, dv: bool, c: Certificate, p: Provisioning)
    ensures Chain(lk, h, d, dv, c, p) == BindingArm <==> StartsWith(lk, "binding certificates") && !h && !d
  {
    if StartsWith(lk, "binding certificates") {
      StartsWithHead(lk, "binding certificates");
      NoKeyBeforeBinding(lk);
    }
  }

  /** The binding branch is taken exactly on the lines after which `Next` skips the section, whatever the dictionaries hold. */
  lemma OpensBindingIff(line: string, c: Certificate, p: Provisioning)
    ensures Classify(line, c, p) == BindingArm <==> OpensBinding(line)
  {
    var k := SplitKv(line).0;
    ChainBinding(Lower(k), IsHexKey(k), IsDecimalKey(k), ContainsCI(line, "devices limit"), c, p);
  }

  // ---------- Dates: first writer wins ----------

  /** The two date keys. */
  datatype DateField = Effective | Expiration

  function DateKey(f: DateField): string {
    match f
    case Effective => "effective date"
    case Expiration => "expiration date"
  }

  function CertDate(c: Certificate, f: DateField): Option<Option<string>> {
    match f
    case Effective => c.effectiveDate
    case Expiration => c.expirationDate
  }

  function ProvDate(p: Provisioning, f: DateField): Option<Option<string>> {
    match f
    case Effective => p.effectiveDate
    case Expiration => p.expirationDate
  }

  function CertDateArm(f: DateField): Arm {
    match f
    case Effective => CertEffectiveArm
    case Expiration => CertExpirationArm
  }

  function ProvDateArm(f: DateField): Arm {
    match f
    case Effective => ProvEffectiveArm
    case Expiration => ProvExpirationArm
  }

  lemma DateKeysDiffer(lk: string)
    ensures !(StartsWith(lk, "effective date") && StartsWith(lk, "expiration date"))
  {
    if StartsWith(lk, "effective date") {
      assert lk[1] == lk[..14][1] == 'f';
    }
  }

  lemma ChainCertEffective(lk: string, h: bool, d: bool, dv: bool, c: Certificate, p: Provisioning)
    ensures Chain(lk, h, d, dv, c, p) == CertEffectiveArm <==> StartsWith(lk, "effective date") && c.effectiveDate.None?
  {
    if StartsWith(lk, "effective date") {
      StartsWithHead(lk, "effective date");
      NotStartsWith(lk, "certname");
      NotStartsWith(lk, "cert name");
    }
  }

  lemma ChainCertExpiration(lk: string, h: bool, d: bool, dv: bool, c: Certificate, p: Provisioning)
    ensures Chain(lk, h, d, dv, c, p) == CertExpirationArm <==> StartsWith(lk, "expiration date") && c.expirationDate.None?
  {
    DateKeysDiffer(lk);
    if StartsWith(lk, "expiration date") {
      StartsWithHead(lk, "expiration date");
      NotStartsWith(lk, "certname");
      NotStartsWith(lk, "cert name");
    }
  }

  /** The certificate's date branch is taken exactly for a date key while that date is still absent. */
  lemma ChainCertDate(lk: string, h: bool, d: bool, dv: bool, c: Certificate, p: Provisioning, f: DateField)
    ensures Chain(lk, h, d, dv, c, p) == CertDateArm(f) <==> StartsWith(lk, DateKey(f)) && CertDate(c, f).None?
  {
    match f
    case Effective => ChainCertEffective(lk, h, d, dv, c, p);
    case Expiration => ChainCertExpiration(lk, h, d, dv, c, p);
  }

  lemma ChainProvEffective(lk: string, h: bool, d: bool, dv: bool, c: Certificate, p: Provisioning)
    ensures Chain(lk, h, d, dv, c, p) == ProvEffectiveArm <==>
      StartsWith(lk, "effective date") && !h && !d && c.effectiveDate.Some? && p.effectiveDate.None? && p.mpName.Some?
  {
    if StartsWith(lk, "effective date") {
      DateKeysDiffer(lk);
      StartsWithHead(lk, "effective date");
      NoStateFreeKey(lk);
    }
  }

  lemma ChainProvExpiration(lk: string, h: bool, d: bool, dv: bool, c: Certificate, p: Provisioning)
    ensures Chain(lk, h, d, dv, c, p) == ProvExpirationArm <==>
      StartsWith(lk, "expiration date") && !h && !d && c.expirationDate.Some? && p.expirationDate.None? && p.mpName.Some?
  {
    if StartsWith(lk, "expiration date") {
      DateKeysDiffer(lk);
      StartsWithHead(lk, "expiration date");
      NoStateFreeKey(lk);
    }
  }

  /**
   * The profile's date branch is taken exactly for a date key that is not a
   * certificate-number key, once the certificate holds that date, while the
   * profile does not, and once the profile has an MP name.
   */
  lemma ChainProvDate(lk: string, h: bool, d: bool, dv: bool, c: Certificate, p: Provisioning, f: DateField)
    ensures Chain(lk, h, d, dv, c, p) == ProvDateArm(f) <==>
      StartsWith(lk, DateKey(f)) && !h && !d && CertDate(c, f).Some? && ProvDate(p, f).None? && p.mpName.Some?
  {
    match f
    case Effective => ChainProvEffective(lk, h, d, dv, c, p);
    case Expiration => ChainProvExpiration(lk, h, d, dv, c, p);
  }

  /** Only the certificate's date branch of that kind writes a certificate date. */
  lemma ApplyCertDate(a: Arm, lines: seq<string>, i: nat, st: Scan, f: DateField)
    requires i < |lines|
    ensures CertDate(Apply(a, lines, i, st).cert, f) ==
      if a == CertDateArm(f) then Some(NormalizeDate(Some(ValueOf(lines[i])))) else CertDate(st.cert, f)
  {
  }

  /** Only the profile's date branch of that kind writes a profile date. */
  lemma ApplyProvDate(a: Arm, lines: seq<string>, i: nat, st: Scan, f: DateField)
    requires i < |lines|
    ensures ProvDate(Apply(a, lines, i, st).prov, f) ==
      if a == ProvDateArm(f) then Some(NormalizeDate(Some(ValueOf(lines[i])))) else ProvDate(st.prov, f)
  {
  }

  /** One line sets the certificate's date exactly when its key is that date key and the date is still absent. */
  lemma VisitCertDate(lines: seq<string>, i: nat, st: Scan, f: DateField)
    requires i < |lines|
    ensures CertDate(Visit(lines, i, st).cert, f) ==
      if KeyStarts(lines[i], DateKey(f)) && CertDate(st.cert, f).None? then Some(NormalizeDate(Some(ValueOf(lines[i]))))
      else CertDate(st.cert, f)
  {
    var line := lines[i];
    var k := SplitKv(line).0;
    var a := Classify(line, st.cert, st.prov);
    ChainCertDate(Lower(k), IsHexKey(k), IsDecimalKey(k), ContainsCI(line, "devices limit"), st.cert, st.prov, f);
    ApplyCertDate(a, lines, i, st, f);
  }

  /**
   * One line sets the profile's date exactly when its key is that date key and
   * no certificate-number key, the certificate already holds that date, the
   * profile does not, and the profile has an MP name.
   */
  lemma VisitProvDate(lines: seq<string>, i: nat, st: Scan, f: DateField)
    requires i < |lines|
    ensures var line := lines[i]; var k := SplitKv(line).0;
      ProvDate(Visit(lines, i, st).prov, f) ==
      if KeyStarts(line, DateKey(f)) && !IsHexKey(k) && !IsDecimalKey(k) && CertDate(st.cert, f).Some? &&
         ProvDate(st.prov, f).None? && st.prov.mpName.Some?
      then Some(NormalizeDate(Some(ValueOf(line))))
      else ProvDate(st.prov, f)
  {
    var line := lines[i];
    var k := SplitKv(line).0;
    var a := Classify(line, st.cert, st.prov);
    ChainProvDate(Lower(k), IsHexKey(k), IsDecimalKey(k), ContainsCI(line, "devices limit"), st.cert, st.prov, f);
    ApplyProvDate(a, lines, i, st, f);
  }

  /** The first of the lines `vs` whose key starts with `key`. */
  function FirstKeyed(lines: seq<string>, vs: seq<nat>, key: string): (r: Option<nat>)
    ensures r.Some? ==> r.value < |lines| && KeyStarts(lines[r.value], key)
  {
    if vs == [] then None
    else if vs[0] < |lines| && KeyStarts(lines[vs[0]], key) then Some(vs[0])
    else FirstKeyed(lines, vs[1..], key)
  }

  lemma FirstKeyedCons(lines: seq<string>, i: nat, rest: seq<nat>, key: string)
    requires i < |lines|
    ensures FirstKeyed(lines, [i] + rest, key) ==
      if KeyStarts(lines[i], key) then Some(i) else FirstKeyed(lines, rest, key)
  {
    assert ([i] + rest)[0] == i && ([i] + rest)[1..] == rest;
  }

  /**
   * A certificate date, once present, is never replaced; an absent one ends up
   * as the normalised value of the first visited line with that date key.
   */
  lemma {:induction false} CertDateFirst(lines: seq<string>, i: nat, st: Scan, f: DateField)
    requires i <= |lines|
    ensures CertDate(ParseFrom(lines, i, st).cert, f) ==
      if CertDate(st.cert, f).Some? then CertDate(st.cert, f)
      else
        var v := FirstKeyed(lines, VisitedFrom(lines, i), DateKey(f));
        if v.Some? then Some(NormalizeDate(Some(ValueOf(lines[v.value])))) else None
    decreases |lines| - i
  {
    if i < |lines| {
      var st' := Visit(lines, i, st);
      var next := Next(lines, i);
      assert ParseFrom(lines, i, st) == ParseFrom(lines, next, st');
      VisitCertDate(lines, i, st, f);
      CertDateFirst(lines, next, st', f);
      assert VisitedFrom(lines, i) == [i] + VisitedFrom(lines, next);
      FirstKeyedCons(lines, i, VisitedFrom(lines, next), DateKey(f));
    }
  }

  /** A profile date, once present, is never replaced. */
  lemma {:induction false} ProvDateKept(lines: seq<string>, i: nat, st: Scan, f: DateField)
    requires i <= |lines|
    requires ProvDate(st.prov, f).Some?
    ensures ProvDate(ParseFrom(lines, i, st).prov, f) == ProvDate(st.prov, f)
    decreases |lines| - i
  {
    if i < |lines| {
      var st' := Visit(lines, i, st);
      var next := Next(lines, i);
      assert ParseFrom(lines, i, st) == ParseFrom(lines, next, st');
      VisitProvDate(lines, i, st, f);
      ProvDateKept(lines, next, st', f);
    }
  }

  // ---------- Other fields: last writer wins ----------

  /** The branches that assign a cleaned value to one field unconditionally. */
  predicate FieldArm(a: Arm) {
    a in {CertNameArm, IssuerArm, CountryArm, OrganizationArm, CertStatusArm,
          MpNameArm, AppIdArm, IdentifierArm, PlatformArm, MatchingArm, DevicesLimitArm}
  }

  /** The field such a branch assigns. */
  function FieldOf(st: Scan, a: Arm): Option<string>
    requires FieldArm(a)
  {
    match a
    case CertNameArm => st.cert.certName
    case IssuerArm => st.cert.issuer
    case CountryArm => st.cert.country
    case OrganizationArm => st.cert.organization
    case CertStatusArm => st.cert.certificateStatus
    case MpNameArm => st.prov.mpName
    case AppIdArm => st.prov.appId
    case IdentifierArm => st.prov.identifier
    case PlatformArm => st.prov.platform
    case MatchingArm => st.prov.certificateMatchingStatus
    case DevicesLimitArm => st.prov.devicesLimit
  }

  /** One line sets such a field to its cleaned value exactly when it takes that branch. */
  lemma VisitField(lines: seq<string>, i: nat, st: Scan, a: Arm)
    requires i < |lines| && FieldArm(a)
    ensures FieldOf(Visit(lines, i, st), a) ==
      if Classify(lines[i], st.cert, st.prov) == a then Some(ValueOf(lines[i])) else FieldOf(st, a)
  {
    var b := Classify(lines[i], st.cert, st.prov);
    VisitArm(lines, i, st, b);
    ApplyField(b, lines, i, st, a);
  }

  /** Branch `b` sets the field of branch `a` only when they are the same branch. */
  lemma ApplyField(b: Arm, lines: seq<string>, i: nat, st: Scan, a: Arm)
    requires i < |lines| && FieldArm(a)
    ensures FieldOf(Apply(b, lines, i, st), a) == if b == a then Some(ValueOf(lines[i])) else FieldOf(st, a)
  {
  }

  /**
   * The last of the lines `vs` that takes branch `a`. Used only for branches
   * that ignore the dictionaries, so the empty ones stand for any.
   */
  function LastReaching(lines: seq<string>, vs: seq<nat>, a: Arm): (r: Option<nat>)
    ensures r.Some? ==> r.value < |lines| && Classify(lines[r.value], EmptyCertificate, EmptyProvisioning) == a
  {
    if vs == [] then None
    else
      var rest := LastReaching(lines, vs[1..], a);
      if rest.Some? then rest
      else if vs[0] < |lines| && Classify(lines[vs[0]], EmptyCertificate, EmptyProvisioning) == a then Some(vs[0])
      else None
  }

  lemma LastReachingCons(lines: seq<string>, i: nat, rest: seq<nat>, a: Arm)
    requires i < |lines|
    ensures LastReaching(lines, [i] + rest, a) ==
      var r := LastReaching(lines, rest, a);
      if r.Some? then r else if Classify(lines[i], EmptyCertificate, EmptyProvisioning) == a then Some(i) else None
  {
    assert ([i] + rest)[0] == i && ([i] + rest)[1..] == rest;
  }

  /** Taking a branch that ignores the dictionaries does not depend on them. */
  lemma ReachesStateFree(line: string, st: Scan, a: Arm)
    requires StateFree(a)
    ensures Classify(line, st.cert, st.prov) == a <==> Classify(line, EmptyCertificate, EmptyProvisioning) == a
  {
    if Classify(line, st.cert, st.prov) == a {
      ClassifyStateFree(line, st.cert, st.prov, EmptyCertificate, EmptyProvisioning);
    }
    if Classify(line, EmptyCertificate, EmptyProvisioning) == a {
      ClassifyStateFree(line, EmptyCertificate, EmptyProvisioning, st.cert, st.prov);
    }
  }

  /**
   * The last line visited from `i` on, starting in state `st`, that takes
   * branch `a` in the state the loop has reached at that line.
   */
  function LastTaking(lines: seq<string>, i: nat, st: Scan, a: Arm): (r: Option<nat>)
    requires i <= |lines|
    ensures r.Some? ==> r.value in VisitedFrom(lines, i)
    decreases |lines| - i
  {
    if i == |lines| then None
    else
      var r := LastTaking(lines, Next(lines, i), Visit(lines, i, st), a);
      if r.Some? then r
      else if Classify(lines[i], st.cert, st.prov) == a then Some(i)
      else None
  }

  /** For a branch that ignores the dictionaries, the state along the way does not matter. */
  lemma {:induction false} LastTakingStateFree(lines: seq<string>, i: nat, st: Scan, a: Arm)
    requires i <= |lines| && StateFree(a)
    ensures LastTaking(lines, i, st, a) == LastReaching(lines, VisitedFrom(lines, i), a)
    decreases |lines| - i
  {
    if i < |lines| {
      var next := Next(lines, i);
      LastTakingStateFree(lines, next, Visit(lines, i, st), a);
      ReachesStateFree(lines[i], st, a);
      assert VisitedFrom(lines, i) == [i] + VisitedFrom(lines, next);
      LastReachingCons(lines, i, VisitedFrom(lines, next), a);
    }
  }

  /**
   * The last-writer rule for any part `get` of the dictionaries that a line
   * taking branch `a` sets to `val` of its index and that every other line
   * leaves alone: the last visited line that takes the branch, in the state
   * the loop has there, decides it.
   */
  lemma {:induction false} LastWinsAlong<X>(lines: seq<string>, i: nat, st: Scan, a: Arm, get: Scan -> X, val: nat -> X)
    requires i <= |lines|
    requires forall j: nat, s: Scan :: j < |lines| ==>
      get(Visit(lines, j, s)) == if Classify(lines[j], s.cert, s.prov) == a then val(j) else get(s)
    ensures get(ParseFrom(lines, i, st)) ==
      var v := LastTaking(lines, i, st, a);
      if v.Some? then val(v.value) else get(st)
    decreases |lines| - i
  {
    if i < |lines| {
      var st' := Visit(lines, i, st);
      var next := Next(lines, i);
      assert ParseFrom(lines, i, st) == ParseFrom(lines, next, st');
      LastWinsAlong(lines, next, st', a, get, val);
    }
  }

  /** The same rule for a branch that ignores the dictionaries, stated over the visited lines alone. */
  lemma LastWins<X>(lines: seq<string>, i: nat, st: Scan, a: Arm, get: Scan -> X, val: nat -> X)
    requires i <= |lines| && StateFree(a)
    requires forall j: nat, s: Scan :: j < |lines| ==>
      get(Visit(lines, j, s)) == if Classify(lines[j], s.cert, s.prov) == a then val(j) else get(s)
    ensures get(ParseFrom(lines, i, st)) ==
      var v := LastReaching(lines, VisitedFrom(lines, i), a);
      if v.Some? then val(v.value) else get(st)
  {
    LastWinsAlong(lines, i, st, a, get, val);
    LastTakingStateFree(lines, i, st, a);
  }

  /**
   * The name, issuer, country, organisation, status, MP name, app id,
   * identifier, platform, matching status and devices limit are assigned on
   * every line that takes their branch: the last such visited line wins.
   */
  lemma LastWriterWinsAlong(lines: seq<string>, i: nat, st: Scan, a: Arm)
    requires i <= |lines| && FieldArm(a)
    ensures FieldOf(ParseFrom(lines, i, st), a) ==
      var v := LastTaking(lines, i, st, a);
      if v.Some? then Some(ValueOf(lines[v.value])) else FieldOf(st, a)
  {
    var get := (s: Scan) => FieldOf(s, a);
    var val := (j: nat) => if j < |lines| then Some(ValueOf(lines[j])) else None;
    forall j: nat, s: Scan | j < |lines|
      ensures get(Visit(lines, j, s)) == if Classify(lines[j], s.cert, s.prov) == a then val(j) else get(s)
    {
      VisitField(lines, j, s, a);
    }
    LastWinsAlong(lines, i, st, a, get, val);
  }

  /**
   * For the fields whose branch ignores the dictionaries (all but the devices
   * limit), the last visited line whose key selects the branch wins.
   */
  lemma LastWriterWins(lines: seq<string>, i: nat, st: Scan, a: Arm)
    requires i <= |lines| && FieldArm(a) && StateFree(a)
    ensures FieldOf(ParseFrom(lines, i, st), a) ==
      var v := LastReaching(lines, VisitedFrom(lines, i), a);
      if v.Some? then Some(ValueOf(lines[v.value])) else FieldOf(st, a)
  {
    LastWriterWinsAlong(lines, i, st, a);
    LastTakingStateFree(lines, i, st, a);
  }

  /** The hex number of the top certificate, if set. */
  function CertHex(st: Scan): Option<string> {
    if st.cert.certificateNumber.Some? then st.cert.certificateNumber.value.hex else None
  }

  /** The decimal number of the top certificate, if set. */
  function CertDecimal(st: Scan): Option<string> {
    if st.cert.certificateNumber.Some? then st.cert.certificateNumber.value.decimal else None
  }

  /** Only the hex branch sets the hex number; the decimal branch keeps it. */
  lemma ApplyHex(b: Arm, lines: seq<string>, i: nat, st: Scan)
    requires i < |lines|
    ensures CertHex(Apply(b, lines, i, st)) == if b == CertHexArm then Some(ValueOf(lines[i])) else CertHex(st)
  {
    if b != CertHexArm && b != CertDecimalArm {
      ApplyKeepsNumber(b, lines, i, st);
    }
  }

  /** Only the decimal branch sets the decimal number; the hex branch keeps it. */
  lemma ApplyDecimal(b: Arm, lines: seq<string>, i: nat, st: Scan)
    requires i < |lines|
    ensures CertDecimal(Apply(b, lines, i, st)) == if b == CertDecimalArm then Some(ValueOf(lines[i])) else CertDecimal(st)
  {
    if b != CertHexArm && b != CertDecimalArm {
      ApplyKeepsNumber(b, lines, i, st);
    }
  }

  /** The branches other than hex and decimal leave the certificate number alone. */
  lemma ApplyKeepsNumber(b: Arm, lines: seq<string>, i: nat, st: Scan)
    requires i < |lines| && b != CertHexArm && b != CertDecimalArm
    ensures Apply(b, lines, i, st).cert.certificateNumber == st.cert.certificateNumber
  {
  }

  /** The top certificate's hex number is the value of the last visited line that takes the hex branch. */
  lemma HexLast(lines: seq<string>, i: nat, st: Scan)
    requires i <= |lines|
    ensures CertHex(ParseFrom(lines, i, st)) ==
      var v := LastTaking(lines, i, st, CertHexArm);
      if v.Some? then Some(ValueOf(lines[v.value])) else CertHex(st)
  {
    var val := (j: nat) => if j < |lines| then Some(ValueOf(lines[j])) else None;
    forall j: nat, s: Scan | j < |lines|
      ensures CertHex(Visit(lines, j, s)) == if Classify(lines[j], s.cert, s.prov) == CertHexArm then val(j) else CertHex(s)
    {
      var b := Classify(lines[j], s.cert, s.prov);
      VisitArm(lines, j, s, b);
      ApplyHex(b, lines, j, s);
    }
    LastWinsAlong(lines, i, st, CertHexArm, CertHex, val);
  }

  /** The top certificate's decimal number is the value of the last visited line that takes the decimal branch. */
  lemma DecimalLast(lines: seq<string>, i: nat, st: Scan)
    requires i <= |lines|
    ensures CertDecimal(ParseFrom(lines, i, st)) ==
      var v := LastTaking(lines, i, st, CertDecimalArm);
      if v.Some? then Some(ValueOf(lines[v.value])) else CertDecimal(st)
  {
    var val := (j: nat) => if j < |lines| then Some(ValueOf(lines[j])) else None;
    forall j: nat, s: Scan | j < |lines|
      ensures CertDecimal(Visit(lines, j, s)) == if Classify(lines[j], s.cert, s.prov) == CertDecimalArm then val(j) else CertDecimal(s)
    {
      var b := Classify(lines[j], s.cert, s.prov);
      VisitArm(lines, j, s, b);
      ApplyDecimal(b, lines, j, s);
    }
    LastWinsAlong(lines, i, st, CertDecimalArm, CertDecimal, val);
  }

  lemma VisitRevocation(lines: seq<string>, i: nat, st: Scan)
    requires i < |lines|
    ensures Visit(lines, i, st).cert.revocationTime ==
      if Classify(lines[i], st.cert, st.prov) == RevocationArm then Some(NormalizeDate(Some(ValueOf(lines[i]))))
      else st.cert.revocationTime
  {
  }

  lemma VisitPermissions(lines: seq<string>, i: nat, st: Scan)
    requires i < |lines|
    ensures Visit(lines, i, st).prov.permissionStatus ==
      if Classify(lines[i], st.cert, st.prov) == PermissionArm then Some(PermissionBlock(lines, i))
      else st.prov.permissionStatus
  {
  }

  /** The revocation time is the normalised value of the last visited revocation line. */
  lemma RevocationLast(lines: seq<string>, i: nat, st: Scan)
    requires i <= |lines|
    ensures ParseFrom(lines, i, st).cert.revocationTime ==
      var v := LastReaching(lines, VisitedFrom(lines, i), RevocationArm);
      if v.Some? then Some(NormalizeDate(Some(ValueOf(lines[v.value])))) else st.cert.revocationTime
  {
    var get := (s: Scan) => s.cert.revocationTime;
    var val := (j: nat) => if j < |lines| then Some(NormalizeDate(Some(ValueOf(lines[j])))) else None;
    forall j: nat, s: Scan | j < |lines|
      ensures get(Visit(lines, j, s)) == if Classify(lines[j], s.cert, s.prov) == RevocationArm then val(j) else get(s)
    {
      VisitRevocation(lines, j, s);
    }
    LastWins(lines, i, st, RevocationArm, get, val);
  }

  /** `PermissionStatus` is the dictionary collected after the last visited "permission status" line. */
  lemma PermissionsLast(lines: seq<string>, i: nat, st: Scan)
    requires i <= |lines|
    ensures ParseFrom(lines, i, st).prov.permissionStatus ==
      var v := LastReaching(lines, VisitedFrom(lines, i), PermissionArm);
      if v.Some? then Some(PermissionBlock(lines, v.value)) else st.prov.permissionStatus
  {
    var get := (s: Scan) => s.prov.permissionStatus;
    var val := (j: nat) => if j < |lines| then Some(PermissionBlock(lines, j)) else None;
    forall j: nat, s: Scan | j < |lines|
      ensures get(Visit(lines, j, s)) == if Classify(lines[j], s.cert, s.prov) == PermissionArm then val(j) else get(s)
    {
      VisitPermissions(lines, j, s);
    }
    LastWins(lines, i, st, PermissionArm, get, val);
  }

  /** The data a profile date needs before it can be set: an MP name and the certificate's date of the same kind. */
  predicate ProvDatesBacked(st: Scan) {
    forall f: DateField :: ProvDate(st.prov, f).Some? ==> st.prov.mpName.Some? && CertDate(st.cert, f).Some?
  }

  /** A step that keeps the MP name and the certificate dates, and sets a profile date only when both back it, keeps the profile dates backed. */
  lemma BackedStep(st: Scan, st': Scan)
    requires ProvDatesBacked(st)
    requires st.prov.mpName.Some? ==> st'.prov.mpName.Some?
    requires forall f: DateField :: CertDate(st.cert, f).Some? ==> CertDate(st'.cert, f).Some?
    requires forall f: DateField :: ProvDate(st'.prov, f).Some? ==>
      ProvDate(st.prov, f).Some? || (st.prov.mpName.Some? && CertDate(st.cert, f).Some?)
    ensures ProvDatesBacked(st')
  {
    forall f: DateField ensures ProvDate(st'.prov, f).Some? ==> st'.prov.mpName.Some? && CertDate(st'.cert, f).Some? {
      assert ProvDate(st.prov, f).Some? ==> st.prov.mpName.Some? && CertDate(st.cert, f).Some?;
    }
  }

  /** One line never clears the MP name. */
  lemma VisitKeepsMpName(lines: seq<string>, i: nat, st: Scan)
    requires i < |lines|
    ensures st.prov.mpName.Some? ==> Visit(lines, i, st).prov.mpName.Some?
  {
    var b := Classify(lines[i], st.cert, st.prov);
    VisitArm(lines, i, st, b);
    ApplyKeepsMpName(b, lines, i, st);
  }

  /** No branch clears the MP name. */
  lemma ApplyKeepsMpName(b: Arm, lines: seq<string>, i: nat, st: Scan)
    requires i < |lines|
    ensures st.prov.mpName.Some? ==> Apply(b, lines, i, st).prov.mpName.Some?
  {
    ApplyField(b, lines, i, st, MpNameArm);
  }

  /** One line never clears a certificate date. */
  lemma VisitKeepsCertDate(lines: seq<string>, i: nat, st: Scan, f: DateField)
    requires i < |lines|
    ensures CertDate(st.cert, f).Some? ==> CertDate(Visit(lines, i, st).cert, f).Some?
  {
    VisitCertDate(lines, i, st, f);
  }

  /** One line sets a profile date only when the MP name and the certificate's same date are already there. */
  lemma VisitSetsBackedProvDate(lines: seq<string>, i: nat, st: Scan, f: DateField)
    requires i < |lines|
    ensures ProvDate(Visit(lines, i, st).prov, f).Some? ==>
      ProvDate(st.prov, f).Some? || (st.prov.mpName.Some? && CertDate(st.cert, f).Some?)
  {
    VisitProvDate(lines, i, st, f);
  }

  /** One line keeps the profile dates backed by an MP name and the certificate's dates. */
  lemma VisitKeepsBacked(lines: seq<string>, i: nat, st: Scan)
    requires i < |lines| && ProvDatesBacked(st)
    ensures ProvDatesBacked(Visit(lines, i, st))
  {
    var st' := Visit(lines, i, st);
    VisitKeepsMpName(lines, i, st);
    forall f: DateField ensures CertDate(st.cert, f).Some? ==> CertDate(st'.cert, f).Some? {
      VisitKeepsCertDate(lines, i, st, f);
    }
    forall f: DateField ensures ProvDate(st'.prov, f).Some? ==>
      ProvDate(st.prov, f).Some? || (st.prov.mpName.Some? && CertDate(st.cert, f).Some?)
    {
      VisitSetsBackedProvDate(lines, i, st, f);
    }
    BackedStep(st, st');
  }

  /** A profile date is only ever set after the MP name and the certificate's date, and both stay set. */
  lemma {:induction false} ProvDatesBackedKept(lines: seq<string>, i: nat, st: Scan)
    requires i <= |lines|
    requires ProvDatesBacked(st)
    ensures ProvDatesBacked(ParseFrom(lines, i, st))
    decreases |lines| - i
  {
    if i < |lines| {
      var st' := Visit(lines, i, st);
      var next := Next(lines, i);
      assert ParseFrom(lines, i, st) == ParseFrom(lines, next, st');
      VisitKeepsBacked(lines, i, st);
      ProvDatesBackedKept(lines, next, st');
    }
  }

  /** In the parsed profile, each date is present only when the MP name and the certificate's same date are. */
  lemma ParsedProvDates(lines: seq<string>, f: DateField)
    ensures var r := ParseLines(lines);
      ProvDate(r.provisioningProfile, f).Some? ==> r.provisioningProfile.mpName.Some? && CertDate(r.certificate, f).Some?
  {
    ProvDatesBackedKept(lines, 0, Start);
    var st := ParseFrom(lines, 0, Start);
    assert ParseLines(lines) == Parsed(st.cert, Finish(st), lines);
    assert Finish(st).mpName == st.prov.mpName && ProvDate(Finish(st), f) == ProvDate(st.prov, f);
  }

  // ---------- The binding section in the main loop ----------

  /** The entries the binding sections visited from `i` on contribute, in order. */
  function BindingOf(lines: seq<string>, i: nat): seq<BindingCert>
    requires i <= |lines|
    decreases |lines| - i
  {
    if i == |lines| then []
    else (if OpensBinding(lines[i]) then Section(lines, i + 1).entries else []) + BindingOf(lines, Next(lines, i))
  }

  /** Handling line `i` runs the branch that line selects. */
  lemma VisitArm(lines: seq<string>, i: nat, st: Scan, a: Arm)
    requires i < |lines| && Classify(lines[i], st.cert, st.prov) == a
    ensures Visit(lines, i, st) == Apply(a, lines, i, st)
  {
  }

  /** Only the binding branch adds entries, and no branch sets `BindingCertificates`. */
  lemma ApplyEntries(a: Arm, lines: seq<string>, i: nat, st: Scan)
    requires i < |lines|
    ensures Apply(a, lines, i, st).binding == st.binding + if a == BindingArm then Section(lines, i + 1).entries else []
    ensures Apply(a, lines, i, st).prov.bindingCertificates == st.prov.bindingCertificates
  {
    if a == BindingArm {
      ApplyBinding(lines, i, st);
    } else {
      ApplyKeepsEntries(a, lines, i, st);
      assert st.binding + [] == st.binding;
    }
    ApplyKeepsBindingField(a, lines, i, st);
  }

  /** Every other branch leaves the entry list as it is. */
  lemma ApplyKeepsEntries(a: Arm, lines: seq<string>, i: nat, st: Scan)
    requires i < |lines| && a != BindingArm
    ensures Apply(a, lines, i, st).binding == st.binding
  {
  }

  /** No branch sets `BindingCertificates`. */
  lemma ApplyKeepsBindingField(a: Arm, lines: seq<string>, i: nat, st: Scan)
    requires i < |lines|
    ensures Apply(a, lines, i, st).prov.bindingCertificates == st.prov.bindingCertificates
  {
  }

  /** A binding line only extends the entry list: the two dictionaries are left as they are. */
  lemma VisitBinding(lines: seq<string>, i: nat, st: Scan)
    requires i < |lines| && OpensBinding(lines[i])
    ensures Visit(lines, i, st) == st.(binding := st.binding + Section(lines, i + 1).entries)
  {
    OpensBindingIff(lines[i], st.cert, st.prov);
    VisitArm(lines, i, st, BindingArm);
    ApplyBinding(lines, i, st);
  }

  /** The binding branch leaves the two dictionaries as they are. */
  lemma ApplyBinding(lines: seq<string>, i: nat, st: Scan)
    requires i < |lines|
    ensures Apply(BindingArm, lines, i, st) == st.(binding := st.binding + Section(lines, i + 1).entries)
  {
  }

  /** Only a binding line adds entries; no line sets `BindingCertificates` during the loop. */
  lemma VisitEntries(lines: seq<string>, i: nat, st: Scan)
    requires i < |lines|
    ensures Visit(lines, i, st).binding == st.binding + if OpensBinding(lines[i]) then Section(lines, i + 1).entries else []
    ensures Visit(lines, i, st).prov.bindingCertificates == st.prov.bindingCertificates
  {
    var a := Classify(lines[i], st.cert, st.prov);
    OpensBindingIff(lines[i], st.cert, st.prov);
    VisitArm(lines, i, st, a);
    ApplyEntries(a, lines, i, st);
  }

  /** The entry list is the concatenation of the visited binding sections' entries. */
  lemma {:induction false} BindingCollected(lines: seq<string>, i: nat, st: Scan)
    requires i <= |lines|
    ensures ParseFrom(lines, i, st).binding == st.binding + BindingOf(lines, i)
    ensures ParseFrom(lines, i, st).prov.bindingCertificates == st.prov.bindingCertificates
    decreases |lines| - i
  {
    if i < |lines| {
      var st' := Visit(lines, i, st);
      var next := Next(lines, i);
      assert ParseFrom(lines, i, st) == ParseFrom(lines, next, st');
      VisitEntries(lines, i, st);
      BindingCollected(lines, next, st');
      var here := if OpensBinding(lines[i]) then Section(lines, i + 1).entries else [];
      assert BindingOf(lines, i) == here + BindingOf(lines, next);
      AppendAssoc(st.binding, here, BindingOf(lines, next));
    } else {
      assert st.binding + [] == st.binding;
    }
  }

  /** `BindingCertificates` is present exactly when some entry was found, and then lists them all in order. */
  lemma ParsedBinding(lines: seq<string>)
    ensures var b := BindingOf(lines, 0);
      ParseLines(lines).provisioningProfile.bindingCertificates == if b != [] then Some(b) else None
  {
    BindingCollected(lines, 0, Start);
    assert [] + BindingOf(lines, 0) == BindingOf(lines, 0);
  }

  /**
   * After a binding line the loop resumes at the section's end: the lines in
   * between are never visited, and the line at the end, if any, names a
   * following section and is visited next.
   */
  lemma BindingResumes(lines: seq<string>, i: nat)
    requires i < |lines| && OpensBinding(lines[i])
    ensures var e := Section(lines, i + 1).end;
      VisitedFrom(lines, i) == [i] + VisitedFrom(lines, e) &&
      (forall v <- VisitedFrom(lines, i) :: v == i || e <= v) &&
      (e < |lines| ==> IsTerminator(lines[e]) && !IsCertHeader(lines[e]))
  {
    var e := Section(lines, i + 1).end;
    SectionEnds(lines, i + 1);
    assert Next(lines, i) == e;
    assert VisitedFrom(lines, i) == [i] + VisitedFrom(lines, e);
    ConsAbove(i, VisitedFrom(lines, e), e);
  }

  // ---------- Permission Status in the main loop ----------

  /** The permission branch does not move the cursor past the lines it collects: the next line is visited next. */
  lemma PermissionKeepsCursor(lines: seq<string>, i: nat, st: Scan)
    requires i < |lines| && Classify(lines[i], st.cert, st.prov) == PermissionArm
    ensures Next(lines, i) == i + 1
    ensures VisitedFrom(lines, i) == [i] + VisitedFrom(lines, i + 1)
  {
    OpensBindingIff(lines[i], st.cert, st.prov);
    assert Next(lines, i) == i + 1;
  }

  // ---------- Termination ----------

  predicate Increasing(vs: seq<nat>) {
    forall a, b :: 0 <= a < b < |vs| ==> vs[a] < vs[b]
  }

  lemma ConsAbove(i: nat, rest: seq<nat>, lo: nat)
    requires forall v <- rest :: lo <= v
    ensures forall v <- [i] + rest :: v == i || lo <= v
  {
  }

  lemma ConsIncreasing(i: nat, rest: seq<nat>)
    requires Increasing(rest)
    requires forall v <- rest :: i < v
    ensures Increasing([i] + rest)
  {
    var vs := [i] + rest;
    forall a, b | 0 <= a < b < |vs| ensures vs[a] < vs[b] {
      assert vs[b] == rest[b - 1] && rest[b - 1] in rest;
      if a > 0 {
        assert vs[a] == rest[a - 1];
      }
    }
  }

  /** The visited lines strictly increase, so the loop runs at most once per line. */
  lemma {:induction false} VisitedIncreasing(lines: seq<string>, i: nat)
    requires i <= |lines|
    ensures var vs := VisitedFrom(lines, i); |vs| <= |lines| - i && Increasing(vs)
    decreases |lines| - i
  {
    if i < |lines| {
      var next := Next(lines, i);
      VisitedIncreasing(lines, next);
      var rest := VisitedFrom(lines, next);
      assert VisitedFrom(lines, i) == [i] + rest;
      ConsIncreasing(i, rest);
    }
  }
}
