/**
 * The line scanner of `parse_checker_html` in scripts/check_certificates.py:
 * the records it builds, the `elif` chain that files each line, and the two
 * sub-scanners (binding certificates and permissions), as functions over the
 * list of lines. The loop that computes the same result is in checker_loop.dfy.
 */
module Checker {
  import opened Wrappers
  import opened Text
  import opened KeyValue
  import opened Dates
  import opened LineExtraction

  /** `CertificateNumber`: the dictionary that `setdefault` creates on the first `Hex` or `Decimal` line. */
  datatype CertNumber = CertNumber(hex: Option<string>, decimal: Option<string>)

  /**
   * The `cert` dictionary. `None` is an absent key. The dates hold what
   * `normalize_date` returned, which may itself be `None` while the key is present.
   */
  datatype Certificate = Certificate(
    certName: Option<string>,
    effectiveDate: Option<Option<string>>,
    expirationDate: Option<Option<string>>,
    issuer: Option<string>,
    country: Option<string>,
    organization: Option<string>,
    certificateNumber: Option<CertNumber>,
    certificateStatus: Option<string>,
    revocationTime: Option<Option<string>>)

  /** A permission dictionary in insertion order: each key at most once (see `UniqueKeys`). */
  type Perms = seq<(string, string)>

  /** One entry of `BindingCertificates`. */
  datatype BindingCert = BindingCert(certificateStatus: Option<string>, certificateNumber: Option<CertNumber>)

  /** The `prov` dictionary. */
  datatype Provisioning = Provisioning(
    mpName: Option<string>,
    appId: Option<string>,
    identifier: Option<string>,
    platform: Option<string>,
    effectiveDate: Option<Option<string>>,
    expirationDate: Option<Option<string>>,
    certificateMatchingStatus: Option<string>,
    permissionStatus: Option<Perms>,
    devicesLimit: Option<string>,
    bindingCertificates: Option<seq<BindingCert>>)

  const EmptyCertificate := Certificate(None, None, None, None, None, None, None, None, None)
  const EmptyProvisioning := Provisioning(None, None, None, None, None, None, None, None, None, None)
  const EmptyEntry := BindingCert(None, None)

  /** The three dictionaries of the scan: `cert`, `prov` and the list `binding_certs`. */
  datatype Scan = Scan(cert: Certificate, prov: Provisioning, binding: seq<BindingCert>)

  const Start := Scan(EmptyCertificate, EmptyProvisioning, [])

  /** What `parse_checker_html` returns: an error when no alert element exists, else the two records and the lines. */
  datatype ParseResult =
    | NoAlert
    | Parsed(certificate: Certificate, provisioningProfile: Provisioning, rawLines: seq<string>)

  // ---------- Dictionary helpers ----------

  /** `perms[k]`. */
  function Lookup(m: Perms, k: string): Option<string> {
    if m == [] then None
    else if m[0].0 == k then Some(m[0].1)
    else Lookup(m[1..], k)
  }

  /** The keys in insertion order. */
  function Keys(m: Perms): (ks: seq<string>)
    ensures |ks| == |m|
  {
    if m == [] then [] else [m[0].0] + Keys(m[1..])
  }

  /** No key occurs twice. */
  predicate UniqueKeys(m: Perms) {
    var ks := Keys(m);
    forall a, b :: 0 <= a < b < |ks| ==> ks[a] != ks[b]
  }

  /**
   * `perms[k] = v`: an existing key keeps its place and gets the new value, a
   * new key is added at the end.
   */
  function Put(m: Perms, k: string, v: string): (r: Perms)
    ensures Lookup(r, k) == Some(v)
    ensures forall k' :: k' != k ==> Lookup(r, k') == Lookup(m, k')
    ensures Keys(r) == if k in Keys(m) then Keys(m) else Keys(m) + [k]
  {
    if m == [] then [(k, v)]
    else if m[0].0 == k then [(k, v)] + m[1..]
    else [m[0]] + Put(m[1..], k, v)
  }

  /** `d.setdefault("CertificateNumber", {})["Hex"] = v`. */
  function WithHex(n: Option<CertNumber>, v: string): (r: CertNumber)
    ensures r.hex == Some(v)
    ensures r.decimal == if n.Some? then n.value.decimal else None
  {
    CertNumber(Some(v), if n.Some? then n.value.decimal else None)
  }

  /** `d.setdefault("CertificateNumber", {})["Decimal"] = v`. */
  function WithDecimal(n: Option<CertNumber>, v: string): (r: CertNumber)
    ensures r.decimal == Some(v)
    ensures r.hex == if n.Some? then n.value.hex else None
  {
    CertNumber(if n.Some? then n.value.hex else None, Some(v))
  }

  // ---------- The regular expressions as predicates ----------

  /** `p` occurs in `s`, and `q` occurs later with no newline in between (`p.*q`). */
  predicate FollowedBy(s: string, p: string, q: string) {
    exists i, j :: 0 <= i && i + |p| <= j <= |s| - |q| && OccursAt(s, p, i) && OccursAt(s, q, j) &&
      '\n' !in s[i + |p|..j]
  }

  /** `re.search(r'certificate number.*hex', k, re.I)`. */
  predicate IsHexKey(k: string) {
    FollowedBy(Lower(k), "certificate number", "hex")
  }

  /** `re.search(r'certificate number.*decimal', k, re.I)`. */
  predicate IsDecimalKey(k: string) {
    FollowedBy(Lower(k), "certificate number", "decimal")
  }

  /** `re.match(r'certificate\s*\d+', line, re.I)`: "certificate" at the start, optional whitespace, a digit. */
  predicate IsCertHeader(line: string) {
    StartsWith(Lower(line), "certificate") &&
    var rest := TrimLeft(line[11..]);
    rest != [] && IsDigit(rest[0])
  }

  /** `re.search(r'certificate matching status|permission status|devices limit', s, re.I)`. */
  predicate IsTerminator(s: string) {
    ContainsCI(s, "certificate matching status") || ContainsCI(s, "permission status") ||
    ContainsCI(s, "devices limit")
  }

  /** The lower-cased key of the line starts with `p`. */
  predicate KeyStarts(line: string, p: string) {
    StartsWith(Lower(SplitKv(line).0), p)
  }

  /** The cleaned value of a line: `clean_value(v)` for `k, v = split_kv(line)`. */
  function ValueOf(line: string): (r: string)
    ensures Normalized(r)
  {
    CleanValue(Some(SplitKv(line).1))
  }

  // ---------- The elif chain ----------

  /** The branches of the `elif` chain, in source order. */
  datatype Arm =
    | CertNameArm | CertEffectiveArm | CertExpirationArm | IssuerArm | CountryArm | OrganizationArm
    | CertHexArm | CertDecimalArm | CertStatusArm | RevocationArm
    | MpNameArm | AppIdArm | IdentifierArm | PlatformArm | ProvEffectiveArm | ProvExpirationArm
    | BindingArm | MatchingArm | PermissionArm | DevicesLimitArm | NoArm

  predicate IsCertNameLine(line: string) {
    KeyStarts(line, "certname") || KeyStarts(line, "cert name")
  }

  /**
   * The chain itself, on the lower-cased key `lk`, the two certificate-number
   * searches on the key, the "devices limit" search on the whole line, and the
   * dictionaries so far.
   */
  function Chain(lk: string, hex: bool, decimal: bool, devices: bool, cert: Certificate, prov: Provisioning): Arm {
    if StartsWith(lk, "certname") || StartsWith(lk, "cert name") then CertNameArm
    else if StartsWith(lk, "effective date") && cert.effectiveDate.None? then CertEffectiveArm
    else if StartsWith(lk, "expiration date") && cert.expirationDate.None? then CertExpirationArm
    else if StartsWith(lk, "issuer") then IssuerArm
    else if StartsWith(lk, "country") then CountryArm
    else if StartsWith(lk, "organization") then OrganizationArm
    else if hex then CertHexArm
    else if decimal then CertDecimalArm
    else if StartsWith(lk, "certificate status") then CertStatusArm
    else if StartsWith(lk, "revocation time") then RevocationArm
    else if StartsWith(lk, "mp name") || StartsWith(lk, "mpname") then MpNameArm
    else if StartsWith(lk, "app id") || StartsWith(lk, "appid") then AppIdArm
    else if StartsWith(lk, "identifier") then IdentifierArm
    else if StartsWith(lk, "platform") then PlatformArm
    else if StartsWith(lk, "effective date") && prov.effectiveDate.None? && prov.mpName.Some? then ProvEffectiveArm
    else if StartsWith(lk, "expiration date") && prov.expirationDate.None? && prov.mpName.Some? then ProvExpirationArm
    else if StartsWith(lk, "binding certificates") then BindingArm
    else if StartsWith(lk, "certificate matching status") then MatchingArm
    else if StartsWith(lk, "permission status") then PermissionArm
    else if devices then DevicesLimitArm
    else NoArm
  }

  /** Which branch the chain takes for `line`, given the dictionaries so far. */
  function Classify(line: string, cert: Certificate, prov: Provisioning): Arm {
    var k := SplitKv(line).0;
    Chain(Lower(k), IsHexKey(k), IsDecimalKey(k), ContainsCI(line, "devices limit"), cert, prov)
  }

  /**
   * The binding branch does not depend on the dictionaries: none of the
   * state-dependent branches before it can fire on a "binding certificates" key.
   */
  predicate OpensBinding(line: string) {
    var k := SplitKv(line).0;
    KeyStarts(line, "binding certificates") && !IsHexKey(k) && !IsDecimalKey(k)
  }

  // ---------- Binding Certificates ----------

  /** The branches of the entry scan's `if` chain. */
  datatype EntryArm = StatusLine | HexLine | DecimalLine | StopLine | OtherLine

  /** Which branch the entry scan takes for a line inside an entry. */
  function EntryArmOf(line: string): (r: EntryArm)
    ensures r == StopLine ==> IsTerminator(SplitKv(line).0)
  {
    var kk := SplitKv(line).0;
    if StartsWith(Lower(kk), "certificate status") then StatusLine
    else if IsHexKey(kk) then HexLine
    else if IsDecimalKey(kk) then DecimalLine
    else if IsTerminator(kk) then StopLine
    else OtherLine
  }

  /** What a line inside an entry adds to it. */
  function Fill(e: BindingCert, line: string): BindingCert {
    var v := ValueOf(line);
    match EntryArmOf(line)
    case StatusLine => e.(certificateStatus := Some(v))
    case HexLine => e.(certificateNumber := Some(WithHex(e.certificateNumber, v)))
    case DecimalLine => e.(certificateNumber := Some(WithDecimal(e.certificateNumber, v)))
    case _ => e
  }

  datatype EntryScan = EntryScan(stop: nat, entry: BindingCert)

  /**
   * The inner `while j2` loop from `j2` on: fills `e` until the next header, the
   * end, or a line whose key names a following section.
   */
  function ScanEntry(lines: seq<string>, j2: nat, e: BindingCert): (r: EntryScan)
    requires j2 <= |lines|
    ensures j2 <= r.stop <= |lines|
    decreases |lines| - j2
  {
    if j2 == |lines| || IsCertHeader(lines[j2]) || EntryArmOf(lines[j2]) == StopLine then EntryScan(j2, e)
    else ScanEntry(lines, j2 + 1, Fill(e, lines[j2]))
  }

  datatype SectionScan = SectionScan(end: nat, entries: seq<BindingCert>)

  /**
   * The outer `while j` loop from `j` on: one entry per header line, until the
   * end or a whole line that names a following section. That line is where
   * the main loop resumes.
   */
  function Section(lines: seq<string>, j: nat): (r: SectionScan)
    requires j <= |lines|
    ensures j <= r.end <= |lines|
    decreases |lines| - j
  {
    if j == |lines| then SectionScan(j, [])
    else if IsCertHeader(lines[j]) then
      var es := ScanEntry(lines, j + 1, EmptyEntry);
      var rest := Section(lines, es.stop);
      SectionScan(rest.end, [es.entry] + rest.entries)
    else if IsTerminator(lines[j]) then SectionScan(j, [])
    else Section(lines, j + 1)
  }

  // ---------- Permission Status ----------

  /** The first line at or after `j` that mentions "devices limit", or the end. */
  function PermStop(lines: seq<string>, j: nat): (r: nat)
    requires j <= |lines|
    ensures j <= r <= |lines|
    ensures r < |lines| ==> ContainsCI(lines[r], "devices limit")
    ensures forall t :: j <= t < r ==> !ContainsCI(lines[t], "devices limit")
    decreases |lines| - j
  {
    if j == |lines| || ContainsCI(lines[j], "devices limit") then j else PermStop(lines, j + 1)
  }

  /** The pair a permission line contributes: key and value stripped, split at the first colon; none without a colon. */
  function PermPair(line: string): (r: Option<(string, string)>)
    ensures r.None? <==> SplitAtColon(line).None?
  {
    var parts := SplitAtColon(line);
    if parts.None? then None else Some((Strip(parts.value.0), Strip(parts.value.1)))
  }

  /** One permission line: `perms[m[0].strip()] = m[1].strip()` when it has a colon. */
  function PutLine(m: Perms, line: string): Perms {
    var pair := PermPair(line);
    if pair.None? then m else Put(m, pair.value.0, pair.value.1)
  }

  /** The permission loop from `j` on, adding to `m`. */
  function Permissions(lines: seq<string>, j: nat, m: Perms): Perms
    requires j <= |lines|
    decreases |lines| - j
  {
    if j == |lines| || ContainsCI(lines[j], "devices limit") then m
    else Permissions(lines, j + 1, PutLine(m, lines[j]))
  }

  /** The dictionary the "permission status" line at `i` collects. */
  function PermissionBlock(lines: seq<string>, i: nat): Perms
    requires i < |lines|
  {
    Permissions(lines, i + 1, [])
  }

  // ---------- The main loop ----------

  /** What branch `a` of the chain does to the dictionaries when it handles line `i`. */
  function Apply(a: Arm, lines: seq<string>, i: nat, st: Scan): Scan
    requires i < |lines|
  {
    var val := ValueOf(lines[i]);
    var cert := st.cert;
    var prov := st.prov;
    match a
    case CertNameArm => st.(cert := cert.(certName := Some(val)))
    case CertEffectiveArm => st.(cert := cert.(effectiveDate := Some(NormalizeDate(Some(val)))))
    case CertExpirationArm => st.(cert := cert.(expirationDate := Some(NormalizeDate(Some(val)))))
    case IssuerArm => st.(cert := cert.(issuer := Some(val)))
    case CountryArm => st.(cert := cert.(country := Some(val)))
    case OrganizationArm => st.(cert := cert.(organization := Some(val)))
    case CertHexArm => st.(cert := cert.(certificateNumber := Some(WithHex(cert.certificateNumber, val))))
    case CertDecimalArm => st.(cert := cert.(certificateNumber := Some(WithDecimal(cert.certificateNumber, val))))
    case CertStatusArm => st.(cert := cert.(certificateStatus := Some(val)))
    case RevocationArm => st.(cert := cert.(revocationTime := Some(NormalizeDate(Some(val)))))
    case MpNameArm => st.(prov := prov.(mpName := Some(val)))
    case AppIdArm => st.(prov := prov.(appId := Some(val)))
    case IdentifierArm => st.(prov := prov.(identifier := Some(val)))
    case PlatformArm => st.(prov := prov.(platform := Some(val)))
    case ProvEffectiveArm => st.(prov := prov.(effectiveDate := Some(NormalizeDate(Some(val)))))
    case ProvExpirationArm => st.(prov := prov.(expirationDate := Some(NormalizeDate(Some(val)))))
    case BindingArm => st.(binding := st.binding + Section(lines, i + 1).entries)
    case MatchingArm => st.(prov := prov.(certificateMatchingStatus := Some(val)))
    case PermissionArm => st.(prov := prov.(permissionStatus := Some(PermissionBlock(lines, i))))
    case DevicesLimitArm => st.(prov := prov.(devicesLimit := Some(val)))
    case NoArm => st
  }

  /** The dictionaries after the main loop has handled line `i`: the branch `Classify` selects. */
  function Visit(lines: seq<string>, i: nat, st: Scan): Scan
    requires i < |lines|
  {
    Apply(Classify(lines[i], st.cert, st.prov), lines, i, st)
  }

  /**
   * The line the main loop handles after line `i`: past the binding section
   * (`i = j - 1; i += 1`) after a binding line, otherwise the next one. The
   * cursor always moves forward.
   */
  function Next(lines: seq<string>, i: nat): (r: nat)
    requires i < |lines|
    ensures i < r <= |lines|
  {
    if OpensBinding(lines[i]) then Section(lines, i + 1).end else i + 1
  }

  /** The main loop from line `i` on, starting from the dictionaries `st`. */
  function ParseFrom(lines: seq<string>, i: nat, st: Scan): Scan
    requires i <= |lines|
    decreases |lines| - i
  {
    if i == |lines| then st else ParseFrom(lines, Next(lines, i), Visit(lines, i, st))
  }

  /** After the loop: `BindingCertificates` is added only when an entry was found. */
  function Finish(st: Scan): Provisioning {
    if st.binding != [] then st.prov.(bindingCertificates := Some(st.binding)) else st.prov
  }

  /** The lines the main loop visits from `i` on, in order. */
  function VisitedFrom(lines: seq<string>, i: nat): (vs: seq<nat>)
    requires i <= |lines|
    ensures forall v <- vs :: i <= v < |lines|
    decreases |lines| - i
  {
    if i == |lines| then [] else
      var n := Next(lines, i);
      [i] + VisitedFrom(lines, n)
  }

  /** The main loop and the closing step over the extracted lines. */
  function ParseLines(lines: seq<string>): ParseResult {
    var st := ParseFrom(lines, 0, Start);
    Parsed(st.cert, Finish(st), lines)
  }

  /** `parse_checker_html`, from the children of the alert element when the page has one. */
  function ParseCheckerHtml(alert: Option<seq<Node>>): ParseResult {
    if alert.None? then NoAlert else ParseLines(AlertLines(alert.value))
  }
}
