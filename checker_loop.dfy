/**
 * The loops of `parse_checker_html` in scripts/check_certificates.py as
 * written: a cursor `i` over the lines, the nested cursors `j` and `j2` of the
 * binding section, and the permission cursor, each proved to compute the
 * function of the same name in the `Checker` module.
 */
module CheckerLoop {
  import opened Wrappers
  import opened Text
  import opened KeyValue
  import opened Dates
  import opened LineExtraction
  import opened Checker
  import opened CheckerProps

  /** The `if` chain on a line inside an entry: a status or a number half is recorded, any other line changes nothing. */
  method FillEntry(entry: BindingCert, line: string) returns (entry': BindingCert)
    ensures entry' == Fill(entry, line)
  {
    var v := ValueOf(line);
    entry' := entry;
    match EntryArmOf(line) {
      case StatusLine => entry' := entry.(certificateStatus := Some(v));
      case HexLine => entry' := entry.(certificateNumber := Some(WithHex(entry.certificateNumber, v)));
      case DecimalLine => entry' := entry.(certificateNumber := Some(WithDecimal(entry.certificateNumber, v)));
      case StopLine =>
      case OtherLine =>
    }
  }

  /** The inner `while j2` loop: fill one entry from the lines after a header. */
  method ScanEntryLoop(lines: seq<string>, start: nat) returns (j2: nat, entry: BindingCert)
    requires start <= |lines|
    ensures EntryScan(j2, entry) == ScanEntry(lines, start, EmptyEntry)
  {
    entry := EmptyEntry;
    j2 := start;
    while j2 < |lines| && !IsCertHeader(lines[j2])
      invariant start <= j2 <= |lines|
      invariant ScanEntry(lines, j2, entry) == ScanEntry(lines, start, EmptyEntry)
      decreases |lines| - j2
    {
      if EntryArmOf(lines[j2]) == StopLine {
        ScanEntryHalt(lines, j2, entry);
        break;
      }
      var filled := FillEntry(entry, lines[j2]);
      ScanEntryStep(lines, j2, entry, filled);
      entry := filled;
      j2 := j2 + 1;
    }
    if j2 == |lines| || IsCertHeader(lines[j2]) {
      ScanEntryHalt(lines, j2, entry);
    }
  }

  /** The outer `while j` loop of the binding section: one entry per header, until the end or a line naming a following section. */
  method SectionLoop(lines: seq<string>, start: nat) returns (j: nat, entries: seq<BindingCert>)
    requires start <= |lines|
    ensures SectionScan(j, entries) == Section(lines, start)
  {
    j := start;
    entries := [];
    while j < |lines|
      invariant start <= j <= |lines|
      invariant Section(lines, start) == SectionScan(Section(lines, j).end, entries + Section(lines, j).entries)
      decreases |lines| - j
    {
      if IsCertHeader(lines[j]) {
        var j2, entry := ScanEntryLoop(lines, j + 1);
        SectionAtHeader(lines, j, j2, entry);
        AppendAssoc(entries, [entry], Section(lines, j2).entries);
        entries := entries + [entry];
        j := j2;
        continue;
      } else if IsTerminator(lines[j]) {
        SectionAtTerminator(lines, j);
        break;
      }
      SectionSkip(lines, j);
      j := j + 1;
    }
    assert entries + [] == entries;
  }

  /** The permission loop: collect `key: value` pairs until a "devices limit" line or the end. */
  method PermissionsLoop(lines: seq<string>, start: nat) returns (perms: Perms)
    requires start <= |lines|
    ensures perms == Permissions(lines, start, [])
    ensures UniqueKeys(perms)
  {
    perms := [];
    var j := start;
    while j < |lines|
      invariant start <= j <= |lines|
      invariant Permissions(lines, j, perms) == Permissions(lines, start, [])
      decreases |lines| - j
    {
      if ContainsCI(lines[j], "devices limit") {
        break;
      }
      var pair := PermPair(lines[j]);
      if pair.Some? {
        perms := Put(perms, pair.value.0, pair.value.1);
      }
      j := j + 1;
    }
    PermissionsUnique(lines, start, []);
  }

  /**
   * The body of the main loop for line `i`: the branch of the `elif` chain
   * `Classify` selects, with the two sub-scanners run as loops. `next` is the
   * cursor after `i += 1`: `j` after a binding section (`i = j - 1`), `i + 1`
   * otherwise.
   */
  method HandleLine(lines: seq<string>, i: nat, cert: Certificate, prov: Provisioning, binding: seq<BindingCert>)
    returns (cert': Certificate, prov': Provisioning, binding': seq<BindingCert>, next: nat)
    requires i < |lines|
    ensures Scan(cert', prov', binding') == Visit(lines, i, Scan(cert, prov, binding))
    ensures next == Next(lines, i)
  {
    var line := lines[i];
    var val := ValueOf(line);
    OpensBindingIff(line, cert, prov);
    cert', prov', binding', next := cert, prov, binding, i + 1;
    match Classify(line, cert, prov)
    case CertNameArm => cert' := cert.(certName := Some(val));
    case CertEffectiveArm => cert' := cert.(effectiveDate := Some(NormalizeDate(Some(val))));
    case CertExpirationArm => cert' := cert.(expirationDate := Some(NormalizeDate(Some(val))));
    case IssuerArm => cert' := cert.(issuer := Some(val));
    case CountryArm => cert' := cert.(country := Some(val));
    case OrganizationArm => cert' := cert.(organization := Some(val));
    case CertHexArm => cert' := cert.(certificateNumber := Some(WithHex(cert.certificateNumber, val)));
    case CertDecimalArm => cert' := cert.(certificateNumber := Some(WithDecimal(cert.certificateNumber, val)));
    case CertStatusArm => cert' := cert.(certificateStatus := Some(val));
    case RevocationArm => cert' := cert.(revocationTime := Some(NormalizeDate(Some(val))));
    case MpNameArm => prov' := prov.(mpName := Some(val));
    case AppIdArm => prov' := prov.(appId := Some(val));
    case IdentifierArm => prov' := prov.(identifier := Some(val));
    case PlatformArm => prov' := prov.(platform := Some(val));
    case ProvEffectiveArm => prov' := prov.(effectiveDate := Some(NormalizeDate(Some(val))));
    case ProvExpirationArm => prov' := prov.(expirationDate := Some(NormalizeDate(Some(val))));
    case BindingArm =>
      var j, entries := SectionLoop(lines, i + 1);
      binding' := binding + entries;
      next := j;
    case MatchingArm => prov' := prov.(certificateMatchingStatus := Some(val));
    case PermissionArm =>
      var perms := PermissionsLoop(lines, i + 1);
      prov' := prov.(permissionStatus := Some(perms));
    case DevicesLimitArm => prov' := prov.(devicesLimit := Some(val));
    case NoArm =>
  }

  /** The main `while i < len(lines)` loop and the closing step over the extracted lines. */
  method ParseLinesLoop(lines: seq<string>) returns (r: ParseResult)
    ensures r == ParseLines(lines)
  {
    var cert, prov, binding := EmptyCertificate, EmptyProvisioning, [];
    var i := 0;
    while i < |lines|
      invariant i <= |lines|
      invariant ParseFrom(lines, i, Scan(cert, prov, binding)) == ParseFrom(lines, 0, Start)
      decreases |lines| - i
    {
      cert, prov, binding, i := HandleLine(lines, i, cert, prov, binding);
    }
    if binding != [] {
      prov := prov.(bindingCertificates := Some(binding));
    }
    r := Parsed(cert, prov, lines);
  }

  /** `parse_checker_html` over the children of the alert element, when the page has one. */
  method ParseCheckerHtmlLoop(alert: Option<seq<Node>>) returns (r: ParseResult)
    ensures r == ParseCheckerHtml(alert)
  {
    if alert.None? {
      return NoAlert;
    }
    var lines := LinesFromAlertDiv(alert.value);
    r := ParseLinesLoop(lines);
  }
}
