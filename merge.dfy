/**
 * The row-merge rule of `main` in scripts/check_certificates.py: each README
 * row takes its status and dates from the first check result whose folder
 * name contains the row's company, falling back to "Unknown".
 */
module Merge {
  import opened Wrappers
  import opened Text
  import opened Checker
  import opened Readme

  /**
   * One element of `all_entries`: the folder name and the two reshaped
   * records; both records are `None` for a folder whose check raised.
   */
  datatype Entry = Entry(source: string, certificate: Option<Certificate>, provisioning: Option<Provisioning>)

  /** Python truthiness of an optional string: present and not empty. */
  predicate Truthy(v: Option<string>) {
    v.Some? && v.value != ""
  }

  /** `d.get(key)` on a field holding what `normalize_date` returned: absent and `None` read alike. */
  function Flat(v: Option<Option<string>>): (r: Option<string>)
    ensures r.Some? <==> v.Some? && v.value.Some?
    ensures r.Some? ==> r.value == v.value.value
  {
    if v.Some? then v.value else None
  }

  /** `e.get('source') and ct['company'].lower() in e['source'].lower()`. */
  predicate Matches(e: Entry, company: string) {
    e.source != "" && Contains(Lower(e.source), Lower(company))
  }

  /** `next((e for e in all_entries if ...), None)`: the index of the first matching entry. */
  function FirstEntry(entries: seq<Entry>, company: string): (r: Option<nat>)
    ensures r.Some? ==> r.value < |entries| && Matches(entries[r.value], company)
    ensures r.Some? ==> forall k :: 0 <= k < r.value ==> !Matches(entries[k], company)
    ensures r.None? ==> forall e <- entries :: !Matches(e, company)
  {
    if entries == [] then None
    else if Matches(entries[0], company) then Some(0)
    else
      var rest := FirstEntry(entries[1..], company);
      assert forall e <- entries[1..] :: e in entries;
      if rest.None? then None else Some(rest.value + 1)
  }

  /** `(match.get('Certificate') or {}).get('CertificateStatus') or "Unknown"`. */
  function StatusOf(e: Entry): string {
    var s := if e.certificate.Some? then e.certificate.value.certificateStatus else None;
    if Truthy(s) then s.value else "Unknown"
  }

  /** The first truthy of the profile's date and the certificate's date, else "Unknown". */
  function DateOf(prov: Option<string>, cert: Option<string>): (r: string)
    ensures r != ""
    ensures Truthy(prov) ==> r == prov.value
    ensures !Truthy(prov) && Truthy(cert) ==> r == cert.value
    ensures !Truthy(prov) && !Truthy(cert) ==> r == "Unknown"
  {
    if Truthy(prov) then prov.value else if Truthy(cert) then cert.value else "Unknown"
  }

  /** The profile's effective date of an entry, if reported. */
  function ProvEffective(e: Entry): Option<string> {
    if e.provisioning.Some? then Flat(e.provisioning.value.effectiveDate) else None
  }

  function CertEffective(e: Entry): Option<string> {
    if e.certificate.Some? then Flat(e.certificate.value.effectiveDate) else None
  }

  function ProvExpiration(e: Entry): Option<string> {
    if e.provisioning.Some? then Flat(e.provisioning.value.expirationDate) else None
  }

  function CertExpiration(e: Entry): Option<string> {
    if e.certificate.Some? then Flat(e.certificate.value.expirationDate) else None
  }

  /**
   * One README row after the merge: with a matching entry its status and
   * dates are replaced, otherwise it is left as parsed. The company, type,
   * download link and line index never change.
   */
  function MergeRow(ct: Row, entries: seq<Entry>): (r: Row)
    ensures r.company == ct.company && r.certType == ct.certType
    ensures r.download == ct.download && r.lineIndex == ct.lineIndex
    ensures FirstEntry(entries, ct.company).None? ==> r == ct
    ensures FirstEntry(entries, ct.company).Some? ==> r.status != "" && r.validFrom != "" && r.validTo != ""
  {
    var m := FirstEntry(entries, ct.company);
    if m.None? then ct
    else
      var e := entries[m.value];
      ct.(status := StatusOf(e),
          validFrom := DateOf(ProvEffective(e), CertEffective(e)),
          validTo := DateOf(ProvExpiration(e), CertExpiration(e)))
  }

  /** The `for ct in certs_table` loop: every row merged, in order. */
  function MergeRows(rows: seq<Row>, entries: seq<Entry>): (r: seq<Row>)
    ensures |r| == |rows|
    ensures forall k :: 0 <= k < |rows| ==> r[k] == MergeRow(rows[k], entries)
  {
    if rows == [] then [] else [MergeRow(rows[0], entries)] + MergeRows(rows[1..], entries)
  }

  /**
   * A row with a matching entry: its status is the entry's certificate status
   * when that is non-empty, else "Unknown"; each date comes from the profile
   * when non-empty, else from the certificate when non-empty, else "Unknown".
   */
  lemma MergeRowMatched(ct: Row, entries: seq<Entry>, k: nat)
    requires k < |entries| && Matches(entries[k], ct.company)
    requires forall j :: 0 <= j < k ==> !Matches(entries[j], ct.company)
    ensures var e := entries[k]; var r := MergeRow(ct, entries);
      r.status == StatusOf(e)
      && r.validFrom == DateOf(ProvEffective(e), CertEffective(e))
      && r.validTo == DateOf(ProvExpiration(e), CertExpiration(e))
  {
    var m := FirstEntry(entries, ct.company);
    assert m == Some(k);
  }

  /** A failed check (no records) reports "Unknown" for the status and both dates. */
  lemma MergeRowFailedCheck(ct: Row, entries: seq<Entry>, k: nat)
    requires k < |entries| && Matches(entries[k], ct.company)
    requires forall j :: 0 <= j < k ==> !Matches(entries[j], ct.company)
    requires entries[k].certificate.None? && entries[k].provisioning.None?
    ensures var r := MergeRow(ct, entries); r.status == "Unknown" && r.validFrom == "Unknown" && r.validTo == "Unknown"
  {
    MergeRowMatched(ct, entries, k);
  }

  /**
   * After the merge a matched row never falls back to the old date cells of
   * its line: `update_readme_table` can only raise for such a row when its
   * status has no label and the line has at most three `|` parts.
   */
  lemma MergedRowReadsOnlyStatus(ct: Row, entries: seq<Entry>, parts: seq<string>)
    requires FirstEntry(entries, ct.company).Some?
    ensures var r := MergeRow(ct, entries);
      ReadsMissing(r, parts) <==> TableLabel(r.status).None? && |parts| <= 3
  {
  }

  /**
   * A matched entry without a certificate status gives the "Unknown" status,
   * which `update_readme_table` writes as its fixed label.
   */
  lemma MissingStatusLabel(ct: Row, entries: seq<Entry>, k: nat)
    requires k < |entries| && Matches(entries[k], ct.company)
    requires forall j :: 0 <= j < k ==> !Matches(entries[j], ct.company)
    requires entries[k].certificate.None? || !Truthy(entries[k].certificate.value.certificateStatus)
    ensures TableLabel(MergeRow(ct, entries).status) == Some("\U{26A0}\U{FE0F} Status: Unknown")
  {
    MergeRowMatched(ct, entries, k);
    UnknownLabel();
  }

  /** The literal "Unknown" has the fixed status label. */
  lemma UnknownLabel()
    ensures TableLabel("Unknown") == Some("\U{26A0}\U{FE0F} Status: Unknown")
  {
    assert Lower("Unknown") == "unknown";
  }
}
