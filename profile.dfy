/**
 * The display model the profile component derives from one spreadsheet row:
 * the canonical fields found through their alias lists, their defaults, the
 * completed links, the column labels, the photo and the extra columns.
 */
module Profile {
  import opened Wrappers
  import opened Strings
  import opened RowLookup
  import opened Links
  import opened Photo
  import opened ExtraColumns

  // ----- the alias lists, candidates in the order they are tried -----

  const NameKeys: seq<string> := ["Full Name", "Name"]
  const DesignationKeys: seq<string> := ["Designation", "Role", "Rank"]
  const DeptKeys: seq<string> := ["Department", "Dept"]
  const InstitutionKeys: seq<string> := ["Institution Name", "Institution", "College"]
  const EmployeeIdKeys: seq<string> := ["Employee ID", "ID", "Emp ID"]
  const EmailKeys: seq<string> := ["Official Email", "Email", "Mail"]
  const PhoneKeys: seq<string> := ["Phone Number", "Phone", "Mobile"]
  const OrcidKeys: seq<string> := ["ORCID ID", "orcid id", "ORCID", "ORC Id"]
  const ScholarKeys: seq<string> := ["Google Scholar Link", "google scholar", "Google Scholar", "Scholar"]
  const ScopusKeys: seq<string> := ["Scopus Link", "scopus", "Scopus ID", "Scopus"]
  const GithubKeys: seq<string> := ["Github", "GitHub Link", "GitHub"]
  const LinkedinKeys: seq<string> := ["Linkedin", "LinkedIn Link", "LinkedIn"]

  /** The photo is read under exactly this header, without case folding. */
  const PhotoKey: string := "Profile Photo Link"

  const DefaultName: string := "Faculty Member"
  const DefaultDesignation: string := "Designation"

  /**
   * The optional social links passed in by the caller; "" stands for a link
   * (or the whole record) that was not given. The mail link is never read.
   */
  datatype SocialLinks = SocialLinks(mail: string, github: string, linkedin: string)

  /** Everything the page shows about the person. */
  datatype Profile = Profile(
    name: string, designation: string, dept: string, institution: string,
    employeeId: string, officialEmail: string, phone: string,
    orcidId: string, orcidLink: string, orcidLabel: string,
    scholarUrl: string, scholarLabel: string,
    scopusUrl: string, scopusLabel: string,
    githubLink: string, linkedinLink: string,
    photo: string, extras: Row)

  /** The last character of `t` is a colon. */
  predicate EndsWithColon(t: string)
  {
    |t| > 0 && t[|t| - 1] == ':'
  }

  /**
   * `formatKey`: the trimmed header with one trailing colon removed, if it
   * has one; whitespace uncovered by removing the colon stays.
   */
  function FormatKey(key: string): (r: string)
    ensures EndsWithColon(Trim(key)) ==> r + ":" == Trim(key)
    ensures !EndsWithColon(Trim(key)) ==> r == Trim(key)
    ensures |Trim(key)| - 1 <= |r| <= |Trim(key)|
  {
    var t := Trim(key);
    if EndsWithColon(t) then t[..|t| - 1] else t
  }

  /** `value || fallback`. */
  function OrElse(value: string, fallback: string): string
  {
    if value != "" then value else fallback
  }

  /** The component's derived values for one row and the social links given. */
  function BuildProfile(row: Row, social: SocialLinks): Profile
  {
    var orcid := ResolveEntry(row, OrcidKeys);
    var scholar := ResolveEntry(row, ScholarKeys);
    var scopus := ResolveEntry(row, ScopusKeys);
    Profile(
      name := OrElse(ResolveEntry(row, NameKeys).value, DefaultName),
      designation := OrElse(ResolveEntry(row, DesignationKeys).value, DefaultDesignation),
      dept := ResolveEntry(row, DeptKeys).value,
      institution := ResolveEntry(row, InstitutionKeys).value,
      employeeId := ResolveEntry(row, EmployeeIdKeys).value,
      officialEmail := ResolveEntry(row, EmailKeys).value,
      phone := ResolveEntry(row, PhoneKeys).value,
      orcidId := orcid.value,
      orcidLink := OrcidLink(orcid.value),
      orcidLabel := FormatKey(orcid.key),
      scholarUrl := EnsureProtocol(scholar.value),
      scholarLabel := FormatKey(scholar.key),
      scopusUrl := EnsureProtocol(scopus.value),
      scopusLabel := FormatKey(scopus.key),
      githubLink := SocialLink(social.github, ResolveEntry(row, GithubKeys).value),
      linkedinLink := SocialLink(social.linkedin, ResolveEntry(row, LinkedinKeys).value),
      photo := GetPhotoUrl(Get(row, PhotoKey)),
      extras := OtherColumns(row))
  }

  // ----- properties of the labels -----

  /** A string that neither starts nor ends with whitespace trims to itself. */
  lemma TrimKeepsClean(s: string)
    requires s != [] && !IsWhitespace(s[0]) && !IsWhitespace(s[|s| - 1])
    ensures Trim(s) == s
  {
    assert Lead(s) == 0;
    assert |Trim(s)| == |s|;
  }

  /**
   * A clean label (no surrounding whitespace, no trailing colon) is shown as
   * it is, and the same label written with one trailing colon loses it.
   */
  lemma FormatKeyCleanLabel(k: string)
    requires k != [] && !IsWhitespace(k[0]) && !IsWhitespace(k[|k| - 1]) && k[|k| - 1] != ':'
    ensures FormatKey(k) == k
    ensures FormatKey(k + ":") == k
  {
    TrimKeepsClean(k);
    var c := k + ":";
    assert c[0] == k[0] && c[|c| - 1] == ':';
    TrimKeepsClean(c);
    assert c[..|c| - 1] == k;
  }

  /** Only one trailing colon is removed: "Scopus ID::" is shown as "Scopus ID:". */
  lemma FormatKeyStripsOneColon()
    ensures FormatKey("Scopus ID::") == "Scopus ID:"
  {
    var k := "Scopus ID:";
    assert k[0] == 'S' && k[|k| - 1] == ':';
    assert k + ":" == "Scopus ID::";
    TrimKeepsClean(k + ":");
    assert (k + ":")[..|k|] == k;
  }

  // ----- properties of the derived profile -----

  /** An http(s) link starts with "http". */
  lemma ProtocolStartsWithHttp(link: string)
    requires HasProtocol(link)
    ensures StartsWith(link, "http")
  {
    assert link[..4] == link[..7][..4];
  }

  /**
   * Whatever the row holds, the name and designation are never empty, every
   * link is either the sentinel "#" or an http(s) address, and the ORCID
   * link is the sentinel exactly when no ORCID id was found.
   */
  lemma ProfileShape(row: Row, social: SocialLinks)
    ensures BuildProfile(row, social).name != ""
    ensures BuildProfile(row, social).designation != ""
    ensures BuildProfile(row, social).orcidLink == NoLink <==> BuildProfile(row, social).orcidId == ""
    ensures BuildProfile(row, social).orcidLink == NoLink || StartsWith(BuildProfile(row, social).orcidLink, "http")
    ensures BuildProfile(row, social).scholarUrl == NoLink || StartsWith(BuildProfile(row, social).scholarUrl, "http")
    ensures BuildProfile(row, social).scopusUrl == NoLink || StartsWith(BuildProfile(row, social).scopusUrl, "http")
    ensures BuildProfile(row, social).githubLink == NoLink || StartsWith(BuildProfile(row, social).githubLink, "http")
    ensures BuildProfile(row, social).linkedinLink == NoLink || StartsWith(BuildProfile(row, social).linkedinLink, "http")
  {
    var p := BuildProfile(row, social);
    if p.scholarUrl != NoLink { ProtocolStartsWithHttp(p.scholarUrl); }
    if p.scopusUrl != NoLink { ProtocolStartsWithHttp(p.scopusUrl); }
    if p.githubLink != NoLink { ProtocolStartsWithHttp(p.githubLink); }
    if p.linkedinLink != NoLink { ProtocolStartsWithHttp(p.linkedinLink); }
  }

  /** A header the component reads itself: it folds to a handled name or to "rank". */
  predicate IsHandledHeader(h: string)
  {
    ToLower(h) in HandledKeys || ToLower(h) == ToLower("Rank")
  }

  /** Every column whose header is handled has an empty cell (or there is none). */
  predicate HandledCellsEmpty(row: Row)
  {
    forall k :: 0 <= k < |row| && IsHandledHeader(row[k].0) ==> row[k].1 == ""
  }

  /** On such a row a handled candidate yields nothing: every column folding to it is empty. */
  lemma HandledCandidateYieldsNothing(row: Row, key: string)
    requires HandledCellsEmpty(row) && IsHandledHeader(key)
    ensures CandidateHit(row, key) == None
  {
    forall k | 0 <= k < |row| && SameFold(row[k].0, key)
      ensures row[k].1 == ""
    {
      assert IsHandledHeader(row[k].0);
    }
  }

  /** A lookup whose candidates are all handled headers misses on such a row. */
  lemma HandledAliasesMiss(row: Row, keys: seq<string>)
    requires |keys| > 0 && HandledCellsEmpty(row)
    requires forall i :: 0 <= i < |keys| ==> IsHandledHeader(keys[i])
    ensures ResolveEntry(row, keys) == Entry(keys[0], "")
  {
    forall i | 0 <= i < |keys|
      ensures CandidateHit(row, keys[i]) == None
    {
      HandledCandidateYieldsNothing(row, keys[i]);
    }
    MissIff(row, keys);
  }

  // One lemma per alias list: each discharges that list's membership facts
  // on its own, which keeps the two lemmas below small.

  lemma MissNameKeys(row: Row)
    requires HandledCellsEmpty(row)
    ensures ResolveEntry(row, NameKeys) == Entry(NameKeys[0], "")
  {
    HandledAliasesMiss(row, NameKeys);
  }

  lemma MissDesignationKeys(row: Row)
    requires HandledCellsEmpty(row)
    ensures ResolveEntry(row, DesignationKeys) == Entry(DesignationKeys[0], "")
  {
    HandledAliasesMiss(row, DesignationKeys);
  }

  lemma MissDeptKeys(row: Row)
    requires HandledCellsEmpty(row)
    ensures ResolveEntry(row, DeptKeys) == Entry(DeptKeys[0], "")
  {
    HandledAliasesMiss(row, DeptKeys);
  }

  lemma MissInstitutionKeys(row: Row)
    requires HandledCellsEmpty(row)
    ensures ResolveEntry(row, InstitutionKeys) == Entry(InstitutionKeys[0], "")
  {
    HandledAliasesMiss(row, InstitutionKeys);
  }

  lemma MissEmployeeIdKeys(row: Row)
    requires HandledCellsEmpty(row)
    ensures ResolveEntry(row, EmployeeIdKeys) == Entry(EmployeeIdKeys[0], "")
  {
    HandledAliasesMiss(row, EmployeeIdKeys);
  }

  lemma MissEmailKeys(row: Row)
    requires HandledCellsEmpty(row)
    ensures ResolveEntry(row, EmailKeys) == Entry(EmailKeys[0], "")
  {
    HandledAliasesMiss(row, EmailKeys);
  }

  lemma MissPhoneKeys(row: Row)
    requires HandledCellsEmpty(row)
    ensures ResolveEntry(row, PhoneKeys) == Entry(PhoneKeys[0], "")
  {
    HandledAliasesMiss(row, PhoneKeys);
  }

  lemma MissOrcidKeys(row: Row)
    requires HandledCellsEmpty(row)
    ensures ResolveEntry(row, OrcidKeys) == Entry(OrcidKeys[0], "")
  {
    HandledAliasesMiss(row, OrcidKeys);
  }

  lemma MissScholarKeys(row: Row)
    requires HandledCellsEmpty(row)
    ensures ResolveEntry(row, ScholarKeys) == Entry(ScholarKeys[0], "")
  {
    HandledAliasesMiss(row, ScholarKeys);
  }

  lemma MissScopusKeys(row: Row)
    requires HandledCellsEmpty(row)
    ensures ResolveEntry(row, ScopusKeys) == Entry(ScopusKeys[0], "")
  {
    HandledAliasesMiss(row, ScopusKeys);
  }

  lemma MissGithubKeys(row: Row)
    requires HandledCellsEmpty(row)
    ensures ResolveEntry(row, GithubKeys) == Entry(GithubKeys[0], "")
  {
    HandledAliasesMiss(row, GithubKeys);
  }

  lemma MissLinkedinKeys(row: Row)
    requires HandledCellsEmpty(row)
    ensures ResolveEntry(row, LinkedinKeys) == Entry(LinkedinKeys[0], "")
  {
    HandledAliasesMiss(row, LinkedinKeys);
  }

  /**
   * On a row whose handled columns are all empty (or absent), the text
   * fields show their defaults: "Faculty Member", "Designation" and empty
   * strings.
   */
  lemma FieldDefaults(row: Row, social: SocialLinks)
    requires HandledCellsEmpty(row)
    ensures BuildProfile(row, social).name == DefaultName
    ensures BuildProfile(row, social).designation == DefaultDesignation
    ensures BuildProfile(row, social).dept == "" && BuildProfile(row, social).institution == ""
    ensures BuildProfile(row, social).employeeId == "" && BuildProfile(row, social).officialEmail == ""
    ensures BuildProfile(row, social).phone == ""
  {
    MissNameKeys(row);
    MissDesignationKeys(row);
    MissDeptKeys(row);
    MissInstitutionKeys(row);
    MissEmployeeIdKeys(row);
    MissEmailKeys(row);
    MissPhoneKeys(row);
  }

  /**
   * On such a row, with no social links given, every link is the sentinel
   * "#", each link label is the first alias of its group, and there is no
   * photo.
   */
  lemma LinkDefaults(row: Row, social: SocialLinks)
    requires HandledCellsEmpty(row)
    requires social.github == "" && social.linkedin == ""
    ensures BuildProfile(row, social).orcidId == ""
    ensures BuildProfile(row, social).orcidLink == NoLink && BuildProfile(row, social).scholarUrl == NoLink
    ensures BuildProfile(row, social).scopusUrl == NoLink && BuildProfile(row, social).githubLink == NoLink
    ensures BuildProfile(row, social).linkedinLink == NoLink
    ensures BuildProfile(row, social).orcidLabel == "ORCID ID"
    ensures BuildProfile(row, social).scholarLabel == "Google Scholar Link"
    ensures BuildProfile(row, social).scopusLabel == "Scopus Link"
    ensures BuildProfile(row, social).photo == ""
  {
    MissOrcidKeys(row);
    MissScholarKeys(row);
    MissScopusKeys(row);
    MissGithubKeys(row);
    MissLinkedinKeys(row);
    FormatKeyCleanLabel("ORCID ID");
    FormatKeyCleanLabel("Google Scholar Link");
    FormatKeyCleanLabel("Scopus Link");
    forall k | 0 <= k < |row| && row[k].0 == PhotoKey
      ensures row[k].1 == ""
    {
      assert IsHandledHeader(row[k].0);
    }
  }

  /** Empty "Name" and "Designation" columns show the default name and designation. */
  lemma EmptyNamedColumnsShowDefaults(social: SocialLinks)
    ensures BuildProfile([("Name", ""), ("Designation", "")], social).name == DefaultName
    ensures BuildProfile([("Name", ""), ("Designation", "")], social).designation == DefaultDesignation
  {
    FieldDefaults([("Name", ""), ("Designation", "")], social);
  }

  /**
   * The ORCID label names the column the id came from: a found id is the
   * value of a row column whose header folds to an ORCID alias and whose
   * formatted header is the label; with no id the label is "ORCID ID".
   */
  lemma OrcidLabelNamesColumn(row: Row, social: SocialLinks)
    ensures BuildProfile(row, social).orcidId != "" ==>
      exists k :: (k, BuildProfile(row, social).orcidId) in row && FormatKey(k) == BuildProfile(row, social).orcidLabel
        && exists i :: 0 <= i < |OrcidKeys| && SameFold(k, OrcidKeys[i])
    ensures BuildProfile(row, social).orcidId == "" ==> BuildProfile(row, social).orcidLabel == "ORCID ID"
  {
    var e := ResolveEntry(row, OrcidKeys);
    if e.value != "" {
      HitIsRowPair(row, OrcidKeys);
    } else {
      MissIff(row, OrcidKeys);
      FormatKeyCleanLabel("ORCID ID");
    }
  }

  /**
   * Candidates are tried in list order and a case-insensitive hit of an
   * earlier candidate wins: a "FULL NAME" column is shown even when an
   * exact "Name" column holds another value.
   */
  lemma FoldedFullNameBeatsExactName(a: string, b: string, social: SocialLinks)
    requires a != "" && b != ""
    ensures BuildProfile([("FULL NAME", a), ("Name", b)], social).name == a
  {
    var row := [("FULL NAME", a), ("Name", b)];
    assert "FULL NAME"[1] != "Full Name"[1];
    assert Get(row, "Full Name") == "";
    assert SameFold("FULL NAME", "Full Name") by {
      assert forall i :: 0 <= i < 9 ==> LowerChar("FULL NAME"[i]) == LowerChar("Full Name"[i]);
    }
    assert FindFold(row, "Full Name") == Some("FULL NAME");
    EarlierFoldHitBeatsLaterExact(row, NameKeys, 0, 1);
  }

  /**
   * "Rank" is the last designation alias but not a handled name, so a row
   * with only a "Rank" column shows its value as the designation and also
   * lists the column among the extra columns.
   */
  lemma RankFillsDesignationAndIsExtra(v: string, social: SocialLinks)
    requires v != ""
    ensures BuildProfile([("Rank", v)], social).designation == v
    ensures BuildProfile([("Rank", v)], social).extras == [("Rank", v)]
  {
    var row := [("Rank", v)];
    assert ToLower("Rank")[0] == 'r' && ToLower("Designation")[0] == 'd';
    assert !SameFold("Rank", "Designation");
    assert ToLower("Rank")[1] == 'a' && ToLower("Role")[1] == 'o';
    assert !SameFold("Rank", "Role");
    assert CandidateHit(row, "Designation").None?;
    assert CandidateHit(row, "Role").None?;
    FirstYieldingCandidateWins(row, DesignationKeys, 2);
    RankIsNotHandled();
    TrimKeepsClean("Rank");
    assert IsExtra(("Rank", v));
  }

  /**
   * The case-insensitive scan takes the first matching header only: with an
   * empty "email" column before a filled "EMAIL" column, the email lookup
   * misses.
   */
  lemma EmptyFirstFoldMatchHidesLaterOne(v: string, social: SocialLinks)
    requires v != ""
    ensures BuildProfile([("email", ""), ("EMAIL", v)], social).officialEmail == ""
  {
    EmailLookupMisses(v);
  }

  /** The email lookup on that row misses. */
  lemma EmailLookupMisses(v: string)
    requires v != ""
    ensures ResolveEntry([("email", ""), ("EMAIL", v)], EmailKeys).value == ""
  {
    var row := [("email", ""), ("EMAIL", v)];
    EmailCandidateYieldsNothing(v);
    OtherEmailCandidatesYieldNothing(v);
    MissIff(row, EmailKeys);
  }

  /** Neither "Official Email" nor "Mail" matches a header of that row, even folded. */
  lemma OtherEmailCandidatesYieldNothing(v: string)
    ensures CandidateHit([("email", ""), ("EMAIL", v)], "Official Email").None?
    ensures CandidateHit([("email", ""), ("EMAIL", v)], "Mail").None?
  {
  }

  /** The "Email" candidate stops at the empty "email" column. */
  lemma EmailCandidateYieldsNothing(v: string)
    requires v != ""
    ensures CandidateHit([("email", ""), ("EMAIL", v)], "Email").None?
  {
    var row := [("email", ""), ("EMAIL", v)];
    assert "email"[0] != "Email"[0] && "EMAIL"[1] != "Email"[1];
    assert Get(row, "Email") == "";
    assert SameFold("email", "Email") by {
      assert forall i :: 0 <= i < 5 ==> LowerChar("email"[i]) == LowerChar("Email"[i]);
    }
    assert FoldIndex(row, "Email") == 0;
    assert SameFold("EMAIL", "Email") by {
      assert forall i :: 0 <= i < 5 ==> LowerChar("EMAIL"[i]) == LowerChar("Email"[i]);
    }
    FoldScanStopsAtFirstMatch(row, "Email", 1);
  }

  /**
   * An exactly spelled header is read before any case-insensitive scan,
   * wherever it sits: a filled "Email" column after a filled "EMAIL" column
   * is the one shown.
   */
  lemma ExactHeaderReadFirst(a: string, b: string, social: SocialLinks)
    requires a != "" && b != ""
    ensures ResolveEntry([("EMAIL", a), ("Email", b)], EmailKeys) == Entry("Email", b)
    ensures BuildProfile([("EMAIL", a), ("Email", b)], social).officialEmail == b
  {
    var row := [("EMAIL", a), ("Email", b)];
    assert "EMAIL" != "Email" by {
      assert "EMAIL"[1] != "Email"[1];
    }
    assert Get(row, "Email") == b;
    assert CandidateHit(row, "Official Email").None? by {
      assert "EMAIL" != "Official Email" && "Email" != "Official Email";
      assert |ToLower("EMAIL")| != |ToLower("Official Email")|;
      assert |ToLower("Email")| != |ToLower("Official Email")|;
    }
    FirstYieldingCandidateWins(row, EmailKeys, 1);
  }
}
