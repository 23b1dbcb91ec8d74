/**
 * Link-shape completion of the profile component: `ensureProtocol` for the
 * GitHub, LinkedIn, Scholar and Scopus hrefs and the ORCID link rule. The
 * string "#" is the sentinel for "no link"; the page hides a link equal to it.
 */
module Links {
  import opened Strings

  const NoLink: string := "#"
  const OrcidBase: string := "https://orcid.org/"

  /** The link already names its protocol. */
  predicate HasProtocol(link: string)
  {
    StartsWith(link, "http://") || StartsWith(link, "https://")
  }

  /**
   * `ensureProtocol(link)`: "" and "#" give the sentinel, a link with an
   * http(s) protocol is kept, anything else gets "https://" in front.
   */
  function EnsureProtocol(link: string): (r: string)
    ensures r == NoLink || HasProtocol(r)
    ensures r == NoLink <==> (link == "" || link == NoLink)
    ensures HasProtocol(link) ==> r == link
    ensures link != "" && link != NoLink && !HasProtocol(link) ==> r == "https://" + link
  {
    if link == "" || link == NoLink then NoLink
    else if HasProtocol(link) then link
    else "https://" + link
  }

  /** Completing a link twice changes nothing more than completing it once. */
  lemma EnsureProtocolIdempotent(link: string)
    ensures EnsureProtocol(EnsureProtocol(link)) == EnsureProtocol(link)
  {
    var r := EnsureProtocol(link);
    if r != NoLink && !HasProtocol(link) {
      assert r[..8] == "https://";
    }
  }

  /** A real link always ends with the text it was made from. */
  lemma EnsureProtocolKeepsLink(link: string)
    requires EnsureProtocol(link) != NoLink
    ensures EnsureProtocol(link) == link || EnsureProtocol(link) == "https://" + link
  {
  }

  /**
   * The ORCID href: "#" for an empty id, the id itself when it starts with
   * "http", otherwise the id under https://orcid.org/.
   */
  function OrcidLink(id: string): (r: string)
    ensures r == NoLink <==> id == ""
    ensures r != NoLink ==> StartsWith(r, "http")
    ensures id != "" && StartsWith(id, "http") ==> r == id
    ensures id != "" && !StartsWith(id, "http") ==> r == OrcidBase + id
  {
    if id == "" then NoLink
    else if StartsWith(id, "http") then id
    else OrcidBase + id
  }

  /**
   * The GitHub and LinkedIn hrefs: a non-empty value passed in by the caller
   * is used in preference to the value found in the row.
   */
  function SocialLink(given: string, fromRow: string): (r: string)
    ensures given != "" ==> r == EnsureProtocol(given)
    ensures given == "" ==> r == EnsureProtocol(fromRow)
  {
    EnsureProtocol(if given != "" then given else fromRow)
  }

  /** Sample values of `ensureProtocol`. */
  lemma EnsureProtocolExamples()
    ensures EnsureProtocol("") == "#" && EnsureProtocol("#") == "#"
    ensures EnsureProtocol("example.com") == "https://example.com"
    ensures EnsureProtocol("http://x") == "http://x"
  {
    var e := "example.com";
    assert e[..7][0] == 'e' && e[..8][0] == 'e';
    assert !HasProtocol(e);
    assert "http://x"[..7] == "http://";
  }

  /** Sample values of the ORCID link rule. */
  lemma OrcidLinkExamples()
    ensures OrcidLink("0000-0001-2345-6789") == "https://orcid.org/0000-0001-2345-6789"
    ensures OrcidLink("") == "#"
  {
    var id := "0000-0001-2345-6789";
    assert id[..4][0] == '0';
  }
}
