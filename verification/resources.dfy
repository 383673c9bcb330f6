/** Turning a skill's resource strings into links and labels. A resource is
    either a URL or a human-readable title; titles become search links. The
    skill page and the skill dialog share `getResourceLink` /
    `getResourceLabel`; the shared-roadmap page builds its own `href`.
    `encodeURIComponent` is not modelled: a search link carries its query
    text. */
module Resources {
  import opened Wrappers
  import opened Text

  datatype Link =
    | Direct(url: string)          // the resource itself
    | YouTubeSearch(query: string) // https://www.youtube.com/results?search_query=<query>
    | GoogleSearch(query: string)  // https://www.google.com/search?q=<query>

  /** `resource.startsWith('http')` */
  predicate IsHttp(resource: string) {
    StartsWith(resource, "http")
  }

  /** `resource.toLowerCase().includes('youtube')` */
  predicate MentionsYouTube(resource: string) {
    Contains(Lower(resource), "youtube")
  }

  // The leading `YouTube:` matched by the case-insensitive pattern
  // `^YouTube:\s*`, in any letter case.
  predicate HasYouTubePrefix(s: string) {
    |s| >= 8 && Lower(s[..8]) == "youtube:"
  }

  // Replacing the case-insensitive pattern `^YouTube:\s*` by nothing: drops
  // a leading `YouTube:` (any case) and the whitespace after it; anything
  // else is unchanged.
  function StripYouTubePrefix(s: string): (r: string)
    ensures |r| <= |s| && r == s[|s| - |r|..]
    ensures !HasYouTubePrefix(s) ==> r == s
    ensures HasYouTubePrefix(s) ==> |r| <= |s| - 8 && (|r| == 0 || !IsSpace(r[0]))
    ensures HasYouTubePrefix(s) ==> forall i :: 8 <= i < |s| - |r| ==> IsSpace(s[i])
  {
    if HasYouTubePrefix(s) then TrimStart(s[8..]) else s
  }

  /** `getResourceLink` of the skill page and the skill dialog. */
  function ResourceLink(resource: string, skillName: string): (r: Link)
    ensures IsHttp(resource) ==> r == Direct(resource)
    ensures !IsHttp(resource) && MentionsYouTube(resource) ==> r == YouTubeSearch(StripYouTubePrefix(resource))
    ensures !IsHttp(resource) && !MentionsYouTube(resource) ==> r == GoogleSearch(resource + " " + skillName)
  {
    if IsHttp(resource) then Direct(resource)
    else if MentionsYouTube(resource) then YouTubeSearch(StripYouTubePrefix(resource))
    else GoogleSearch(resource + " " + skillName)
  }

  /** `getResourceLabel`. `hostname` is what `new URL(resource).hostname`
      yields, `None` when the constructor throws. */
  function ResourceLabel(resource: string, hostname: Option<string>): (r: string)
    ensures IsHttp(resource) && hostname.None? ==> r == "Documentation"
    ensures IsHttp(resource) && hostname.Some? && !Contains(hostname.value, "www.") ==> r == hostname.value
    ensures IsHttp(resource) && hostname.Some? && StartsWith(hostname.value, "www.") ==> r == hostname.value[4..]
    ensures !IsHttp(resource) && !MentionsYouTube(resource) ==> r == resource
  {
    if IsHttp(resource) then
      match hostname
      case None => "Documentation"
      case Some(h) => ReplaceFirst(h, "www.", "")
    else if MentionsYouTube(resource) then StripYouTubePrefix(resource)
    else resource
  }

  /** The `href` of a resource on the shared-roadmap page. */
  function SharedHref(resource: string): (r: Link)
    ensures IsHttp(resource) ==> r == Direct(resource)
    ensures !IsHttp(resource) && !MentionsYouTube(resource) ==> r == GoogleSearch(resource)
  {
    if IsHttp(resource) then Direct(resource)
    else if MentionsYouTube(resource) then YouTubeSearch(StripYouTubePrefix(resource))
    else GoogleSearch(resource)
  }

  /** A YouTube title is shown under the same text the link searches for,
      and that text no longer starts with the `YouTube:` tag's whitespace. */
  lemma YouTubeLabelIsQuery(resource: string, skillName: string, hostname: Option<string>)
    requires !IsHttp(resource) && MentionsYouTube(resource)
    ensures ResourceLink(resource, skillName) == YouTubeSearch(ResourceLabel(resource, hostname))
    ensures |ResourceLabel(resource, hostname)| <= |resource|
  {
  }

  /** The shared page links like the skill page, except that its Google
      search leaves out the skill name. */
  lemma SharedHrefMatchesSkillLink(resource: string, skillName: string)
    ensures ResourceLink(resource, skillName).GoogleSearch? <==> SharedHref(resource).GoogleSearch?
    ensures !ResourceLink(resource, skillName).GoogleSearch? ==> SharedHref(resource) == ResourceLink(resource, skillName)
    ensures ResourceLink(resource, skillName).GoogleSearch? ==>
      ResourceLink(resource, skillName).query == SharedHref(resource).query + " " + skillName
  {
  }

  /** A `YouTube:`-tagged title is always a YouTube search for the text after
      the tag (it cannot start with "http"). */
  lemma TaggedTitleSearchesYouTube(resource: string, skillName: string)
    requires HasYouTubePrefix(resource)
    ensures ResourceLink(resource, skillName) == YouTubeSearch(TrimStart(resource[8..]))
  {
    var low := Lower(resource);
    assert low[..8] == Lower(resource[..8]);
    assert low[..7] == "youtube" by {
      assert low[..7] == low[..8][..7];
    }
    assert StartsWith(low, "youtube");
    assert MentionsYouTube(resource);
    assert LowerChar(resource[0]) == 'y' by {
      assert low[0] == low[..8][0];
    }
    assert !IsHttp(resource);
  }
}
