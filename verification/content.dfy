/**
 * The content script's blocking decisions (content.js): which title rules
 * match, which video ID an element's link carries, whether an element is
 * blocked, the processed marker each element carries, and the context-menu
 * "block this video" request that appends to the blocked-ID list.
 */
module Content {
  import opened Wrappers
  import opened Strings
  import opened Blocklist

  // ---------------------------------------------------------------------------
  // Title rules

  /** A rule applies when, once trimmed, it is non-empty and occurs in the title ignoring case. */
  predicate RuleMatches(rule: string, title: string)
  {
    var trimmed := Trim(rule);
    trimmed != [] && Contains(Lower(title), Lower(trimmed))
  }

  /** A rule that is empty or only whitespace never matches. */
  lemma BlankRuleNeverMatches(rule: string, title: string)
    requires AllWhitespace(rule)
    ensures !RuleMatches(rule, title)
  {
  }

  /** A non-blank rule matches exactly when its trimmed lower-case form is a substring of the lower-case title. */
  lemma RuleMatchesIff(rule: string, title: string)
    requires !AllWhitespace(rule)
    ensures RuleMatches(rule, title) <==> exists i :: OccursAt(Lower(title), Lower(Trim(rule)), i)
  {
  }

  /** Matching ignores the case of the title. */
  lemma RuleMatchIgnoresTitleCase(rule: string, title: string)
    ensures RuleMatches(rule, Lower(title)) == RuleMatches(rule, title)
  {
    LowerIdempotent(title);
  }

  /** `rules.some(...)` */
  function AnyRuleMatches(rules: seq<string>, title: string): (r: bool)
    ensures r <==> exists k :: 0 <= k < |rules| && RuleMatches(rules[k], title)
  {
    if rules == [] then false
    else RuleMatches(rules[0], title) || AnyRuleMatches(rules[1..], title)
  }

  /** `blockedVideoIds.some(entry => entry.id === id)` */
  function HasBlockedId(entries: seq<Entry>, id: string): (r: bool)
    ensures r <==> exists k :: 0 <= k < |entries| && entries[k].id == id
  {
    if entries == [] then false
    else entries[0].id == id || HasBlockedId(entries[1..], id)
  }

  /** The element is blocked when a title rule matches or its video ID is on the blocked list. */
  function ShouldBlock(title: string, videoId: Option<string>, rules: seq<string>, entries: seq<Entry>): (r: bool)
    ensures r <==> (exists k :: 0 <= k < |rules| && RuleMatches(rules[k], title))
                   || (videoId.Some? && exists k :: 0 <= k < |entries| && entries[k].id == videoId.value)
  {
    AnyRuleMatches(rules, title) || (videoId.Some? && HasBlockedId(entries, videoId.value))
  }

  /** With no rules and no blocked IDs nothing is ever blocked: the early exit of processVideos loses nothing. */
  lemma NothingBlockedWithoutRules(title: string, videoId: Option<string>)
    ensures !ShouldBlock(title, videoId, [], [])
  {
  }

  // ---------------------------------------------------------------------------
  // Video IDs in links

  const WatchPrefix: string := "v="
  const ShortsPrefix: string := "/shorts/"

  /** At index `i` of `s`, `prefix` is followed by 11 ID characters. */
  predicate IdFollows(s: string, i: nat, prefix: string)
  {
    i + |prefix| + IdLength <= |s|
    && s[i..i + |prefix|] == prefix
    && IsVideoId(s[i + |prefix|..i + |prefix| + IdLength])
  }

  /**
   * The capture of the pattern tried at index `i` alone: `v=` followed by an
   * ID, or, when `shorts` is set, `/shorts/` followed by an ID.
   */
  function IdMatchAt(s: string, i: nat, shorts: bool): (r: Option<string>)
    ensures r.Some? ==> IsVideoId(r.value)
    ensures r.Some? <==> IdFollows(s, i, WatchPrefix) || (shorts && IdFollows(s, i, ShortsPrefix))
    ensures r.Some? ==>
      (IdFollows(s, i, WatchPrefix) && r.value == s[i + |WatchPrefix|..i + |WatchPrefix| + IdLength])
      || (shorts && IdFollows(s, i, ShortsPrefix) && r.value == s[i + |ShortsPrefix|..i + |ShortsPrefix| + IdLength])
  {
    if IdFollows(s, i, WatchPrefix) then Some(s[i + |WatchPrefix|..i + |WatchPrefix| + IdLength])
    else if shorts && IdFollows(s, i, ShortsPrefix) then Some(s[i + |ShortsPrefix|..i + |ShortsPrefix| + IdLength])
    else None
  }

  /** The leftmost match at or after index `i`, as `String.prototype.match` finds it for an unanchored pattern. */
  function FirstIdMatch(s: string, i: nat, shorts: bool): (r: Option<string>)
    ensures r.Some? ==> IsVideoId(r.value)
    decreases |s| - i
  {
    if i >= |s| then None
    else match IdMatchAt(s, i, shorts)
      case Some(id) => Some(id)
      case None => FirstIdMatch(s, i + 1, shorts)
  }

  /**
   * The search returns the capture at the least index where the pattern
   * matches, and nothing when it matches nowhere.
   */
  lemma {:induction false} FirstIdMatchIsLeftmost(s: string, i: nat, shorts: bool)
    ensures FirstIdMatch(s, i, shorts).None? <==> forall j :: i <= j < |s| ==> IdMatchAt(s, j, shorts).None?
    ensures FirstIdMatch(s, i, shorts).Some? ==>
      exists j :: i <= j < |s| && IdMatchAt(s, j, shorts) == FirstIdMatch(s, i, shorts)
                  && forall k :: i <= k < j ==> IdMatchAt(s, k, shorts).None?
    decreases |s| - i
  {
    if i < |s| && IdMatchAt(s, i, shorts).None? {
      FirstIdMatchIsLeftmost(s, i + 1, shorts);
      if FirstIdMatch(s, i, shorts).Some? {
        var j :| i + 1 <= j < |s| && IdMatchAt(s, j, shorts) == FirstIdMatch(s, i + 1, shorts)
                 && forall k :: i + 1 <= k < j ==> IdMatchAt(s, k, shorts).None?;
        assert forall k :: i <= k < j ==> IdMatchAt(s, k, shorts).None?;
      }
    }
  }

  /** The ID of a context-menu URL: `url.match(/v=([a-zA-Z0-9_-]{11})/)`. */
  function UrlVideoId(url: string): (r: Option<string>)
    ensures r.Some? ==> IsVideoId(r.value)
  {
    FirstIdMatch(url, 0, false)
  }

  /**
   * The ID of a context-menu URL is the 11 characters after the leftmost `v=`
   * that is followed by an ID; there is none when no `v=` is.
   */
  lemma UrlVideoIdIsLeftmostCapture(url: string)
    ensures UrlVideoId(url).None? <==> forall j :: 0 <= j < |url| ==> !IdFollows(url, j, WatchPrefix)
    ensures UrlVideoId(url).Some? ==>
      exists j :: 0 <= j < |url| && IdFollows(url, j, WatchPrefix)
                  && UrlVideoId(url).value == url[j + |WatchPrefix|..j + |WatchPrefix| + IdLength]
                  && forall k :: 0 <= k < j ==> !IdFollows(url, k, WatchPrefix)
  {
    FirstIdMatchIsLeftmost(url, 0, false);
    assert forall j :: IdMatchAt(url, j, false).None? <==> !IdFollows(url, j, WatchPrefix);
  }

  /** The ID of an element's link: `/v=([a-zA-Z0-9_-]{11})|\/shorts\/([a-zA-Z0-9_-]{11})/`, null without a link. */
  function HrefVideoId(href: Option<string>): (r: Option<string>)
    ensures r.Some? ==> IsVideoId(r.value)
    ensures href.None? ==> r.None?
  {
    match href
    case None => None
    case Some(h) => FirstIdMatch(h, 0, true)
  }

  // ---------------------------------------------------------------------------
  // Elements and their processed marker

  /** The values of an element's `data-blocker-processed` attribute; `Unprocessed` is its absence. */
  datatype Marker = Unprocessed | NoTitle | Checked | Blocked

  /** The title checkAndBlockVideo works with: the trimmed text of the title element, absent when blank. */
  function ElementTitle(titleText: Option<string>): (r: Option<string>)
    ensures r.Some? ==> r.value != [] && IsTrimmed(r.value)
    ensures r.Some? ==> titleText.Some? && r.value == Trim(titleText.value)
    ensures r.None? <==> titleText.None? || AllWhitespace(titleText.value)
  {
    match titleText
    case None => None
    case Some(text) => if Trim(text) == [] then None else Some(Trim(text))
  }

  /** The marker an element carries after checkAndBlockVideo. */
  function NextMarker(m: Marker, titleText: Option<string>, href: Option<string>,
                      rules: seq<string>, entries: seq<Entry>): (r: Marker)
    ensures r != Unprocessed
    ensures m == Blocked ==> r == Blocked
    ensures m != Blocked ==> (r == NoTitle <==> ElementTitle(titleText).None?)
    ensures m != Blocked && ElementTitle(titleText).Some? ==>
      (r == Blocked <==> ShouldBlock(ElementTitle(titleText).value, HrefVideoId(href), rules, entries))
  {
    if m == Blocked then Blocked
    else match ElementTitle(titleText)
      case None => NoTitle
      case Some(title) =>
        if ShouldBlock(title, HrefVideoId(href), rules, entries) then Blocked else Checked
  }

  /** Checking an element again under the same rules leaves its marker as it is. */
  lemma NextMarkerIdempotent(m: Marker, titleText: Option<string>, href: Option<string>,
                             rules: seq<string>, entries: seq<Entry>)
    ensures var once := NextMarker(m, titleText, href, rules, entries);
            NextMarker(once, titleText, href, rules, entries) == once
  {
  }

  /** A recommended-video element: its title text and link are read-only here, its marker is updated. */
  class VideoElement {
    /** Text of the first title element, `None` when there is none. */
    const titleText: Option<string>
    /** `href` of the first watch or shorts link, `None` when there is none. */
    const href: Option<string>
    var marker: Marker

    constructor (titleText: Option<string>, href: Option<string>)
      ensures this.titleText == titleText && this.href == href && marker == Unprocessed
    {
      this.titleText := titleText;
      this.href := href;
      marker := Unprocessed;
    }
  }

  /** The answer to a `blockVideo` message; `Ignored` when the message is not one. */
  datatype BlockResponse = Ignored | Rejected(error: string) | Accepted(id: string, title: string)

  /** The title stored for a newly blocked video: the trimmed text found, or 'Unknown Title'. */
  function EntryTitle(titleText: Option<string>): (r: string)
    ensures r != []
    ensures titleText.Some? && !AllWhitespace(titleText.value) ==> r == Trim(titleText.value)
    ensures titleText.None? || AllWhitespace(titleText.value) ==> r == UnknownTitle
  {
    match ElementTitle(titleText)
    case None => UnknownTitle
    case Some(title) => title
  }

  /** The per-page blocker: the user's rules, the blocked-ID list, and whether the extension is on. */
  class VideoBlocker {
    var rules: seq<string>
    var blockedVideoIds: seq<Entry>
    var extensionEnabled: bool

    constructor (rules: seq<string>, blockedVideoIds: seq<Entry>, extensionEnabled: bool)
      ensures this.rules == rules && this.blockedVideoIds == blockedVideoIds
      ensures this.extensionEnabled == extensionEnabled
    {
      this.rules := rules;
      this.blockedVideoIds := blockedVideoIds;
      this.extensionEnabled := extensionEnabled;
    }

    /** processVideos goes on only when the extension is on and there is a rule or a blocked ID. */
    predicate Active()
      reads this
    {
      extensionEnabled && (|rules| > 0 || |blockedVideoIds| > 0)
    }

    /** checkAndBlockVideo: decides the element and records the decision in its marker. */
    method CheckAndBlockVideo(v: VideoElement)
      modifies v`marker
      ensures v.marker == NextMarker(old(v.marker), v.titleText, v.href, rules, blockedVideoIds)
      ensures old(v.marker) == Blocked ==> v.marker == Blocked
      ensures old(v.marker) != Blocked && ElementTitle(v.titleText).None? ==> v.marker == NoTitle
    {
      if v.marker == Blocked {
        return;
      }
      var title := ElementTitle(v.titleText);
      if title.None? {
        v.marker := NoTitle;
        return;
      }
      var videoId := HrefVideoId(v.href);
      var shouldBlock := ShouldBlock(title.value, videoId, rules, blockedVideoIds);
      if shouldBlock {
        v.marker := Blocked;
      } else {
        v.marker := Checked;
      }
    }

    /**
     * processVideos without a target video: after the early-exit guard, every
     * element not yet marked (or every element, when forced) is checked.
     */
    method ProcessVideos(elements: seq<VideoElement>, force: bool)
      requires forall j, k :: 0 <= j < k < |elements| ==> elements[j] != elements[k]
      modifies elements
      ensures !Active() ==> forall k :: 0 <= k < |elements| ==> elements[k].marker == old(elements[k].marker)
      ensures forall k :: 0 <= k < |elements| ==>
        elements[k].marker ==
          if Active() && (force || old(elements[k].marker) == Unprocessed)
          then NextMarker(old(elements[k].marker), elements[k].titleText, elements[k].href, rules, blockedVideoIds)
          else old(elements[k].marker)
    {
      if !extensionEnabled || (|rules| == 0 && |blockedVideoIds| == 0) {
        return;
      }
      for i := 0 to |elements|
        invariant forall k :: 0 <= k < i ==>
          elements[k].marker ==
            if force || old(elements[k].marker) == Unprocessed
            then NextMarker(old(elements[k].marker), elements[k].titleText, elements[k].href, rules, blockedVideoIds)
            else old(elements[k].marker)
        invariant forall k :: i <= k < |elements| ==> elements[k].marker == old(elements[k].marker)
      {
        var v := elements[i];
        if force || v.marker == Unprocessed {
          CheckAndBlockVideo(v);
        }
      }
    }

    /**
     * The context-menu `blockVideo` handler: rejects a URL without a video ID
     * and an ID already listed, and otherwise appends one entry.
     */
    method BlockVideo(action: string, url: string, titleText: Option<string>) returns (response: BlockResponse)
      modifies this`blockedVideoIds
      ensures (action != "blockVideo" || url == []) ==>
        response == Ignored && blockedVideoIds == old(blockedVideoIds)
      ensures action == "blockVideo" && url != [] && UrlVideoId(url).None? ==>
        response == Rejected("Invalid video ID") && blockedVideoIds == old(blockedVideoIds)
      ensures action == "blockVideo" && url != [] && UrlVideoId(url).Some?
              && (exists k :: 0 <= k < |old(blockedVideoIds)| && old(blockedVideoIds)[k].id == UrlVideoId(url).value) ==>
        response == Rejected("Video already blocked") && blockedVideoIds == old(blockedVideoIds)
      ensures action == "blockVideo" && url != [] && UrlVideoId(url).Some?
              && (forall k :: 0 <= k < |old(blockedVideoIds)| ==> old(blockedVideoIds)[k].id != UrlVideoId(url).value) ==>
        response == Accepted(UrlVideoId(url).value, EntryTitle(titleText))
        && blockedVideoIds == old(blockedVideoIds) + [Entry(UrlVideoId(url).value, EntryTitle(titleText))]
      ensures UniqueIds(old(blockedVideoIds)) ==> UniqueIds(blockedVideoIds)
      ensures forall k :: 0 <= k < |old(blockedVideoIds)| ==> blockedVideoIds[k] == old(blockedVideoIds)[k]
    {
      if action != "blockVideo" || url == [] {
        return Ignored;
      }
      var videoIdMatch := UrlVideoId(url);
      if videoIdMatch.None? {
        return Rejected("Invalid video ID");
      }
      var videoId := videoIdMatch.value;
      if HasBlockedId(blockedVideoIds, videoId) {
        return Rejected("Video already blocked");
      }
      var title := EntryTitle(titleText);
      blockedVideoIds := blockedVideoIds + [Entry(videoId, title)];
      response := Accepted(videoId, title);
    }
  }
}
