/**
 * The student's feedback page: finding the YouTube video in a reference link,
 * splitting the reference links, and the per-feedback reaction form (choose an
 * emoji, write an optional message of at most 100 characters, send).
 */
module StudentFeedback {
  import opened Wrappers
  import opened Text
  import Seqs

  /** A character the video id may contain: anything but `&`, a line feed, `?` and `#`. */
  predicate IdChar(c: char) {
    c != '&' && c != '\n' && c != '?' && c != '#'
  }

  /** The longest run of id characters starting at `i` (the greedy `[^&\n?#]+`, possibly empty here). */
  function IdRun(s: string, i: nat): (r: string)
    requires i <= |s|
    ensures i + |r| <= |s| && r == s[i..i + |r|]
    ensures forall k :: 0 <= k < |r| ==> IdChar(r[k])
    ensures i + |r| == |s| || !IdChar(s[i + |r|])
    ensures i < |s| && IdChar(s[i]) ==> |r| > 0
    decreases |s| - i
  {
    if i < |s| && IdChar(s[i]) then
      var rest := IdRun(s, i + 1);
      assert s[i..i + 1 + |rest|] == [s[i]] + s[i + 1..i + 1 + |rest|];
      [s[i]] + rest
    else []
  }

  /** The first pattern's alternatives, in the order the regular expression tries them. */
  const WatchOrShortLink: seq<string> := ["youtube.com/watch?v=", "youtu.be/", "youtube.com/embed/"]

  /** The second pattern. */
  const ShortsLink: seq<string> := ["youtube.com/shorts/"]

  const Patterns: seq<seq<string>> := [WatchOrShortLink, ShortsLink]

  /** Alternative `alt` matches at `p`: it occurs there and at least one id character follows. */
  predicate AltMatches(s: string, p: nat, alt: string) {
    OccursAt(s, alt, p) && p + |alt| < |s| && IdChar(s[p + |alt|])
  }

  /** The first alternative, from the `i`-th on, that matches at `p`. */
  function MatchingAlt(s: string, p: nat, alts: seq<string>, i: nat): (r: Option<nat>)
    requires i <= |alts|
    ensures r.Some? ==> i <= r.value < |alts| && AltMatches(s, p, alts[r.value])
    ensures r.Some? ==> forall j :: i <= j < r.value ==> !AltMatches(s, p, alts[j])
    ensures r.None? ==> forall j :: i <= j < |alts| ==> !AltMatches(s, p, alts[j])
    decreases |alts| - i
  {
    if i == |alts| then None
    else if AltMatches(s, p, alts[i]) then Some(i)
    else MatchingAlt(s, p, alts, i + 1)
  }

  /** The leftmost position, from `from` on, where some alternative matches. */
  function MatchPosition(s: string, alts: seq<string>, from: nat): (r: Option<nat>)
    requires from <= |s|
    ensures r.Some? ==> from <= r.value < |s| && MatchingAlt(s, r.value, alts, 0).Some?
    ensures r.Some? ==> forall q :: from <= q < r.value ==> MatchingAlt(s, q, alts, 0).None?
    ensures r.None? ==> forall q :: from <= q < |s| ==> MatchingAlt(s, q, alts, 0).None?
    decreases |s| - from
  {
    if from == |s| then None
    else if MatchingAlt(s, from, alts, 0).Some? then Some(from)
    else MatchPosition(s, alts, from + 1)
  }

  /**
   * `url.match(pattern)?.[1]`: the id after the leftmost match, where at each
   * position the alternatives are tried in order.
   */
  function MatchId(s: string, alts: seq<string>): (r: Option<string>)
    ensures r.Some? <==> MatchPosition(s, alts, 0).Some?
    ensures r.Some? ==>
      var p := MatchPosition(s, alts, 0).value;
      var k := MatchingAlt(s, p, alts, 0).value;
      && r.value == IdRun(s, p + |alts[k]|)
      && |r.value| > 0
      && forall c :: 0 <= c < |r.value| ==> IdChar(r.value[c])
  {
    match MatchPosition(s, alts, 0)
    case None => None
    case Some(p) =>
      var k := MatchingAlt(s, p, alts, 0).value;
      Some(IdRun(s, p + |alts[k]|))
  }

  /**
   * `getYoutubeVideoId`: tries the patterns in order and returns the id of the
   * first one that matches anywhere in the link.
   */
  method GetYoutubeVideoId(url: string) returns (id: Option<string>)
    ensures id.Some? ==>
      exists k :: 0 <= k < |Patterns| && MatchId(url, Patterns[k]) == id &&
                  forall j :: 0 <= j < k ==> MatchId(url, Patterns[j]).None?
    ensures id.None? ==> forall k :: 0 <= k < |Patterns| ==> MatchId(url, Patterns[k]).None?
  {
    var i := 0;
    while i < |Patterns|
      invariant 0 <= i <= |Patterns|
      invariant forall j :: 0 <= j < i ==> MatchId(url, Patterns[j]).None?
    {
      var m := MatchId(url, Patterns[i]);
      if m.Some? {
        return m;
      }
      i := i + 1;
    }
    return None;
  }

  /** `isYoutubeUrl` */
  predicate IsYoutubeUrl(url: string) {
    Contains(url, "youtube.com") || Contains(url, "youtu.be")
  }

  /** Every alternative of every pattern begins with "youtube.com" or "youtu.be". */
  lemma AlternativesNameYoutube(i: nat, k: nat)
    requires i < |Patterns| && k < |Patterns[i]|
    ensures (|Patterns[i][k]| >= 11 && Patterns[i][k][..11] == "youtube.com")
            || (|Patterns[i][k]| >= 8 && Patterns[i][k][..8] == "youtu.be")
  {
  }

  /** A link any pattern finds a video in is a YouTube link, so the page's `isYoutubeUrl` guard never hides a video. */
  lemma MatchImpliesYoutubeUrl(url: string, i: nat)
    requires i < |Patterns|
    requires MatchId(url, Patterns[i]).Some?
    ensures IsYoutubeUrl(url)
  {
    var alts := Patterns[i];
    var p := MatchPosition(url, alts, 0).value;
    var k := MatchingAlt(url, p, alts, 0).value;
    AlternativesNameYoutube(i, k);
    var alt := alts[k];
    assert url[p..p + |alt|] == alt;
    if |alt| >= 11 && alt[..11] == "youtube.com" {
      assert url[p..p + 11] == alt[..11];
      assert OccursAt(url, "youtube.com", p);
    } else {
      assert url[p..p + 8] == alt[..8];
      assert OccursAt(url, "youtu.be", p);
    }
  }

  /**
   * The id the page embeds for one link: `isYoutubeUrl(url) ?
   * getYoutubeVideoId(url) : null`, which is the extractor's answer.
   */
  method EmbeddedVideoId(url: string) returns (videoId: Option<string>)
    ensures videoId.Some? ==> IsYoutubeUrl(url)
    ensures videoId.Some? ==>
      exists k :: 0 <= k < |Patterns| && MatchId(url, Patterns[k]) == videoId &&
                  forall j :: 0 <= j < k ==> MatchId(url, Patterns[j]).None?
    ensures videoId.None? ==> forall k :: 0 <= k < |Patterns| ==> MatchId(url, Patterns[k]).None?
  {
    if IsYoutubeUrl(url) {
      videoId := GetYoutubeVideoId(url);
    } else {
      forall k | 0 <= k < |Patterns| ensures MatchId(url, Patterns[k]).None? {
        if MatchId(url, Patterns[k]).Some? {
          MatchImpliesYoutubeUrl(url, k);
        }
      }
      videoId := None;
    }
  }

  predicate NotBlank(line: string) { !IsBlank(line) }

  /** `reference_urls.split('\n').filter(url => url.trim())` */
  function ReferenceLinks(referenceUrls: string): (r: seq<string>)
    ensures forall k :: 0 <= k < |r| ==> !IsBlank(r[k]) && '\n' !in r[k] && r[k] in Split(referenceUrls, '\n')
    ensures forall k :: 0 <= k < |Split(referenceUrls, '\n')| && !IsBlank(Split(referenceUrls, '\n')[k]) ==>
              Split(referenceUrls, '\n')[k] in r
    ensures Seqs.IsSubsequence(r, Split(referenceUrls, '\n'))
  {
    Seqs.Filter(Split(referenceUrls, '\n'), NotBlank)
  }

  const MaxMessageLength: nat := 100

  /** A message a form can hold: at most 100 UTF-16 code units. */
  type FormMessage = s: string | Utf16Length(s) <= MaxMessageLength witness ""

  /** One feedback's reaction form. */
  datatype ReactionState = ReactionState(selectedEmoji: Option<string>, message: FormMessage, isSubmitting: bool,
                                         showInput: bool)

  /** What the page reads for a feedback it has no entry for: every field falsy. */
  const NoReaction := ReactionState(None, "", false, false)

  /** A feedback as the student sees it, with the reaction already sent, if any. */
  datatype Feedback = Feedback(id: string, referenceUrls: Option<string>, reaction: Option<string>,
                               message: Option<string>, reactedAt: Option<int>)

  /** The body of `PATCH /feedback/:id/reaction`. */
  datatype ReactionRequest = ReactionRequest(feedbackId: string, reaction: string, message: Option<string>)

  class FeedbackPage {
    var feedbacks: seq<Feedback>
    var reactionState: map<string, ReactionState>
    var sent: seq<ReactionRequest>

    constructor (fetched: seq<Feedback>)
      ensures feedbacks == fetched && reactionState == map[] && sent == []
    {
      feedbacks := fetched;
      reactionState := map[];
      sent := [];
    }

    function EntryOf(feedbackId: string): ReactionState
      reads this
    {
      if feedbackId in reactionState then reactionState[feedbackId] else NoReaction
    }

    /** `handleEmojiSelect`: picks the emoji and opens the message input, keeping a message already typed. */
    method HandleEmojiSelect(feedbackId: string, emoji: string)
      modifies this
      ensures reactionState == old(reactionState)[feedbackId :=
                ReactionState(Some(emoji), old(EntryOf(feedbackId)).message, false, true)]
      ensures feedbacks == old(feedbacks) && sent == old(sent)
    {
      var prev := EntryOf(feedbackId);
      reactionState := reactionState[feedbackId := ReactionState(Some(emoji), prev.message, false, true)];
    }

    /** `handleMessageChange`: a text longer than 100 code units is ignored. */
    method HandleMessageChange(feedbackId: string, message: string)
      modifies this
      ensures Utf16Length(message) > MaxMessageLength ==> reactionState == old(reactionState)
      ensures Utf16Length(message) <= MaxMessageLength ==>
        reactionState == old(reactionState)[feedbackId := old(EntryOf(feedbackId)).(message := message)]
      ensures feedbacks == old(feedbacks) && sent == old(sent)
    {
      if Utf16Length(message) <= MaxMessageLength {
        var prev := EntryOf(feedbackId);
        reactionState := reactionState[feedbackId := prev.(message := message)];
      }
    }

    /**
     * `submitReaction`: nothing happens without a chosen emoji.  Otherwise the
     * request goes out; on success only that feedback records the reaction,
     * the message (none when empty) and the time, and its form is reset; on
     * failure the list is unchanged and the form is no longer submitting.
     */
    method SubmitReaction(feedbackId: string, patchSucceeds: bool, now: int)
      modifies this
      ensures old(EntryOf(feedbackId)).selectedEmoji.GetOr("") == "" ==>
        feedbacks == old(feedbacks) && reactionState == old(reactionState) && sent == old(sent)
      ensures old(EntryOf(feedbackId)).selectedEmoji.GetOr("") != "" ==>
        var state := old(EntryOf(feedbackId));
        var message := if state.message == "" then None else Some(state.message);
        && sent == old(sent) + [ReactionRequest(feedbackId, state.selectedEmoji.value, message)]
        && (patchSucceeds ==>
              && reactionState == old(reactionState)[feedbackId := NoReaction]
              && |feedbacks| == |old(feedbacks)|
              && forall k :: 0 <= k < |feedbacks| ==>
                   feedbacks[k] == (if old(feedbacks)[k].id == feedbackId
                                    then old(feedbacks)[k].(reaction := state.selectedEmoji, message := message,
                                                            reactedAt := Some(now))
                                    else old(feedbacks)[k]))
        && (!patchSucceeds ==>
              && feedbacks == old(feedbacks)
              && reactionState == old(reactionState)[feedbackId := state.(isSubmitting := false)])
    {
      var state := EntryOf(feedbackId);
      if state.selectedEmoji.GetOr("") == "" {
        return;
      }
      reactionState := reactionState[feedbackId := state.(isSubmitting := true)];
      var message := if state.message == "" then None else Some(state.message);
      sent := sent + [ReactionRequest(feedbackId, state.selectedEmoji.value, message)];
      if patchSucceeds {
        var prev := feedbacks;
        feedbacks := seq(|prev|, k requires 0 <= k < |prev| =>
          if prev[k].id == feedbackId
          then prev[k].(reaction := state.selectedEmoji, message := message, reactedAt := Some(now))
          else prev[k]);
        reactionState := reactionState[feedbackId := NoReaction];
      } else {
        reactionState := reactionState[feedbackId := state.(isSubmitting := false)];
      }
    }
  }
}
