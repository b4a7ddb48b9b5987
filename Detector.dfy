/**
  Messages as the bot sees them, the choice of the text to inspect, and the
  banned-keyword detector.
*/
module Detector {
  import opened Wrappers
  import opened Text

  /** A chat message: its id, its chat, its sender's user id (absent for
      messages sent on behalf of a channel), its body text, the caption of
      attached media, and the message it replies to. */
  datatype Message = Message(
    id: int,
    chat: int,
    sender: Option<int>,
    text: Option<string>,
    caption: Option<string>,
    replyTo: Option<Message>)

  /** Python truthiness of an optional string: present and not empty. */
  predicate IsFilled(s: Option<string>) {
    s.Some? && s.value != []
  }

  /** extract_text_from_message: the body text if there is one, the caption
      otherwise, and nothing when there is no message or neither is filled. */
  function ExtractText(msg: Option<Message>): (r: Option<string>)
    ensures r.Some? ==> r.value != [] && msg.Some?
    ensures r.Some? ==> r == msg.value.text || r == msg.value.caption
  {
    match msg
    case None => None
    case Some(m) =>
      if IsFilled(m.text) then m.text
      else if IsFilled(m.caption) then m.caption
      else None
  }

  /** The body text takes priority over the caption, the caption is used
      only without a body text, and a message with neither yields nothing. */
  lemma ExtractTextPriority(m: Message)
    ensures IsFilled(m.text) ==> ExtractText(Some(m)) == m.text
    ensures !IsFilled(m.text) && IsFilled(m.caption) ==> ExtractText(Some(m)) == m.caption
    ensures ExtractText(Some(m)).None? <==> !IsFilled(m.text) && !IsFilled(m.caption)
  {
  }

  /** extract_target_user_id: the sender of the message replied to, if any. */
  function ExtractTargetUserId(msg: Message): (r: Option<int>)
    ensures r.Some? <==> msg.replyTo.Some? && msg.replyTo.value.sender.Some?
    ensures r.Some? ==> r.value == msg.replyTo.value.sender.value
  {
    match msg.replyTo
    case None => None
    case Some(original) => original.sender
  }

  /** The form of a keyword that is compared: trimmed and lower-cased. */
  function Normalized(w: string): (n: string)
    ensures n == [] <==> IsBlank(w)
    ensures forall i :: 0 <= i < |n| ==> !IsUpper(n[i])
    ensures n != [] ==> !IsSpace(n[0]) && !IsSpace(n[|n| - 1])
  {
    StripSpec(w);
    Lower(Strip(w))
  }

  /** Keyword `w` flags the lower-cased text `low`: its normalized form is
      not empty and occurs in `low`. */
  predicate Flags(low: string, w: string)
    ensures Flags(low, w) ==> !IsBlank(w)
  {
    var n := Normalized(w);
    n != [] && Contains(low, n)
  }

  /** A keyword that is blank after trimming never flags anything, although
      its normalized form, being empty, occurs in every text: the non-empty
      test in Flags is what keeps such keywords from matching everything. */
  lemma BlankNeverFlags(low: string, w: string)
    requires IsBlank(w)
    ensures !Flags(low, w)
    ensures Contains(low, Normalized(w))
  {
    StripSpec(w);
    ContainsEmpty(low);
  }

  /** Entry `i` is the first entry of `words` that flags `low`. */
  ghost predicate IsFirstFlagged(low: string, words: seq<string>, i: int) {
    && 0 <= i < |words|
    && Flags(low, words[i])
    && forall j :: 0 <= j < i ==> !Flags(low, words[j])
  }

  /** The scan of text_has_banned_word's loop: the first keyword, in list
      order, that flags `low`, returned as it was written in the list. */
  function FirstFlagged(low: string, words: seq<string>): (r: Option<string>)
    ensures r.None? <==> forall i :: 0 <= i < |words| ==> !Flags(low, words[i])
    ensures r.Some? ==> exists i :: IsFirstFlagged(low, words, i) && words[i] == r.value
  {
    if words == [] then None
    else if Flags(low, words[0]) then
      assert IsFirstFlagged(low, words, 0);
      Some(words[0])
    else
      var r := FirstFlagged(low, words[1..]);
      assert r.Some? ==> exists i :: IsFirstFlagged(low, words, i) && words[i] == r.value by {
        if r.Some? {
          var i :| IsFirstFlagged(low, words[1..], i) && words[1..][i] == r.value;
          assert IsFirstFlagged(low, words, i + 1);
        }
      }
      assert r.None? ==> forall i :: 0 <= i < |words| ==> !Flags(low, words[i]) by {
        if r.None? {
          forall i | 1 <= i < |words| ensures !Flags(low, words[i]) {
            assert words[i] == words[1..][i - 1];
          }
        }
      }
      r
  }

  /** text_has_banned_word: nothing for an empty text, otherwise the first
      keyword flagging the lower-cased text. */
  function Detect(text: string, words: seq<string>): (r: Option<string>)
    ensures text == [] ==> r.None?
    ensures r.Some? ==> r.value in words && r.value != [] && Normalized(r.value) != []
  {
    if text == [] then None else FirstFlagged(Lower(text), words)
  }

  /** The detector's promise in full: for a non-empty text it finds a keyword
      exactly when some entry's trimmed, lower-cased form is non-empty and
      occurs in the lower-cased text, and what it finds is the first such
      entry, unnormalized. */
  lemma DetectSpec(text: string, words: seq<string>)
    requires text != []
    ensures Detect(text, words).None? <==>
              forall i :: 0 <= i < |words| ==> Normalized(words[i]) == [] || !Contains(Lower(text), Normalized(words[i]))
    ensures Detect(text, words).Some? ==>
              exists i :: IsFirstFlagged(Lower(text), words, i) && words[i] == Detect(text, words).value
  {
  }

  /** Matching ignores letter case in the text. */
  lemma DetectIgnoresCase(t1: string, t2: string, words: seq<string>)
    requires Lower(t1) == Lower(t2)
    ensures Detect(t1, words) == Detect(t2, words)
  {
  }

  /** A keyword is found anywhere in the text, also inside a longer word. */
  lemma DetectFindsEmbedded(before: string, w: string, after: string)
    requires Normalized(w) != []
    ensures Detect(before + Normalized(w) + after, [w]) == Some(w)
  {
    var text := before + Normalized(w) + after;
    var n := Normalized(w);
    LowerIdempotent(Strip(w));
    assert Lower(text) == Lower(before) + n + Lower(after);
    var low := Lower(text);
    assert low[|before|..|before| + |n|] == n;
    assert OccursAt(low, n, |before|);
    ContainsIff(low, n);
  }
}
