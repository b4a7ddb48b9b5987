/**
  What each handler of the bot does, as a reference definition over values:
  the configuration it leaves behind and the steps it takes on the platform.
  The class in module BotState performs the same handlers step by step and
  is proved to agree with these definitions; the lemmas here state the
  properties the handlers promise.
*/
module Handlers {
  import opened Wrappers
  import opened Text
  import opened Numbers
  import opened Config
  import opened Detector
  import opened Actions

  /** A handler run's result: the configuration afterwards and the steps taken. */
  datatype Effect = Effect(config: ConfigRecord, steps: seq<Step>)

  /** A command as a handler receives it: the user who sent it, the words
      after the command name, and the command message itself (its chat, and
      the message it replies to). */
  datatype CommandUpdate = CommandUpdate(user: int, args: seq<string>, message: Message)

  /** send_and_autodelete with the delay every caller uses. */
  function Notify(chat: int, notice: Notice, p: Platform): seq<Step> {
    NoticeSteps(chat, notice, NoticeSeconds, p)
  }

  /** The keyword argument of /addword and /delword: `" ".join(args).strip()`. */
  function Argument(args: seq<string>): string {
    Strip(Join(args))
  }

  /** The end of a mute that starts at `now` (seconds) and lasts `minutes`. */
  function MutedUntil(now: int, minutes: int): (until: int)
    ensures until - now == 60 * minutes
  {
    now + 60 * minutes
  }

  /** The first and the last second Python's `datetime` can represent, in
      seconds since 1970-01-01 UTC: 0001-01-01 00:00:00 and
      9999-12-31 23:59:59. */
  const MinDatetimeSeconds: int := -62135596800
  const MaxDatetimeSeconds: int := 253402300799

  /** `now + timedelta(minutes=...)` ends inside datetime's range; outside it
      the addition raises OverflowError. With `now` the whole seconds of a
      time that may carry a fraction, the end is representable exactly when
      its whole seconds lie in this range. */
  predicate InDatetimeRange(t: int) {
    MinDatetimeSeconds <= t <= MaxDatetimeSeconds
  }

  /** Any duration /setmute accepts, starting at a time at least a week
      before datetime's last second, ends inside datetime's range. */
  lemma ValidMuteEndsInRange(now: int, minutes: int)
    requires IsValidMute(minutes)
    requires MinDatetimeSeconds <= now <= MaxDatetimeSeconds - 60 * MaxMuteMinutes
    ensures InDatetimeRange(MutedUntil(now, minutes))
  {
  }

  /** Under a well-formed configuration (every one /setmute and the
      default produce) the overflow cannot happen: a flagged message of a
      non-admin is always followed by the restriction of its sender, at any
      time up to a week before datetime's last second. */
  lemma WellFormedAlwaysRestricts(m: Message, cfg: ConfigRecord, now: int, p: Platform)
    requires WellFormed(cfg)
    requires MinDatetimeSeconds <= now <= MaxDatetimeSeconds - 60 * MaxMuteMinutes
    requires m.sender.Some? && ExtractText(Some(m)).Some? && !IsAdmin(p.role)
    requires Detect(ExtractText(Some(m)).value, cfg.bannedWords).Some?
    ensures var t := MessageSteps(Some(m), cfg, now, p);
            |t| >= 3 && t[2] == Attempt(Restrict(m.chat, m.sender.value, false, now + 60 * cfg.muteMinutes), p.restrictOk)
  {
    ValidMuteEndsInRange(now, cfg.muteMinutes);
    MatchEnforced(m, cfg, now, p);
  }

  /** A duration taken over unchecked from config.json can leave datetime's
      range from any time after 1970: five billion minutes is about 9500
      years. */
  lemma LoadedMuteCanOverflow(now: int, words: WordsField)
    requires 0 <= now <= MaxDatetimeSeconds
    ensures !InDatetimeRange(MutedUntil(now, LoadConfig(Object(Some(5000000000), words)).muteMinutes))
  {
  }

  // ---------------------------------------------------------------------
  // handle_message
  // ---------------------------------------------------------------------

  /** The enforcement of a matched message: delete it; then, whatever the
      deletion did, compute the end of the mute, which raises and ends the
      handler when it falls outside datetime's range; otherwise restrict
      the sender until then, and post the notice only if the restriction
      succeeded. */
  function EnforceSteps(m: Message, user: int, word: string, minutes: int, now: int, p: Platform): (e: seq<Step>)
    ensures |e| >= 1 && e[0] == Attempt(DeleteMessage(m.chat, m.id), p.deleteOk)
  {
    if InDatetimeRange(MutedUntil(now, minutes)) then
      [ Attempt(DeleteMessage(m.chat, m.id), p.deleteOk),
        Attempt(Restrict(m.chat, user, false, MutedUntil(now, minutes)), p.restrictOk) ]
      + (if p.restrictOk then Notify(m.chat, Muted(user, minutes, word), p) else [])
    else
      [Attempt(DeleteMessage(m.chat, m.id), p.deleteOk)]
  }

  /** handle_message: skip a missing message or a message without a sender,
      skip a message without text or caption, ask for the sender's role and
      skip admins, run the detector over the current keyword list, and
      enforce on a match with the current mute duration. */
  function MessageSteps(msg: Option<Message>, cfg: ConfigRecord, now: int, p: Platform): (t: seq<Step>)
    ensures t != [] ==> msg.Some? && msg.value.sender.Some? &&
                        t[0] == Attempt(GetMember(msg.value.chat, msg.value.sender.value), p.role.Answered?)
  {
    if msg.None? || msg.value.sender.None? then []
    else
      var m := msg.value;
      var user := m.sender.value;
      match ExtractText(msg)
      case None => []
      case Some(text) =>
        var auth := AuthSteps(m.chat, user, p);
        if IsAdmin(p.role) then auth
        else
          match Detect(text, cfg.bannedWords)
          case None => auth
          case Some(word) => auth + EnforceSteps(m, user, word, cfg.muteMinutes, now, p)
  }

  // ---------------------------------------------------------------------
  // Admin commands
  // ---------------------------------------------------------------------

  /** /addword: admins only; a usage hint without arguments; the trimmed
      argument is appended and persisted unless some entry already has the
      same lower form. */
  function AddWordEffect(cfg: ConfigRecord, cmd: CommandUpdate, p: Platform): (e: Effect)
    ensures e.config.muteMinutes == cfg.muteMinutes
    ensures |e.steps| >= 1 && e.steps[0] == Attempt(GetMember(cmd.message.chat, cmd.user), p.role.Answered?)
    ensures e.config != cfg ==> IsAdmin(p.role) && |e.steps| >= 2 && e.steps[1] == Saved(e.config)
  {
    var chat := cmd.message.chat;
    var auth := AuthSteps(chat, cmd.user, p);
    if !IsAdmin(p.role) then Effect(cfg, auth)
    else if cmd.args == [] then Effect(cfg, auth + Notify(chat, Usage(AddWordCommand), p))
    else
      var word := Argument(cmd.args);
      if IsListed(cfg.bannedWords, word) then Effect(cfg, auth + Notify(chat, AlreadyListed(word), p))
      else
        var next := cfg.(bannedWords := cfg.bannedWords + [word]);
        Effect(next, auth + [Saved(next)] + Notify(chat, Added(word), p))
  }

  /** /delword: admins only; a usage hint without arguments; otherwise every
      entry whose lower form equals the trimmed, lower-cased argument is
      dropped, the result persisted whether or not anything was dropped, and
      the notice says whether the list got shorter. */
  function DelWordEffect(cfg: ConfigRecord, cmd: CommandUpdate, p: Platform): (e: Effect)
    ensures e.config.muteMinutes == cfg.muteMinutes
    ensures |e.config.bannedWords| <= |cfg.bannedWords|
    ensures |e.steps| >= 1 && e.steps[0] == Attempt(GetMember(cmd.message.chat, cmd.user), p.role.Answered?)
    ensures e.config != cfg ==> IsAdmin(p.role) && |e.steps| >= 2 && e.steps[1] == Saved(e.config)
  {
    var chat := cmd.message.chat;
    var auth := AuthSteps(chat, cmd.user, p);
    if !IsAdmin(p.role) then Effect(cfg, auth)
    else if cmd.args == [] then Effect(cfg, auth + Notify(chat, Usage(DelWordCommand), p))
    else
      var key := Lower(Argument(cmd.args));
      var next := cfg.(bannedWords := Without(cfg.bannedWords, key));
      var notice := if |next.bannedWords| < |cfg.bannedWords| then Removed(key) else NotFound(key);
      Effect(next, auth + [Saved(next)] + Notify(chat, notice, p))
  }

  /** /listwords: admins only; the keyword list, or a note that it is empty. */
  function ListWordsSteps(cfg: ConfigRecord, cmd: CommandUpdate, p: Platform): (t: seq<Step>)
    ensures |t| >= 1 && t[0] == Attempt(GetMember(cmd.message.chat, cmd.user), p.role.Answered?)
    ensures !IsAdmin(p.role) ==> |t| == 1
  {
    var chat := cmd.message.chat;
    var auth := AuthSteps(chat, cmd.user, p);
    if !IsAdmin(p.role) then auth
    else auth + Notify(chat, if cfg.bannedWords == [] then EmptyList else WordList(cfg.bannedWords), p)
  }

  /** The mute durations /setmute accepts. */
  predicate IsValidMute(minutes: int) {
    1 <= minutes <= MaxMuteMinutes
  }

  /** /setmute: admins only; a usage hint without arguments; the first
      argument is stored and persisted if it is an integer in range, and
      otherwise an error notice is posted. */
  function SetMuteEffect(cfg: ConfigRecord, cmd: CommandUpdate, p: Platform): (e: Effect)
    ensures e.config.bannedWords == cfg.bannedWords
    ensures |e.steps| >= 1 && e.steps[0] == Attempt(GetMember(cmd.message.chat, cmd.user), p.role.Answered?)
    ensures e.config != cfg ==>
              IsAdmin(p.role) && IsValidMute(e.config.muteMinutes) && |e.steps| >= 2 && e.steps[1] == Saved(e.config)
  {
    var chat := cmd.message.chat;
    var auth := AuthSteps(chat, cmd.user, p);
    if !IsAdmin(p.role) then Effect(cfg, auth)
    else if cmd.args == [] then Effect(cfg, auth + Notify(chat, Usage(SetMuteCommand), p))
    else
      match ParseInt(cmd.args[0])
      case Some(minutes) =>
        if IsValidMute(minutes) then
          var next := cfg.(muteMinutes := minutes);
          Effect(next, auth + [Saved(next)] + Notify(chat, MuteSet(minutes), p))
        else Effect(cfg, auth + Notify(chat, InvalidMinutes, p))
      case None => Effect(cfg, auth + Notify(chat, InvalidMinutes, p))
  }

  /** /unmute: admins only; the target is the sender of the message replied
      to (a missing one, or user id 0, which Python treats as false, gets a
      hint); the restriction is lifted with send permission and no end date,
      and the notice says whether that worked. */
  function UnmuteSteps(cmd: CommandUpdate, p: Platform): (t: seq<Step>)
    ensures |t| >= 1 && t[0] == Attempt(GetMember(cmd.message.chat, cmd.user), p.role.Answered?)
    ensures !IsAdmin(p.role) ==> |t| == 1
  {
    var chat := cmd.message.chat;
    var auth := AuthSteps(chat, cmd.user, p);
    if !IsAdmin(p.role) then auth
    else
      var target := ExtractTargetUserId(cmd.message);
      if target.None? || target.value == 0 then auth + Notify(chat, NeedReply, p)
      else
        auth + [Attempt(Restrict(chat, target.value, true, 0), p.restrictOk)]
        + Notify(chat, if p.restrictOk then Unmuted else UnmuteFailed, p)
  }

  /** /status: admins only; the mute duration and the number of keywords. */
  function StatusSteps(cfg: ConfigRecord, cmd: CommandUpdate, p: Platform): (t: seq<Step>)
    ensures |t| >= 1 && t[0] == Attempt(GetMember(cmd.message.chat, cmd.user), p.role.Answered?)
    ensures !IsAdmin(p.role) ==> |t| == 1
  {
    var chat := cmd.message.chat;
    var auth := AuthSteps(chat, cmd.user, p);
    if !IsAdmin(p.role) then auth
    else auth + Notify(chat, Settings(cfg.muteMinutes, |cfg.bannedWords|), p)
  }

  /** /start: a welcome notice for anyone, without a role query. */
  function StartSteps(cmd: CommandUpdate, p: Platform): (t: seq<Step>)
    ensures |t| >= 1 && t[0] == Attempt(Send(cmd.message.chat, Welcome), p.sendOk)
    ensures forall i :: 0 <= i < |t| ==> !(t[i].Attempt? && t[i].call.GetMember?)
  {
    Notify(cmd.message.chat, Welcome, p)
  }

  // ---------------------------------------------------------------------
  // Properties of message handling
  // ---------------------------------------------------------------------

  /** A message without text and caption (or without a message or sender)
      causes no platform call at all. */
  lemma NoTextNoAction(msg: Option<Message>, cfg: ConfigRecord, now: int, p: Platform)
    requires ExtractText(msg).None? || msg.None? || msg.value.sender.None?
    ensures MessageSteps(msg, cfg, now, p) == []
  {
  }

  /** An admin's message, banned word or not, is neither deleted nor
      followed by a restriction or notice: only the role query happens. */
  lemma AdminNotEnforced(msg: Option<Message>, cfg: ConfigRecord, now: int, p: Platform)
    requires IsAdmin(p.role)
    ensures |MessageSteps(msg, cfg, now, p)| <= 1
    ensures forall i :: 0 <= i < |MessageSteps(msg, cfg, now, p)| ==>
              MessageSteps(msg, cfg, now, p)[i].Attempt? && MessageSteps(msg, cfg, now, p)[i].call.GetMember?
  {
  }

  /** A message the detector does not flag causes only the role query. */
  lemma NoMatchNoEnforcement(m: Message, cfg: ConfigRecord, now: int, p: Platform)
    requires m.sender.Some? && ExtractText(Some(m)).Some?
    requires Detect(ExtractText(Some(m)).value, cfg.bannedWords).None?
    ensures MessageSteps(Some(m), cfg, now, p) == AuthSteps(m.chat, m.sender.value, p)
  {
  }

  /** handle_message, case by case: which steps each kind of message leads
      to. */
  lemma MessageCases(msg: Option<Message>, cfg: ConfigRecord, now: int, p: Platform)
    ensures msg.None? || msg.value.sender.None? || ExtractText(msg).None? ==> MessageSteps(msg, cfg, now, p) == []
    ensures msg.Some? && msg.value.sender.Some? && ExtractText(msg).Some? ==>
              var m := msg.value;
              var u := m.sender.value;
              var found := Detect(ExtractText(msg).value, cfg.bannedWords);
              && (IsAdmin(p.role) || found.None? ==> MessageSteps(msg, cfg, now, p) == AuthSteps(m.chat, u, p))
              && (!IsAdmin(p.role) && found.Some? ==>
                    MessageSteps(msg, cfg, now, p) ==
                      AuthSteps(m.chat, u, p) + EnforceSteps(m, u, found.value, cfg.muteMinutes, now, p))
  {
  }

  /** A flagged message of a non-admin: the role query, then the
      enforcement with the keyword found. This is the enforcing case of
      MessageCases on its own, with the message already unwrapped, so that
      the lemmas below can use it without the cost of the whole case table. */
  lemma MessageEnforces(m: Message, cfg: ConfigRecord, now: int, p: Platform)
    requires m.sender.Some? && ExtractText(Some(m)).Some? && !IsAdmin(p.role)
    requires Detect(ExtractText(Some(m)).value, cfg.bannedWords).Some?
    ensures MessageSteps(Some(m), cfg, now, p) ==
              AuthSteps(m.chat, m.sender.value, p)
              + EnforceSteps(m, m.sender.value, Detect(ExtractText(Some(m)).value, cfg.bannedWords).value,
                             cfg.muteMinutes, now, p)
  {
  }

  /** On a match by a non-admin: the role query, then the deletion of the
      message, then the restriction of its sender until now plus the mute
      duration, provided that end is a representable datetime; otherwise
      the handler stops after the deletion. */
  lemma MatchEnforced(m: Message, cfg: ConfigRecord, now: int, p: Platform)
    requires m.sender.Some? && ExtractText(Some(m)).Some? && !IsAdmin(p.role)
    requires Detect(ExtractText(Some(m)).value, cfg.bannedWords).Some?
    ensures var t := MessageSteps(Some(m), cfg, now, p);
            && |t| >= 2
            && t[0] == Attempt(GetMember(m.chat, m.sender.value), p.role.Answered?)
            && t[1] == Attempt(DeleteMessage(m.chat, m.id), p.deleteOk)
            && (InDatetimeRange(now + 60 * cfg.muteMinutes) ==>
                  |t| >= 3 && t[2] == Attempt(Restrict(m.chat, m.sender.value, false, now + 60 * cfg.muteMinutes), p.restrictOk))
            && (!InDatetimeRange(now + 60 * cfg.muteMinutes) ==> |t| == 2)
  {
    var word := Detect(ExtractText(Some(m)).value, cfg.bannedWords).value;
    var t := MessageSteps(Some(m), cfg, now, p);
    MessageEnforces(m, cfg, now, p);
    assert t == AuthSteps(m.chat, m.sender.value, p) + EnforceSteps(m, m.sender.value, word, cfg.muteMinutes, now, p);
    EnforcedSteps(m, m.sender.value, word, cfg.muteMinutes, now, p, t);
  }

  /** The first steps of an enforced message, read off its parts. It takes
      the steps `t` as an abstract sequence equal to the concatenation, which
      keeps the slice reasoning of MatchEnforced and
      EnforcedAfterDurationChange small; EnforceShape is the same shape for
      the enforcement part alone. */
  lemma EnforcedSteps(m: Message, user: int, word: string, minutes: int, now: int, p: Platform, t: seq<Step>)
    requires t == AuthSteps(m.chat, user, p) + EnforceSteps(m, user, word, minutes, now, p)
    ensures && |t| >= 2
            && t[0] == Attempt(GetMember(m.chat, user), p.role.Answered?)
            && t[1] == Attempt(DeleteMessage(m.chat, m.id), p.deleteOk)
            && (InDatetimeRange(now + 60 * minutes) ==>
                  |t| >= 3 && t[2] == Attempt(Restrict(m.chat, user, false, now + 60 * minutes), p.restrictOk))
            && (!InDatetimeRange(now + 60 * minutes) ==> |t| == 2)
  {
    EnforceShape(m, user, word, minutes, now, p);
  }

  /** The steps after the deletion do not depend on its outcome. */
  lemma EnforceIgnoresDeletion(m: Message, user: int, word: string, minutes: int, now: int, p: Platform, deleted: bool)
    ensures EnforceSteps(m, user, word, minutes, now, p.(deleteOk := deleted))[1..] ==
              EnforceSteps(m, user, word, minutes, now, p)[1..]
  {
  }

  /** Whether or not the offending message could be deleted, the
      restriction (or the overflow) and everything after it happen in the
      same way. */
  lemma DeletionOutcomeIgnored(m: Message, cfg: ConfigRecord, now: int, p: Platform, deleted: bool)
    requires m.sender.Some? && ExtractText(Some(m)).Some? && !IsAdmin(p.role)
    requires Detect(ExtractText(Some(m)).value, cfg.bannedWords).Some?
    ensures MessageSteps(Some(m), cfg, now, p.(deleteOk := deleted))[2..] == MessageSteps(Some(m), cfg, now, p)[2..]
  {
    var q := p.(deleteOk := deleted);
    var u := m.sender.value;
    var word := Detect(ExtractText(Some(m)).value, cfg.bannedWords).value;
    MessageEnforces(m, cfg, now, p);
    MessageEnforces(m, cfg, now, q);
    var e := EnforceSteps(m, u, word, cfg.muteMinutes, now, p);
    var e' := EnforceSteps(m, u, word, cfg.muteMinutes, now, q);
    EnforceShape(m, u, word, cfg.muteMinutes, now, p);
    EnforceShape(m, u, word, cfg.muteMinutes, now, q);
    EnforceIgnoresDeletion(m, u, word, cfg.muteMinutes, now, p, deleted);
    DropFirst(AuthSteps(m.chat, u, p), e);
    DropFirst(AuthSteps(m.chat, u, q), e');
  }

  lemma DropFirst(a: seq<Step>, e: seq<Step>)
    requires |a| == 1 && e != []
    ensures (a + e)[2..] == e[1..]
  {
  }

  /** The enforcement steps begin with the deletion, followed by the
      restriction when the mute's end is representable, and by nothing
      otherwise. */
  lemma EnforceShape(m: Message, user: int, word: string, minutes: int, now: int, p: Platform)
    ensures var e := EnforceSteps(m, user, word, minutes, now, p);
            && |e| >= 1
            && e[0] == Attempt(DeleteMessage(m.chat, m.id), p.deleteOk)
            && (InDatetimeRange(now + 60 * minutes) ==>
                  |e| >= 2 && e[1] == Attempt(Restrict(m.chat, user, false, now + 60 * minutes), p.restrictOk))
            && (!InDatetimeRange(now + 60 * minutes) ==> |e| == 1)
  {
  }

  /** The enforcement posts the mute notice exactly when the restriction
      was made and succeeded, and nothing else. */
  lemma EnforceNotices(m: Message, user: int, word: string, minutes: int, now: int, p: Platform)
    ensures var e := EnforceSteps(m, user, word, minutes, now, p);
            && Count(e, IsSendAttempt) == (if InDatetimeRange(MutedUntil(now, minutes)) && p.restrictOk then 1 else 0)
            && (forall i :: 0 <= i < |e| && IsSendAttempt(e[i]) ==> 2 <= i && e[i].call.notice == Muted(user, minutes, word))
  {
    var e := EnforceSteps(m, user, word, minutes, now, p);
    if !InDatetimeRange(MutedUntil(now, minutes)) {
      QuietCount(e);
      return;
    }
    var front := [ Attempt(DeleteMessage(m.chat, m.id), p.deleteOk),
                   Attempt(Restrict(m.chat, user, false, MutedUntil(now, minutes)), p.restrictOk) ];
    var back := if p.restrictOk then Notify(m.chat, Muted(user, minutes, word), p) else [];
    assert e == front + back;
    QuietCount(front);
    CountConcat(front, back, IsSendAttempt);
    if p.restrictOk {
      NoticeSendsOnce(m.chat, Muted(user, minutes, word), NoticeSeconds, p);
      forall i | 0 <= i < |e| && IsSendAttempt(e[i])
        ensures 2 <= i && e[i].call.notice == Muted(user, minutes, word)
      {
        assert e[i] == back[i - 2];
      }
    } else {
      assert e == front;
    }
  }

  /** The enforcement keeps the notice discipline. */
  lemma EnforceTidy(m: Message, user: int, word: string, minutes: int, now: int, p: Platform)
    ensures Tidy(EnforceSteps(m, user, word, minutes, now, p))
  {
    if !InDatetimeRange(MutedUntil(now, minutes)) {
      QuietTidy(EnforceSteps(m, user, word, minutes, now, p));
      return;
    }
    var front := [ Attempt(DeleteMessage(m.chat, m.id), p.deleteOk),
                   Attempt(Restrict(m.chat, user, false, MutedUntil(now, minutes)), p.restrictOk) ];
    var back := if p.restrictOk then Notify(m.chat, Muted(user, minutes, word), p) else [];
    QuietTidy(front);
    if p.restrictOk {
      NotifyTidy(m.chat, Muted(user, minutes, word), p);
    } else {
      QuietTidy(back);
    }
    TidyConcat(front, back);
  }

  /** A message run posts at most one notice, only after a successful
      restriction, and posts one exactly when a non-admin's message was
      flagged, the mute's end was representable and the restriction
      succeeded; the notice names the sender, the duration and the keyword
      as listed. */
  lemma MessageNotices(msg: Option<Message>, cfg: ConfigRecord, now: int, p: Platform)
    ensures NoticesFollowRestriction(MessageSteps(msg, cfg, now, p))
    ensures Count(MessageSteps(msg, cfg, now, p), IsSendAttempt) ==
              if && msg.Some? && msg.value.sender.Some? && ExtractText(msg).Some? && !IsAdmin(p.role)
                 && Detect(ExtractText(msg).value, cfg.bannedWords).Some?
                 && InDatetimeRange(MutedUntil(now, cfg.muteMinutes)) && p.restrictOk
              then 1 else 0
    ensures forall i :: 0 <= i < |MessageSteps(msg, cfg, now, p)| && IsSendAttempt(MessageSteps(msg, cfg, now, p)[i]) ==>
              MessageSteps(msg, cfg, now, p)[i].call.notice ==
                Muted(msg.value.sender.value, cfg.muteMinutes, Detect(ExtractText(msg).value, cfg.bannedWords).value)
  {
    var t := MessageSteps(msg, cfg, now, p);
    MessageCases(msg, cfg, now, p);
    if msg.None? || msg.value.sender.None? || ExtractText(msg).None? || IsAdmin(p.role)
       || Detect(ExtractText(msg).value, cfg.bannedWords).None?
       || !InDatetimeRange(MutedUntil(now, cfg.muteMinutes))
    {
      assert forall i :: 0 <= i < |t| ==> !IsSendAttempt(t[i]);
      QuietCount(t);
    } else {
      var m := msg.value;
      var user := m.sender.value;
      var word := Detect(ExtractText(msg).value, cfg.bannedWords).value;
      var auth := AuthSteps(m.chat, user, p);
      var e := EnforceSteps(m, user, word, cfg.muteMinutes, now, p);
      EnforceShape(m, user, word, cfg.muteMinutes, now, p);
      EnforceNotices(m, user, word, cfg.muteMinutes, now, p);
      QuietCount(auth);
      CountConcat(auth, e, IsSendAttempt);
      forall i | 0 <= i < |t| && IsSendAttempt(t[i])
        ensures && (exists j :: 0 <= j < i && IsRestrictCall(t[j]) && t[j].ok)
                && t[i].call.notice == Muted(user, cfg.muteMinutes, word)
      {
        assert t[i] == e[i - 1];
        assert t[2] == e[1];
        assert IsRestrictCall(t[2]) && t[2].ok;
      }
    }
  }

  /** Steps that post nothing count no posts. */
  lemma QuietCount(t: seq<Step>)
    requires forall i :: 0 <= i < |t| ==> !IsSendAttempt(t[i])
    ensures Count(t, IsSendAttempt) == 0
  {
  }

  // ---------------------------------------------------------------------
  // Properties of the admin commands
  // ---------------------------------------------------------------------

  /** A non-admin (or a failed role query) gets no answer and changes
      nothing: every admin command ends after the role query. */
  lemma NonAdminChangesNothing(cfg: ConfigRecord, cmd: CommandUpdate, p: Platform)
    requires !IsAdmin(p.role)
    ensures AddWordEffect(cfg, cmd, p) == Effect(cfg, AuthSteps(cmd.message.chat, cmd.user, p))
    ensures DelWordEffect(cfg, cmd, p) == Effect(cfg, AuthSteps(cmd.message.chat, cmd.user, p))
    ensures SetMuteEffect(cfg, cmd, p) == Effect(cfg, AuthSteps(cmd.message.chat, cmd.user, p))
    ensures ListWordsSteps(cfg, cmd, p) == AuthSteps(cmd.message.chat, cmd.user, p)
    ensures StatusSteps(cfg, cmd, p) == AuthSteps(cmd.message.chat, cmd.user, p)
    ensures UnmuteSteps(cmd, p) == AuthSteps(cmd.message.chat, cmd.user, p)
  {
  }

  /** Without arguments /addword, /delword and /setmute change nothing,
      persist nothing, and answer an admin with their usage hint. */
  lemma NoArgumentsChangeNothing(cfg: ConfigRecord, cmd: CommandUpdate, p: Platform)
    requires cmd.args == [] && IsAdmin(p.role)
    ensures AddWordEffect(cfg, cmd, p) ==
              Effect(cfg, AuthSteps(cmd.message.chat, cmd.user, p) + Notify(cmd.message.chat, Usage(AddWordCommand), p))
    ensures DelWordEffect(cfg, cmd, p) ==
              Effect(cfg, AuthSteps(cmd.message.chat, cmd.user, p) + Notify(cmd.message.chat, Usage(DelWordCommand), p))
    ensures SetMuteEffect(cfg, cmd, p) ==
              Effect(cfg, AuthSteps(cmd.message.chat, cmd.user, p) + Notify(cmd.message.chat, Usage(SetMuteCommand), p))
  {
  }

  /** /addword never touches the mute duration. An admin's word that is
      already listed, compared lower-cased, leaves the list as it was;
      any other word is appended, trimmed, after all entries kept in
      order, and the new configuration is persisted. */
  lemma AddWordSpec(cfg: ConfigRecord, cmd: CommandUpdate, p: Platform)
    requires IsAdmin(p.role) && cmd.args != []
    ensures AddWordEffect(cfg, cmd, p).config.muteMinutes == cfg.muteMinutes
    ensures (exists i :: 0 <= i < |cfg.bannedWords| && Lower(cfg.bannedWords[i]) == Lower(Argument(cmd.args)))
            ==> AddWordEffect(cfg, cmd, p) == Effect(cfg, AuthSteps(cmd.message.chat, cmd.user, p)
                                                       + Notify(cmd.message.chat, AlreadyListed(Argument(cmd.args)), p))
    ensures (forall i :: 0 <= i < |cfg.bannedWords| ==> Lower(cfg.bannedWords[i]) != Lower(Argument(cmd.args)))
            ==> var words := AddWordEffect(cfg, cmd, p).config.bannedWords;
                && |words| == |cfg.bannedWords| + 1
                && words[..|cfg.bannedWords|] == cfg.bannedWords
                && words[|cfg.bannedWords|] == Argument(cmd.args)
                && Saved(AddWordEffect(cfg, cmd, p).config) in AddWordEffect(cfg, cmd, p).steps
  {
    IsListedIff(cfg.bannedWords, Argument(cmd.args));
    var e := AddWordEffect(cfg, cmd, p);
    if !IsListed(cfg.bannedWords, Argument(cmd.args)) {
      assert e.steps[1] == Saved(e.config);
    }
  }

  /** /delword never touches the mute duration and always persists. The
      list keeps exactly the entries whose lower form differs from the
      trimmed, lower-cased argument, in their original order; the notice
      reports a removal exactly when the list got shorter, which happens
      exactly when some entry had that lower form; otherwise the list is
      unchanged. */
  lemma DelWordSpec(cfg: ConfigRecord, cmd: CommandUpdate, p: Platform)
    requires IsAdmin(p.role) && cmd.args != []
    ensures var e := DelWordEffect(cfg, cmd, p);
            var key := Lower(Argument(cmd.args));
            && e.config.muteMinutes == cfg.muteMinutes
            && e.config.bannedWords == Without(cfg.bannedWords, key)
            && (forall w :: w in e.config.bannedWords <==> w in cfg.bannedWords && Lower(w) != key)
            && e.steps[1] == Saved(e.config)
            && (|e.config.bannedWords| < |cfg.bannedWords| <==> exists i :: 0 <= i < |cfg.bannedWords| && Lower(cfg.bannedWords[i]) == key)
            && ((forall i :: 0 <= i < |cfg.bannedWords| ==> Lower(cfg.bannedWords[i]) != key) ==> e.config == cfg)
            && e.steps[2] == Attempt(Send(cmd.message.chat,
                                          if |e.config.bannedWords| < |cfg.bannedWords| then Removed(key) else NotFound(key)),
                                     p.sendOk)
  {
  }

  /** An admin's /delword with an argument stores the filtered list and
      nothing else: the configuration part of DelWordSpec as one record
      equation, which the well-formedness proof uses without unfolding the
      steps. */
  lemma DelWordStores(cfg: ConfigRecord, cmd: CommandUpdate, p: Platform)
    requires IsAdmin(p.role) && cmd.args != []
    ensures DelWordEffect(cfg, cmd, p).config == cfg.(bannedWords := Without(cfg.bannedWords, Lower(Argument(cmd.args))))
  {
  }

  /** /setmute never touches the keyword list. An admin's first argument is
      stored exactly when it is an integer from 1 to 10080, and then
      persisted and confirmed; otherwise the configuration is unchanged and
      the error notice is posted. */
  lemma SetMuteSpec(cfg: ConfigRecord, cmd: CommandUpdate, p: Platform)
    requires IsAdmin(p.role) && cmd.args != []
    ensures SetMuteEffect(cfg, cmd, p).config.bannedWords == cfg.bannedWords
    ensures ParseInt(cmd.args[0]).Some? && IsValidMute(ParseInt(cmd.args[0]).value) ==>
              var minutes := ParseInt(cmd.args[0]).value;
              && SetMuteEffect(cfg, cmd, p).config.muteMinutes == minutes
              && SetMuteEffect(cfg, cmd, p).steps ==
                   AuthSteps(cmd.message.chat, cmd.user, p) + [Saved(cfg.(muteMinutes := minutes))]
                   + Notify(cmd.message.chat, MuteSet(minutes), p)
    ensures !(ParseInt(cmd.args[0]).Some? && IsValidMute(ParseInt(cmd.args[0]).value)) ==>
              SetMuteEffect(cfg, cmd, p) ==
                Effect(cfg, AuthSteps(cmd.message.chat, cmd.user, p) + Notify(cmd.message.chat, InvalidMinutes, p))
  {
  }

  /** An admin's valid duration is stored, and nothing else changes: the
      configuration part of SetMuteSpec for a known value, as one record
      equation for NewDurationUsed. */
  lemma SetMuteStores(cfg: ConfigRecord, cmd: CommandUpdate, p: Platform, minutes: int)
    requires IsAdmin(p.role) && cmd.args != [] && ParseInt(cmd.args[0]) == Some(minutes) && IsValidMute(minutes)
    ensures SetMuteEffect(cfg, cmd, p).config == cfg.(muteMinutes := minutes)
  {
  }

  /** The range /setmute accepts, on the words an admin types: every
      duration from 1 to 10080 written in decimal is stored; 0, anything
      above 10080 and every negative number are refused. */
  lemma SetMuteBounds(cfg: ConfigRecord, cmd: CommandUpdate, p: Platform, n: nat)
    requires IsAdmin(p.role) && cmd.args != []
    ensures cmd.args[0] == DecimalString(n) ==>
              (SetMuteEffect(cfg, cmd, p).config.muteMinutes == n <== 1 <= n <= 10080)
    ensures cmd.args[0] == DecimalString(n) && (n == 0 || n > 10080) ==> SetMuteEffect(cfg, cmd, p).config == cfg
    ensures cmd.args[0] == "-" + DecimalString(n) ==> SetMuteEffect(cfg, cmd, p).config == cfg
  {
    if cmd.args[0] == DecimalString(n) {
      ParseDecimal(n);
      SetMuteSpec(cfg, cmd, p);
    }
    if cmd.args[0] == "-" + DecimalString(n) {
      ParseNegativeDecimal(n);
      SetMuteSpec(cfg, cmd, p);
    }
  }

  /** /unmute without a usable reply target makes no restriction call; it
      answers an admin with the hint. */
  lemma UnmuteWithoutReply(cmd: CommandUpdate, p: Platform)
    requires ExtractTargetUserId(cmd.message).None? || ExtractTargetUserId(cmd.message) == Some(0)
    ensures forall i :: 0 <= i < |UnmuteSteps(cmd, p)| ==> !IsRestrictCall(UnmuteSteps(cmd, p)[i])
    ensures IsAdmin(p.role) ==>
              UnmuteSteps(cmd, p) == AuthSteps(cmd.message.chat, cmd.user, p) + Notify(cmd.message.chat, NeedReply, p)
  {
    var t := UnmuteSteps(cmd, p);
    NoticeStepsSpec(cmd.message.chat, NeedReply, NoticeSeconds, p);
  }

  /** /unmute by an admin in reply to user `u` lifts `u`'s restriction with
      one call (send permission, no end date) and reports its outcome. */
  lemma UnmuteLiftsTarget(cmd: CommandUpdate, p: Platform, u: int)
    requires IsAdmin(p.role) && ExtractTargetUserId(cmd.message) == Some(u) && u != 0
    ensures UnmuteSteps(cmd, p)[1] == Attempt(Restrict(cmd.message.chat, u, true, 0), p.restrictOk)
    ensures UnmuteSteps(cmd, p)[2] ==
              Attempt(Send(cmd.message.chat, if p.restrictOk then Unmuted else UnmuteFailed), p.sendOk)
    ensures Count(UnmuteSteps(cmd, p), IsRestrictCall) == 1
  {
    var chat := cmd.message.chat;
    var auth := AuthSteps(chat, cmd.user, p);
    var lift := [Attempt(Restrict(chat, u, true, 0), p.restrictOk)];
    var notice := Notify(chat, if p.restrictOk then Unmuted else UnmuteFailed, p);
    assert UnmuteSteps(cmd, p) == auth + lift + notice;
    assert lift[1..] == [];
    assert forall i :: 0 <= i < |notice| ==> !IsRestrictCall(notice[i]);
    CountConcat(auth, lift, IsRestrictCall);
    CountConcat(auth + lift, notice, IsRestrictCall);
  }

  /** /status reports the current duration and the length of the list. */
  lemma StatusReportsLength(cfg: ConfigRecord, cmd: CommandUpdate, p: Platform)
    requires IsAdmin(p.role)
    ensures StatusSteps(cfg, cmd, p)[1] ==
              Attempt(Send(cmd.message.chat, Settings(cfg.muteMinutes, |cfg.bannedWords|)), p.sendOk)
  {
  }

  /** A message flagged under one configuration is flagged in the same
      way once only the duration has changed, and the restriction then
      lasts the new duration (or, when that end is not a representable
      datetime, the handler stops after the deletion). */
  lemma EnforcedAfterDurationChange(cfg: ConfigRecord, next: ConfigRecord, minutes: int, m: Message, now: int, p: Platform)
    requires next == cfg.(muteMinutes := minutes)
    requires m.sender.Some? && ExtractText(Some(m)).Some? && !IsAdmin(p.role)
    requires Detect(ExtractText(Some(m)).value, cfg.bannedWords).Some?
    ensures var t := MessageSteps(Some(m), next, now, p);
            && (InDatetimeRange(now + 60 * minutes) ==>
                  |t| >= 3 && t[2] == Attempt(Restrict(m.chat, m.sender.value, false, now + 60 * minutes), p.restrictOk))
            && (!InDatetimeRange(now + 60 * minutes) ==> |t| == 2)
  {
    var word := Detect(ExtractText(Some(m)).value, cfg.bannedWords).value;
    assert next.bannedWords == cfg.bannedWords && next.muteMinutes == minutes;
    MessageEnforces(m, next, now, p);
    EnforcedSteps(m, m.sender.value, word, minutes, now, p, MessageSteps(Some(m), next, now, p));
  }

  /** A duration set by /setmute is the one the next enforcement uses: the
      restriction lasts exactly that many minutes, and at any time up to a
      week before datetime's last second that end is representable. */
  lemma NewDurationUsed(cfg: ConfigRecord, cmd: CommandUpdate, admin: Platform, minutes: int,
                        m: Message, now: int, p: Platform)
    requires IsAdmin(admin.role) && cmd.args != [] && ParseInt(cmd.args[0]) == Some(minutes) && IsValidMute(minutes)
    requires m.sender.Some? && ExtractText(Some(m)).Some? && !IsAdmin(p.role)
    requires Detect(ExtractText(Some(m)).value, cfg.bannedWords).Some?
    ensures var t := MessageSteps(Some(m), SetMuteEffect(cfg, cmd, admin).config, now, p);
            InDatetimeRange(now + 60 * minutes) ==>
              |t| >= 3 && t[2] == Attempt(Restrict(m.chat, m.sender.value, false, now + 60 * minutes), p.restrictOk)
    ensures MinDatetimeSeconds <= now <= MaxDatetimeSeconds - 60 * MaxMuteMinutes ==> InDatetimeRange(now + 60 * minutes)
  {
    var next := SetMuteEffect(cfg, cmd, admin).config;
    SetMuteStores(cfg, cmd, admin, minutes);
    EnforcedAfterDurationChange(cfg, next, minutes, m, now, p);
    if MinDatetimeSeconds <= now <= MaxDatetimeSeconds - 60 * MaxMuteMinutes {
      ValidMuteEndsInRange(now, minutes);
    }
  }

  // ---------------------------------------------------------------------
  // Properties shared by all handlers
  // ---------------------------------------------------------------------

  /** handle_message keeps the notice discipline: the mute notice it
      manages to post is deleted exactly once after the ten-second wait, one
      it fails to post is never deleted, and it posts at most one. */
  lemma MessageTidy(msg: Option<Message>, cfg: ConfigRecord, now: int, p: Platform)
    ensures Tidy(MessageSteps(msg, cfg, now, p))
  {
    MessageCases(msg, cfg, now, p);
    if msg.Some? && msg.value.sender.Some? && ExtractText(msg).Some? && !IsAdmin(p.role)
       && Detect(ExtractText(msg).value, cfg.bannedWords).Some?
    {
      var m := msg.value;
      var user := m.sender.value;
      var word := Detect(ExtractText(msg).value, cfg.bannedWords).value;
      var e := EnforceSteps(m, user, word, cfg.muteMinutes, now, p);
      MessageEnforces(m, cfg, now, p);
      EnforceTidy(m, user, word, cfg.muteMinutes, now, p);
      TidyAfterQuery(m.chat, user, p, e, MessageSteps(msg, cfg, now, p));
    } else if msg.None? || msg.value.sender.None? || ExtractText(msg).None? {
      QuietTidy([]);
    } else {
      QuietTidy(AuthSteps(msg.value.chat, msg.value.sender.value, p));
    }
  }

  /** The role query followed by tidy steps is tidy. */
  lemma TidyAfterQuery(chat: int, user: int, p: Platform, e: seq<Step>, t: seq<Step>)
    requires t == AuthSteps(chat, user, p) + e && Tidy(e)
    ensures Tidy(t)
  {
    QuietTidy(AuthSteps(chat, user, p));
    TidyConcat(AuthSteps(chat, user, p), e);
  }

  /** /addword keeps the notice discipline. */
  lemma AddWordTidy(cfg: ConfigRecord, cmd: CommandUpdate, p: Platform)
    ensures Tidy(AddWordEffect(cfg, cmd, p).steps)
  {
    var chat := cmd.message.chat;
    var auth := AuthSteps(chat, cmd.user, p);
    var word := Argument(cmd.args);
    NoticeAfter(auth, chat, Usage(AddWordCommand), p);
    NoticeAfter(auth, chat, AlreadyListed(word), p);
    NoticeAfter(auth + [Saved(cfg.(bannedWords := cfg.bannedWords + [word]))], chat, Added(word), p);
    QuietTidy(auth);
  }

  /** /delword keeps the notice discipline. */
  lemma DelWordTidy(cfg: ConfigRecord, cmd: CommandUpdate, p: Platform)
    ensures Tidy(DelWordEffect(cfg, cmd, p).steps)
  {
    var chat := cmd.message.chat;
    var auth := AuthSteps(chat, cmd.user, p);
    var key := Lower(Argument(cmd.args));
    var kept := cfg.(bannedWords := Without(cfg.bannedWords, key));
    var n := |kept.bannedWords| < |cfg.bannedWords|;
    NoticeAfter(auth, chat, Usage(DelWordCommand), p);
    NoticeAfter(auth + [Saved(kept)], chat, if n then Removed(key) else NotFound(key), p);
    QuietTidy(auth);
  }

  /** /setmute keeps the notice discipline. */
  lemma SetMuteTidy(cfg: ConfigRecord, cmd: CommandUpdate, p: Platform)
    ensures Tidy(SetMuteEffect(cfg, cmd, p).steps)
  {
    var chat := cmd.message.chat;
    var auth := AuthSteps(chat, cmd.user, p);
    NoticeAfter(auth, chat, Usage(SetMuteCommand), p);
    NoticeAfter(auth, chat, InvalidMinutes, p);
    if cmd.args != [] && ParseInt(cmd.args[0]).Some? {
      var minutes := ParseInt(cmd.args[0]).value;
      NoticeAfter(auth + [Saved(cfg.(muteMinutes := minutes))], chat, MuteSet(minutes), p);
    }
    QuietTidy(auth);
  }

  /** /listwords, /unmute, /status and /start keep the notice discipline. */
  lemma OtherCommandsTidy(cfg: ConfigRecord, cmd: CommandUpdate, p: Platform)
    ensures Tidy(ListWordsSteps(cfg, cmd, p))
    ensures Tidy(UnmuteSteps(cmd, p))
    ensures Tidy(StatusSteps(cfg, cmd, p))
    ensures Tidy(StartSteps(cmd, p))
  {
    var chat := cmd.message.chat;
    var auth := AuthSteps(chat, cmd.user, p);
    QuietTidy(auth);
    NoticeAfter(auth, chat, if cfg.bannedWords == [] then EmptyList else WordList(cfg.bannedWords), p);
    NoticeAfter(auth, chat, NeedReply, p);
    var target := ExtractTargetUserId(cmd.message);
    if target.Some? {
      NoticeAfter(auth + [Attempt(Restrict(chat, target.value, true, 0), p.restrictOk)], chat,
                  if p.restrictOk then Unmuted else UnmuteFailed, p);
    }
    NoticeAfter(auth, chat, Settings(cfg.muteMinutes, |cfg.bannedWords|), p);
    NotifyTidy(chat, Welcome, p);
  }

  /** The notice discipline with the bot's delay, together with "exactly as
      many deletions as delivered notices, and at most one of each". */
  ghost predicate Tidy(t: seq<Step>) {
    && CleansUpNotices(t, NoticeSeconds)
    && Count(t, IsCleanup) == Count(t, IsDelivery) <= 1
  }

  lemma QuietTidy(t: seq<Step>)
    requires forall i :: 0 <= i < |t| ==> !IsSendAttempt(t[i]) && !IsCleanup(t[i])
    ensures Tidy(t)
  {
    QuietCleansUp(t, NoticeSeconds);
  }

  lemma NotifyTidy(chat: int, notice: Notice, p: Platform)
    ensures Tidy(Notify(chat, notice, p))
  {
    NoticeStepsSpec(chat, notice, NoticeSeconds, p);
  }

  lemma TidyConcat(a: seq<Step>, b: seq<Step>)
    requires Tidy(a) && Tidy(b) && Count(a, IsDelivery) == 0
    ensures Tidy(a + b)
  {
    CleansUpConcat(a, b, NoticeSeconds);
    CountConcat(a, b, IsCleanup);
    CountConcat(a, b, IsDelivery);
  }

  /** Quiet steps followed by one notice are tidy. */
  lemma NoticeAfter(front: seq<Step>, chat: int, notice: Notice, p: Platform)
    requires forall i :: 0 <= i < |front| ==> !IsSendAttempt(front[i]) && !IsCleanup(front[i])
    ensures Tidy(front + Notify(chat, notice, p))
  {
    QuietTidy(front);
    NotifyTidy(chat, notice, p);
    TidyConcat(front, Notify(chat, notice, p));
  }

  // ---------------------------------------------------------------------
  // The configuration invariant
  // ---------------------------------------------------------------------

  /** Dropping entries keeps the lower forms distinct and the entries
      non-blank. */
  lemma {:induction false} WithoutKeepsWellFormed(words: seq<string>, key: string)
    requires DistinctFolded(words) && forall i :: 0 <= i < |words| ==> !IsBlank(words[i])
    ensures DistinctFolded(Without(words, key))
    ensures forall i :: 0 <= i < |Without(words, key)| ==> !IsBlank(Without(words, key)[i])
  {
    if words != [] {
      var rest := words[1..];
      assert DistinctFolded(rest) by {
        forall i, j | 0 <= i < j < |rest| ensures Lower(rest[i]) != Lower(rest[j]) {
          assert rest[i] == words[i + 1] && rest[j] == words[j + 1];
        }
      }
      WithoutKeepsWellFormed(rest, key);
      var r := Without(rest, key);
      var head := if Lower(words[0]) != key then [words[0]] else [];
      assert Without(words, key) == head + r;
      forall k | 0 <= k < |r| ensures Lower(r[k]) != Lower(words[0]) && !IsBlank(r[k]) {
        assert r[k] in rest;
        var j :| 0 <= j < |rest| && rest[j] == r[k];
        assert words[j + 1] == r[k];
      }
    }
  }

  /** When admins type their commands as words (as the platform splits
      them), /addword keeps a well-formed configuration well-formed: the
      word it appends is not blank and differs, lower-cased, from every
      listed entry. */
  lemma AddWordKeepsWellFormed(cfg: ConfigRecord, cmd: CommandUpdate, p: Platform)
    requires WellFormed(cfg)
    requires forall j :: 0 <= j < |cmd.args| ==> IsToken(cmd.args[j])
    ensures WellFormed(AddWordEffect(cfg, cmd, p).config)
  {
    if IsAdmin(p.role) && cmd.args != [] {
      var word := Argument(cmd.args);
      JoinedTokensAreStripped(cmd.args);
      IsListedIff(cfg.bannedWords, word);
      if !IsListed(cfg.bannedWords, word) {
        var words := cfg.bannedWords + [word];
        assert !IsBlank(word) by {
          JoinEnds(cmd.args);
        }
        assert DistinctFolded(words) by {
          forall i, j | 0 <= i < j < |words| ensures Lower(words[i]) != Lower(words[j]) {
            if j == |cfg.bannedWords| {
              assert words[i] == cfg.bannedWords[i];
            }
          }
        }
        assert AddWordEffect(cfg, cmd, p).config == cfg.(bannedWords := words);
      }
    }
  }

  /** /delword keeps a well-formed configuration well-formed. */
  lemma DelWordKeepsWellFormed(cfg: ConfigRecord, cmd: CommandUpdate, p: Platform)
    requires WellFormed(cfg)
    ensures WellFormed(DelWordEffect(cfg, cmd, p).config)
  {
    if IsAdmin(p.role) && cmd.args != [] {
      var key := Lower(Argument(cmd.args));
      DelWordStores(cfg, cmd, p);
      WithoutWellFormed(cfg, key, DelWordEffect(cfg, cmd, p).config);
    }
  }

  /** A well-formed configuration stays well-formed when entries are
      dropped from its keyword list. */
  lemma WithoutWellFormed(cfg: ConfigRecord, key: string, next: ConfigRecord)
    requires WellFormed(cfg) && next == cfg.(bannedWords := Without(cfg.bannedWords, key))
    ensures WellFormed(next)
  {
    WithoutKeepsWellFormed(cfg.bannedWords, key);
  }

  /** /setmute keeps a well-formed configuration well-formed: it stores only
      durations in range. */
  lemma SetMuteKeepsWellFormed(cfg: ConfigRecord, cmd: CommandUpdate, p: Platform)
    requires WellFormed(cfg)
    ensures WellFormed(SetMuteEffect(cfg, cmd, p).config)
  {
  }
}
