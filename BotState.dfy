/**
  The running bot: the global configuration the handlers read and update in
  place, and the log of the steps they take on the platform. Each handler is
  a method that works step by step, as the bot does, and is proved to leave
  the configuration and the log exactly as the reference definitions in
  module Handlers say.
*/
module BotState {
  import opened Wrappers
  import opened Text
  import opened Numbers
  import opened Config
  import opened Detector
  import opened Actions
  import opened Handlers

  /** Appending three parts one after the other appends their concatenation. */
  lemma AppendThree(l: seq<Step>, a: seq<Step>, b: seq<Step>, c: seq<Step>)
    ensures l + a + b + c == l + (a + b + c)
  {
  }

  /** The enforcement steps appended one by one after the role query. */
  lemma AppendEnforcement(l: seq<Step>, a: seq<Step>, x: Step, y: Step, c: seq<Step>)
    ensures l + a + [x] + [y] + c == l + (a + ([x, y] + c))
  {
  }

  class Bot {
    /** CONFIG["mute_minutes"] */
    var muteMinutes: int
    /** CONFIG["banned_words"] */
    var bannedWords: seq<string>
    /** Every step taken so far, oldest first. */
    var log: seq<Step>

    /** The configuration as a value. */
    function Config(): ConfigRecord
      reads this
    {
      ConfigRecord(muteMinutes, bannedWords)
    }

    /** `CONFIG = load_config()`: start from the defaults and take over
        what the file provides. */
    constructor (file: ConfigFile)
      ensures Config() == LoadConfig(file)
      ensures log == []
    {
      muteMinutes := DefaultMuteMinutes;
      bannedWords := DefaultBannedWords;
      if file.Object? {
        if file.muteMinutes.Some? {
          muteMinutes := file.muteMinutes.value;
        }
        if file.bannedWords.WordsList? && file.bannedWords.items != [] {
          bannedWords := file.bannedWords.items;
        }
      }
      log := [];
    }

    /** save_config: write the whole configuration. */
    method SaveConfig()
      modifies this`log
      ensures log == old(log) + [Saved(Config())]
    {
      log := log + [Saved(Config())];
    }

    /** is_admin: one role query; a failed query answers "not an admin". */
    method IsAdminQuery(chat: int, user: int, p: Platform) returns (admin: bool)
      modifies this`log
      ensures admin == IsAdmin(p.role)
      ensures log == old(log) + AuthSteps(chat, user, p)
    {
      log := log + [Attempt(GetMember(chat, user), p.role.Answered?)];
      admin := p.role.Answered? && (p.role.status == Administrator || p.role.status == Owner);
    }

    /** send_and_autodelete: post, and only if that worked wait and try
        once to delete the notice again. */
    method SendAndAutodelete(chat: int, notice: Notice, seconds: int, p: Platform)
      modifies this`log
      ensures log == old(log) + NoticeSteps(chat, notice, seconds, p)
    {
      log := log + [Attempt(Send(chat, notice), p.sendOk)];
      if p.sendOk {
        log := log + [Sleep(seconds)];
        log := log + [Attempt(DeleteNotice(chat, notice), p.cleanupOk)];
      }
    }

    /** text_has_banned_word: scan the keyword list in order and return the
        first entry whose trimmed, lower-cased form is non-empty and occurs
        in the lower-cased text. */
    method TextHasBannedWord(text: string) returns (matched: Option<string>)
      ensures matched == Detect(text, bannedWords)
    {
      if text == [] {
        return None;
      }
      var low := Lower(text);
      var words := bannedWords;
      var i := 0;
      while i < |words|
        invariant 0 <= i <= |words|
        invariant FirstFlagged(low, words) == FirstFlagged(low, words[i..])
      {
        var norm := Lower(Strip(words[i]));
        if norm != [] && Contains(low, norm) {
          return Some(words[i]);
        }
        assert words[i..][1..] == words[i + 1..];
        i := i + 1;
      }
      return None;
    }

    /** handle_message. */
    method HandleMessage(msg: Option<Message>, now: int, p: Platform)
      modifies this`log
      ensures log == old(log) + MessageSteps(msg, Config(), now, p)
    {
      if msg.None? || msg.value.sender.None? {
        return;
      }
      var m := msg.value;
      var user := m.sender.value;
      var text := ExtractText(msg);
      if text.None? {
        return;
      }
      var admin := IsAdminQuery(m.chat, user, p);
      if admin {
        return;
      }
      var matched := TextHasBannedWord(text.value);
      if matched.Some? {
        ghost var start := old(log);
        var deletion := Attempt(DeleteMessage(m.chat, m.id), p.deleteOk);
        log := log + [deletion];
        var until := MutedUntil(now, muteMinutes);
        if !InDatetimeRange(until) {
          // datetime + timedelta raises OverflowError: the handler ends here.
          return;
        }
        var restriction := Attempt(Restrict(m.chat, user, false, until), p.restrictOk);
        log := log + [restriction];
        if p.restrictOk {
          SendAndAutodelete(m.chat, Muted(user, muteMinutes, matched.value), NoticeSeconds, p);
        }
        AppendEnforcement(start, AuthSteps(m.chat, user, p), deletion, restriction,
                          if p.restrictOk then Notify(m.chat, Muted(user, muteMinutes, matched.value), p) else []);
      }
    }

    /** /addword. */
    method AddWord(cmd: CommandUpdate, p: Platform)
      modifies this`bannedWords, this`log
      ensures Config() == AddWordEffect(old(Config()), cmd, p).config
      ensures log == old(log) + AddWordEffect(old(Config()), cmd, p).steps
      ensures old(WellFormed(Config())) && (forall j :: 0 <= j < |cmd.args| ==> IsToken(cmd.args[j])) ==>
                WellFormed(Config())
    {
      if WellFormed(Config()) && forall j :: 0 <= j < |cmd.args| ==> IsToken(cmd.args[j]) {
        AddWordKeepsWellFormed(Config(), cmd, p);
      }
      var chat := cmd.message.chat;
      var admin := IsAdminQuery(chat, cmd.user, p);
      if !admin {
        return;
      }
      if cmd.args == [] {
        SendAndAutodelete(chat, Usage(AddWordCommand), NoticeSeconds, p);
        return;
      }
      var word := Strip(Join(cmd.args));
      if IsListed(bannedWords, word) {
        SendAndAutodelete(chat, AlreadyListed(word), NoticeSeconds, p);
        return;
      }
      ghost var start := old(log);
      bannedWords := bannedWords + [word];
      SaveConfig();
      SendAndAutodelete(chat, Added(word), NoticeSeconds, p);
      AppendThree(start, AuthSteps(chat, cmd.user, p), [Saved(Config())], Notify(chat, Added(word), p));
    }

    /** /delword. */
    method DelWord(cmd: CommandUpdate, p: Platform)
      modifies this`bannedWords, this`log
      ensures Config() == DelWordEffect(old(Config()), cmd, p).config
      ensures log == old(log) + DelWordEffect(old(Config()), cmd, p).steps
      ensures old(WellFormed(Config())) ==> WellFormed(Config())
    {
      if WellFormed(Config()) {
        DelWordKeepsWellFormed(Config(), cmd, p);
      }
      var chat := cmd.message.chat;
      var admin := IsAdminQuery(chat, cmd.user, p);
      if !admin {
        return;
      }
      if cmd.args == [] {
        SendAndAutodelete(chat, Usage(DelWordCommand), NoticeSeconds, p);
        return;
      }
      ghost var start := old(log);
      var key := Lower(Strip(Join(cmd.args)));
      var before := |bannedWords|;
      bannedWords := Without(bannedWords, key);
      SaveConfig();
      var notice := if |bannedWords| < before then Removed(key) else NotFound(key);
      SendAndAutodelete(chat, notice, NoticeSeconds, p);
      AppendThree(start, AuthSteps(chat, cmd.user, p), [Saved(Config())], Notify(chat, notice, p));
    }

    /** /listwords. */
    method ListWords(cmd: CommandUpdate, p: Platform)
      modifies this`log
      ensures log == old(log) + ListWordsSteps(Config(), cmd, p)
    {
      var chat := cmd.message.chat;
      var admin := IsAdminQuery(chat, cmd.user, p);
      if !admin {
        return;
      }
      if bannedWords == [] {
        SendAndAutodelete(chat, EmptyList, NoticeSeconds, p);
      } else {
        SendAndAutodelete(chat, WordList(bannedWords), NoticeSeconds, p);
      }
    }

    /** /setmute. */
    method SetMute(cmd: CommandUpdate, p: Platform)
      modifies this`muteMinutes, this`log
      ensures Config() == SetMuteEffect(old(Config()), cmd, p).config
      ensures log == old(log) + SetMuteEffect(old(Config()), cmd, p).steps
      ensures old(WellFormed(Config())) ==> WellFormed(Config())
    {
      var chat := cmd.message.chat;
      var admin := IsAdminQuery(chat, cmd.user, p);
      if !admin {
        return;
      }
      if cmd.args == [] {
        SendAndAutodelete(chat, Usage(SetMuteCommand), NoticeSeconds, p);
        return;
      }
      var parsed := ParseInt(cmd.args[0]);
      SetMuteSpec(old(Config()), cmd, p);
      if parsed.None? || !IsValidMute(parsed.value) {
        SendAndAutodelete(chat, InvalidMinutes, NoticeSeconds, p);
        return;
      }
      ghost var start := old(log);
      muteMinutes := parsed.value;
      SaveConfig();
      SendAndAutodelete(chat, MuteSet(parsed.value), NoticeSeconds, p);
      AppendThree(start, AuthSteps(chat, cmd.user, p), [Saved(Config())], Notify(chat, MuteSet(parsed.value), p));
    }

    /** /unmute. */
    method Unmute(cmd: CommandUpdate, p: Platform)
      modifies this`log
      ensures log == old(log) + UnmuteSteps(cmd, p)
    {
      var chat := cmd.message.chat;
      var admin := IsAdminQuery(chat, cmd.user, p);
      if !admin {
        return;
      }
      var target := ExtractTargetUserId(cmd.message);
      if target.None? || target.value == 0 {
        SendAndAutodelete(chat, NeedReply, NoticeSeconds, p);
        return;
      }
      ghost var start := old(log);
      var lift := Attempt(Restrict(chat, target.value, true, 0), p.restrictOk);
      log := log + [lift];
      if p.restrictOk {
        SendAndAutodelete(chat, Unmuted, NoticeSeconds, p);
      } else {
        SendAndAutodelete(chat, UnmuteFailed, NoticeSeconds, p);
      }
      AppendThree(start, AuthSteps(chat, cmd.user, p), [lift], Notify(chat, if p.restrictOk then Unmuted else UnmuteFailed, p));
    }

    /** /status. */
    method Status(cmd: CommandUpdate, p: Platform)
      modifies this`log
      ensures log == old(log) + StatusSteps(Config(), cmd, p)
    {
      var chat := cmd.message.chat;
      var admin := IsAdminQuery(chat, cmd.user, p);
      if !admin {
        return;
      }
      SendAndAutodelete(chat, Settings(muteMinutes, |bannedWords|), NoticeSeconds, p);
    }

    /** /start. */
    method Start(cmd: CommandUpdate, p: Platform)
      modifies this`log
      ensures log == old(log) + StartSteps(cmd, p)
    {
      SendAndAutodelete(cmd.message.chat, Welcome, NoticeSeconds, p);
    }
  }
}
