# Keyword moderation bot: verified model of the policy core

`bot.py` is a Telegram group bot. It watches every message that is not a
command. When a non-admin's text or caption contains a banned keyword, the
bot deletes the message, mutes the sender for a configured number of minutes
and posts a notice that removes itself after ten seconds. Admins maintain the
keyword list and the mute duration with `/addword`, `/delword`, `/listwords`,
`/setmute`, `/unmute` and `/status`; `/start` greets. The configuration lives
in a global dictionary loaded from and saved to `config.json`.

This project models that policy core in Dafny:

- `Config.dfy` — the configuration record, its defaults, `load_config`'s merge
  of a parsed file over the defaults, what `save_config` writes, and the two
  list operations the commands apply (case-insensitive membership, filtering
  by lower form).
- `Detector.dfy` — messages, `extract_text_from_message`,
  `extract_target_user_id` and the keyword detector `text_has_banned_word`.
- `Actions.dfy` — the platform. Every platform call is an abstract action
  whose outcome is an input (a `Platform` record: the role query's answer,
  whether the deletion, the restriction, the post and the notice's deletion
  succeed). A handler run is described by the list of steps it takes.
  `send_and_autodelete` and the notice discipline it keeps live here.
- `Handlers.dfy` — the reference definition of every handler: the
  configuration it leaves and the steps it takes. The lemmas state what the
  handlers promise.
- `BotState.dfy` — class `Bot`. Its fields `muteMinutes` and `bannedWords`
  are the global configuration; `log` is the steps taken so far. Each
  handler is a method that updates these in place, step by step, as the bot
  does. Each is proved equal to its reference definition.
- `Text.dfy`, `Numbers.dfy`, `Wrappers.dfy` — Python's `lower`, `strip`,
  `isspace`, `in` on strings, `" ".join`, and `int()` / `str()` on
  integers, restricted to ASCII; and an `Option` type.

## Model

| member | source | states |
|---|---|---|
| Config.Defaults | bot.py:18-21 | the built-in configuration: 10 minutes and the three default keywords (characterised by DefaultsWellFormed and LoadConfig) |
| Config.LoadConfig | bot.py:16-33 | the loaded keyword list is never empty, and anything but a JSON object (a missing, unreadable or non-object file) yields exactly the defaults |
| Config.SavedFile | bot.py:35-41 | the written file is an object holding the current mute duration |
| Config.LoadConfigMerge | bot.py:18-30 | a present `mute_minutes` always replaces the default 10; `banned_words` replaces the default list exactly when it is a non-empty list |
| Config.LoadConfigKeepsAnyMute | bot.py:27 | the file's duration is taken over unchecked, so loading can give a configuration `/setmute` could never produce (0 minutes) |
| Config.SaveThenLoad | bot.py:16-41 | reloading a saved configuration with a non-empty list gives it back unchanged |
| Config.SaveThenLoadEmptyList | bot.py:28-30 | a saved empty list does not survive a reload: the defaults come back and the duration is kept |
| Config.DefaultsWellFormed | bot.py:18-21 | the defaults satisfy the configuration invariant (duration in range, non-blank keywords with distinct lower forms) |
| Config.Folded | bot.py:143 | `[w.lower() for w in words]`, the list the duplicate test searches (characterised by IsListedIff) |
| Config.IsListed | bot.py:143 | `word.lower()` is among the lower-cased entries (characterised by IsListedIff) |
| Config.IsListedIff | bot.py:143 | a word counts as listed exactly when some entry has the same lower form |
| Config.Without | bot.py:158 | the filtered list holds exactly the entries whose lower form differs from the key; it is as long as before exactly when no entry matched, and then it is the same list |
| Config.WithoutConcat | bot.py:158 | filtering works entry by entry: filtering a concatenation concatenates the filtered parts, so `/delword` keeps the surviving entries in their order |
| Config.WithoutIdempotent | bot.py:158 | filtering again by the same key removes nothing more |
| Detector.IsFilled | bot.py:62-65 | the truthiness test on a text or caption: present and not empty (characterised by ExtractTextPriority) |
| Detector.ExtractText | bot.py:53-66 | the result, when present, is non-empty and is the message's text or its caption |
| Detector.ExtractTextPriority | bot.py:59-66 | a filled text wins; the caption is used only without a text; nothing is returned exactly when neither is filled |
| Detector.ExtractTargetUserId | bot.py:191-195 | the user `/unmute` acts on, the sender of the replied-to message (characterised by UnmuteWithoutReply and UnmuteLiftsTarget) |
| Detector.Normalized | bot.py:73 | `str(w).strip().lower()`: empty exactly when the keyword is blank, without upper-case letters, and with non-space ends |
| Detector.Flags | bot.py:74 | the match test of one keyword; a blank keyword never passes it |
| Detector.BlankNeverFlags | bot.py:73-74 | a keyword that is blank after trimming never matches, although its normalized form occurs in every text, so the `w_norm and` test is needed |
| Detector.FirstFlagged | bot.py:72-76 | nothing is found exactly when no entry's trimmed, lower-cased form is non-empty and in the text; what is found is the first such entry, as listed |
| Detector.Detect | bot.py:68-76 | an empty text finds nothing; a found keyword is a listed entry whose normalized form is non-empty |
| Detector.DetectSpec | bot.py:68-76 | both directions of the match condition, and first-match in list order with the entry unnormalized |
| Detector.DetectIgnoresCase | bot.py:71 | texts with the same lower form get the same verdict |
| Detector.DetectFindsEmbedded | bot.py:74 | a keyword embedded anywhere in a text, also inside a word, is found |
| Actions.AdminGateFailsClosed | bot.py:46-51 | a failed role query means not admin; admin exactly for owner and administrator |
| Actions.IsAdmin | bot.py:49-51 | an owner or administrator; a failed query is not an admin (stated by AdminGateFailsClosed) |
| Actions.AuthSteps | bot.py:48 | `is_admin` makes one role query for the user in the chat |
| Actions.NoticeSteps | bot.py:78-81 | the first step posts the notice |
| Actions.NoticeStepsSpec | bot.py:78-88 | one post; a delivered notice is deleted exactly once after the wait; a failed post is never deleted |
| Actions.NoticeSendsOnce | bot.py:80-81 | the post is made once, as the first step |
| Actions.CleansUpConcat | bot.py:78-88 | the notice discipline holds for two disciplined runs one after the other |
| Handlers.MutedUntil | bot.py:114-115 | the end of a mute, `now + timedelta(minutes=...)` in seconds (characterised by ValidMuteEndsInRange, LoadedMuteCanOverflow and MatchEnforced) |
| Handlers.InDatetimeRange | bot.py:115 | the end of the mute is representable exactly when its whole seconds lie between 0001-01-01 00:00:00 and 9999-12-31 23:59:59 UTC |
| Handlers.ValidMuteEndsInRange | bot.py:115 | every duration `/setmute` accepts ends in range from any time up to a week before datetime's last second |
| Handlers.WellFormedAlwaysRestricts | bot.py:114-124 | with a well-formed configuration and a current time up to a week before datetime's last second, a flagged message of a non-admin is always followed by the restriction of its sender until now + duration |
| Handlers.LoadedMuteCanOverflow | bot.py:27 | an unchecked duration from config.json (five billion minutes) ends outside datetime's range from any time after 1970 |
| Handlers.EnforceSteps | bot.py:105-133 | enforcement always begins with the deletion attempt |
| Handlers.Notify | bot.py:78 | `send_and_autodelete` with the 10-second delay every caller uses (characterised by NoticeStepsSpec and NotifyTidy) |
| Handlers.Argument | bot.py:142-156 | the keyword argument of `/addword` (line 142) and `/delword` (line 156), `" ".join(args).strip()` (characterised by StripSpec, JoinEnds and JoinedTokensAreStripped) |
| Handlers.IsValidMute | bot.py:183 | the durations `/setmute` accepts, 1 to 10080 minutes (stated with SetMuteSpec and SetMuteBounds) |
| Handlers.MessageSteps | bot.py:91-133 | every call `handle_message` makes comes after a role query for the message's sender, and none is made for a missing message or sender |
| Handlers.NoTextNoAction | bot.py:92-99 | no message, no sender, or neither text nor caption: no platform call at all |
| Handlers.AdminNotEnforced | bot.py:101-103 | an admin's message leads to the role query only |
| Handlers.NoMatchNoEnforcement | bot.py:105-106 | a message the detector does not flag leads to the role query only |
| Handlers.MessageCases | bot.py:91-133 | `handle_message` case by case: which steps each kind of message leads to |
| Handlers.MessageEnforces | bot.py:105-133 | a flagged non-admin message: the role query, then the enforcement with the keyword found and the current duration |
| Handlers.MatchEnforced | bot.py:105-124 | on a match: role query, then deletion of the message; then the restriction of its sender until now + duration when that end is a representable datetime, and nothing more when it is not (the OverflowError at bot.py:115 ends the handler) |
| Handlers.EnforcedSteps | bot.py:106-124 | the first steps of an enforced message: role query, deletion, then the restriction or, on overflow, nothing |
| Handlers.EnforceShape | bot.py:108-124 | enforcement starts with the deletion, followed by the restriction when the end is representable and by nothing otherwise |
| Handlers.EnforceIgnoresDeletion | bot.py:108-111 | the steps after the deletion do not depend on its outcome |
| Handlers.DeletionOutcomeIgnored | bot.py:108-124 | a failed deletion still leads to the same restriction (or overflow) and everything after it |
| Handlers.EnforceNotices | bot.py:114-131 | the enforcement posts the mute notice exactly when the end was representable and the restriction succeeded, after it, and posts nothing else |
| Handlers.MessageNotices | bot.py:91-133 | every notice follows a successful restriction; exactly one is posted when a non-admin's message is flagged, the end is representable and the restriction succeeds, none otherwise; it names sender, duration and keyword |
| Handlers.MessageTidy | bot.py:91-133 | `handle_message` keeps the notice discipline and posts at most one notice |
| Handlers.AddWordEffect | bot.py:136-148 | `/addword` starts with the role query, never touches the duration, and changes the configuration only for an admin and only with a save right after the query |
| Handlers.DelWordEffect | bot.py:150-163 | `/delword` starts with the role query, never touches the duration, never lengthens the list, and changes the configuration only for an admin and only with a save right after the query |
| Handlers.ListWordsSteps | bot.py:165-173 | `/listwords` starts with the role query, and a non-admin gets nothing more |
| Handlers.SetMuteEffect | bot.py:175-189 | `/setmute` starts with the role query, never touches the list, and changes the duration only for an admin, only to a value in [1, 10080], and only with a save right after the query |
| Handlers.UnmuteSteps | bot.py:197-214 | `/unmute` starts with the role query, and a non-admin gets nothing more |
| Handlers.StatusSteps | bot.py:216-224 | `/status` starts with the role query, and a non-admin gets nothing more |
| Handlers.StartSteps | bot.py:226-231 | `/start` posts the welcome first and makes no role query at all |
| Handlers.NonAdminChangesNothing | bot.py:136-218 | a non-admin's admin command ends after the role query and changes nothing |
| Handlers.NoArgumentsChangeNothing | bot.py:136-180 | `/addword`, `/delword`, `/setmute` without arguments change nothing and answer with their usage hint |
| Handlers.AddWordSpec | bot.py:142-148 | duration untouched; an already-listed word (case-insensitively) changes nothing; otherwise the trimmed word is appended after the old entries, in order, and the result saved |
| Handlers.DelWordSpec | bot.py:156-163 | duration untouched; kept are exactly the entries whose lower form differs from the trimmed, lower-cased argument; always saved; "removed" exactly when the list got shorter, which is exactly when some entry matched |
| Handlers.DelWordStores | bot.py:156-158 | the stored configuration is the old one with the filtered list |
| Handlers.SetMuteSpec | bot.py:181-189 | the list is untouched; the first argument is stored, saved and confirmed exactly when it is an integer in [1, 10080]; otherwise nothing changes and the error notice is posted |
| Handlers.SetMuteStores | bot.py:182-186 | a valid duration is stored and nothing else changes |
| Handlers.SetMuteBounds | bot.py:182-184 | on decimal input: 1 to 10080 are stored; 0, above 10080 and negative numbers are refused |
| Handlers.UnmuteWithoutReply | bot.py:200-203 | no usable reply target: no restriction call, and an admin gets the hint |
| Handlers.UnmuteLiftsTarget | bot.py:204-214 | with target u: exactly one restriction call, giving u send permission with end 0, then a notice saying whether it worked |
| Handlers.StatusReportsLength | bot.py:216-224 | `/status` reports the current duration and the number of keywords |
| Handlers.EnforcedAfterDurationChange | bot.py:114-124 | after only the duration changes, a flagged message is restricted for the new duration, or stops after the deletion when that end is not representable |
| Handlers.NewDurationUsed | bot.py:185 | a duration set by `/setmute` is the one the next enforcement uses, and its end is representable at any time up to a week before datetime's last second |
| Handlers.AddWordTidy | bot.py:136-148 | `/addword` keeps the notice discipline |
| Handlers.DelWordTidy | bot.py:150-163 | `/delword` keeps the notice discipline |
| Handlers.SetMuteTidy | bot.py:175-189 | `/setmute` keeps the notice discipline |
| Handlers.OtherCommandsTidy | bot.py:165-231 | `/listwords`, `/unmute`, `/status`, `/start` keep the notice discipline |
| Handlers.WithoutKeepsWellFormed | bot.py:158 | filtering keeps lower forms distinct and entries non-blank |
| Handlers.WithoutWellFormed | bot.py:158 | replacing the list by a filtered one keeps the configuration invariant |
| Handlers.AddWordKeepsWellFormed | bot.py:142-146 | with whitespace-free argument words (as the platform splits them), `/addword` keeps the configuration invariant |
| Handlers.DelWordKeepsWellFormed | bot.py:156-158 | `/delword` keeps the configuration invariant |
| Handlers.SetMuteKeepsWellFormed | bot.py:183-185 | `/setmute` keeps the configuration invariant |
| Text.IsSpace | bot.py:73 | `str.isspace()` on ASCII: space, 9 to 13 and the separators 28 to 31 (used by TrimStartSpec, TrimEndSpec and StripSpec) |
| Text.LowerChar | bot.py:71 | ASCII lower-casing of one character: upper-case letters move by 32, nothing else changes |
| Text.Lower | bot.py:71 | same length, no upper-case letter left, every other character kept |
| Text.LowerIdempotent | bot.py:73 | lower-casing twice is lower-casing once |
| Text.TrimStart | bot.py:73 | the `lstrip` half of `strip()`: never longer than its input (characterised by TrimStartSpec) |
| Text.TrimEnd | bot.py:73 | the `rstrip` half of `strip()`: never longer than its input (characterised by TrimEndSpec) |
| Text.TrimStartSpec | bot.py:73 | `lstrip`: a suffix of the input, everything dropped is white space, and it starts with a non-space |
| Text.TrimEndSpec | bot.py:73 | `rstrip`: a prefix of the input, everything dropped is white space, and it ends with a non-space |
| Text.Strip | bot.py:73 | `strip()`: never longer than its input (its full characterisation is StripSpec) |
| Text.StripSpec | bot.py:73 | `strip` keeps a contiguous part of the input with non-space ends; it is empty exactly when the input is blank |
| Text.StripUnpadded | bot.py:182 | stripping a string without white space at its ends changes nothing |
| Text.Contains | bot.py:74 | `p in s`, tried at every start position (characterised by ContainsIff) |
| Text.ContainsIff | bot.py:74 | `p in s` holds exactly when `p` occurs at some position of `s` |
| Text.ContainsEmpty | bot.py:74 | the empty string is in every string (why BlankNeverFlags needs the non-empty test) |
| Text.Join | bot.py:142 | `" ".join` (characterised by JoinEnds and JoinedTokensAreStripped) |
| Text.JoinEnds | bot.py:142 | joining whitespace-free non-empty words gives a non-empty string with non-space ends |
| Text.JoinedTokensAreStripped | bot.py:142 | for such words the trailing `.strip()` changes nothing |
| Numbers.DigitValue | bot.py:182 | a digit's value is below 10 |
| Numbers.DigitChar | bot.py:182 | the digit for a value below 10 has that value |
| Numbers.IsDigitGroup | bot.py:182 | the digits `int()` accepts: decimal digits with single underscores between two digits (used by ParseInt, ParseDecimal and ParseRejectsOtherCharacters) |
| Numbers.ValueOf | bot.py:182 | the value of a digit string, most significant digit first (characterised by ValueOfDecimal and ParseDecimal) |
| Numbers.DropUnderscores | bot.py:182 | removing the underscores of a digit group leaves only digits |
| Numbers.ParseInt | bot.py:182 | `int()` accepts only a string that is not blank |
| Numbers.DecimalString | bot.py:182 | a duration typed in decimal, as `str(n)` writes it: a non-empty string of digits |
| Numbers.ValueOfDecimal | bot.py:187 | the value of `str(n)`'s digits is n |
| Numbers.ParseDecimal | bot.py:182 | `int(str(n)) == n` |
| Numbers.ParseNegativeDecimal | bot.py:182 | `int("-" + str(n)) == -n` |
| Numbers.ParseRejectsOtherCharacters | bot.py:182 | a word holding a character other than white space, a digit, a sign or an underscore is rejected |
| BotState.Bot.constructor | bot.py:16-43 | the global configuration starts as `load_config`'s merge of the file, step by step over the defaults |
| BotState.Bot.SaveConfig | bot.py:35-41 | one write of the whole configuration |
| BotState.Bot.IsAdminQuery | bot.py:46-51 | answers admin exactly for owner or administrator after one role query |
| BotState.Bot.SendAndAutodelete | bot.py:78-88 | takes exactly the notice steps, hence the notice discipline |
| BotState.Bot.TextHasBannedWord | bot.py:68-76 | the scanning loop returns exactly the detector's first match over the current list |
| BotState.Bot.HandleMessage | bot.py:91-133 | the steps appended are exactly `handle_message`'s for the current configuration, including the stop after the deletion when the mute's end overflows |
| BotState.Bot.AddWord | bot.py:136-148 | configuration and log change exactly as `/addword` defines; the invariant is kept for whitespace-free argument words |
| BotState.Bot.DelWord | bot.py:150-163 | configuration and log change exactly as `/delword` defines; the invariant is kept |
| BotState.Bot.ListWords | bot.py:165-173 | the steps appended are exactly `/listwords`'s |
| BotState.Bot.SetMute | bot.py:175-189 | configuration and log change exactly as `/setmute` defines; the invariant is kept |
| BotState.Bot.Unmute | bot.py:197-214 | the steps appended are exactly `/unmute`'s |
| BotState.Bot.Status | bot.py:216-224 | the steps appended are exactly `/status`'s |
| BotState.Bot.Start | bot.py:226-231 | the steps appended are exactly `/start`'s |

## Left out

- The platform API (`get_chat_member`, `restrict_chat_member`, `send_message`, message deletion) is not modelled as code. Each call is a step, and its success or failure is an input from `Platform`. Exception texts and the `print` logging of failures are left out.
- asyncio scheduling, concurrency between handlers, and real time are left out. The ten-second wait is a `Sleep(10)` step. The current time is a parameter `now`, in seconds since the epoch.
- Handlers run one after another on one `Bot`. Interleavings while a notice waits are not modelled.
- Reading and writing `config.json` are left out. A file is modelled as already parsed (`ConfigFile`). Writing is a `Saved` step. A failed write changes nothing the bot reads, so it has no outcome.
- `mute_minutes` in the file is assumed to be an integer, and `banned_words` entries strings. Other JSON values are left out. So are the `str(w)` conversion and `int(CONFIG.get(...))` at bot.py:114 on such values.
- `lower`, `strip`, `isspace` and `int()` are modelled on ASCII only. Python's Unicode case mapping, Unicode white space and non-ASCII digits are not modelled.
- The wording of the notices (Vietnamese text, the `@username` mention, the list formatting) is left out. A notice is a `Notice` value carrying the data it shows.
- `main()`, handler registration and the bot token (bot.py:233-256) are left out. The `~filters.COMMAND` filter is left out too: `HandleMessage` is the handler for messages that are not commands.
- Text.Lower, Text.Strip: cover only the ASCII subset of Python's `str.lower()` and `str.strip()`.
- Numbers.ParseInt: skips the same white space as `strip()`, including 0x1C-0x1F, which Python's `int()` refuses; `/setmute` never receives these characters because the platform's `split()` separates on them.
- `now` is a parameter standing for the whole seconds of `datetime.now(tz=timezone.utc)`. Only the overflow of `now + timedelta(minutes=...)` is modelled; `timedelta`'s own limit lies further out and raises in the same place.

Behaviour of the code that the model keeps as written:

- A notice whose post failed gets no deletion attempt (bot.py:80-88). Only a posted notice is deleted, once.
- `/unmute` without a reply still queries the role and posts a hint (bot.py:198-203).
- `/unmute` treats a reply target with user id 0 as missing (Python truthiness, bot.py:201).
- `/delword` saves the configuration even when nothing was removed (bot.py:159).
- `load_config` does not range-check the stored duration (bot.py:27).
- A mute whose end falls outside datetime's range raises `OverflowError` at bot.py:115. That point is after the deletion and outside the `try` around the restriction, so the handler ends there: no restriction and no notice. Only a duration outside what `/setmute` accepts (loaded unchecked from `config.json`), or a current time in the last week of year 9999, can cause this: WellFormedAlwaysRestricts states the restriction for every well-formed configuration.
- A saved empty keyword list comes back as the defaults on reload (bot.py:29-30).
- `/addword` does not check that the trimmed word is non-empty (bot.py:142). With whitespace-free argument words, as the platform splits a command, it never is.
