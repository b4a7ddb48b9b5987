/**
  The messaging platform as the bot uses it. Every platform call is an
  abstract action whose outcome is an input: a handler run is described by
  the sequence of steps it takes (calls with their outcomes, waits, and
  writes of config.json), and by the Platform record saying how each call
  will turn out.
*/
module Actions {
  import opened Config

  /** The member statuses get_chat_member can report. */
  datatype MemberStatus = Owner | Administrator | Member | Restricted | Left | Banned

  /** The outcome of get_chat_member: a status, or a failed query (network
      error, unknown user or chat). */
  datatype RoleQuery = QueryFailed | Answered(status: MemberStatus)

  /** is_admin: an owner or administrator; any failed query counts as not an
      admin. */
  predicate IsAdmin(q: RoleQuery) {
    q.Answered? && (q.status == Administrator || q.status == Owner)
  }

  /** The admin gate fails closed and admits exactly the two privileged
      statuses. */
  lemma AdminGateFailsClosed(q: RoleQuery)
    ensures q == QueryFailed ==> !IsAdmin(q)
    ensures IsAdmin(q) <==> q == Answered(Owner) || q == Answered(Administrator)
  {
  }

  /** The commands that print a usage hint when called without arguments. */
  datatype CommandName = AddWordCommand | DelWordCommand | SetMuteCommand

  /** The notices the bot posts, by what they say. */
  datatype Notice =
    | Muted(user: int, minutes: int, word: string)
    | Usage(command: CommandName)
    | AlreadyListed(word: string)
    | Added(word: string)
    | Removed(word: string)
    | NotFound(word: string)
    | WordList(words: seq<string>)
    | EmptyList
    | MuteSet(minutes: int)
    | InvalidMinutes
    | NeedReply
    | Unmuted
    | UnmuteFailed
    | Settings(minutes: int, keywordCount: int)
    | Welcome

  /** The platform calls: the role query, deleting the offending message,
      setting a member's send permission until a time (seconds since the
      epoch; 0 for no end), posting a notice and deleting a posted notice. */
  datatype Call =
    | GetMember(chat: int, user: int)
    | DeleteMessage(chat: int, message: int)
    | Restrict(chat: int, user: int, canSend: bool, until: int)
    | Send(chat: int, notice: Notice)
    | DeleteNotice(chat: int, notice: Notice)

  /** One step of a handler: a call and whether it succeeded, a wait, or
      config.json overwritten with a configuration (save_config; a failed
      write changes nothing the bot reads, so it has no outcome). */
  datatype Step =
    | Attempt(call: Call, ok: bool)
    | Sleep(seconds: int)
    | Saved(config: ConfigRecord)

  /** How the platform answers the calls of one handler run. Each handler
      makes each kind of call at most once. */
  datatype Platform = Platform(
    role: RoleQuery,
    deleteOk: bool,
    restrictOk: bool,
    sendOk: bool,
    cleanupOk: bool)

  /** How long every notice stays up before the bot deletes it. */
  const NoticeSeconds: int := 10

  /** is_admin's single query. */
  function AuthSteps(chat: int, user: int, p: Platform): (t: seq<Step>)
    ensures |t| == 1 && t[0].Attempt? && t[0].call == GetMember(chat, user)
  {
    [Attempt(GetMember(chat, user), p.role.Answered?)]
  }

  /** send_and_autodelete: post the notice; if posting failed stop there,
      otherwise wait and then try once to delete it, whatever that yields. */
  function NoticeSteps(chat: int, notice: Notice, seconds: int, p: Platform): (t: seq<Step>)
    ensures |t| >= 1 && t[0] == Attempt(Send(chat, notice), p.sendOk)
  {
    [Attempt(Send(chat, notice), p.sendOk)]
      + if p.sendOk then [Sleep(seconds), Attempt(DeleteNotice(chat, notice), p.cleanupOk)] else []
  }

  predicate IsSendAttempt(s: Step) {
    s.Attempt? && s.call.Send?
  }

  predicate IsDelivery(s: Step) {
    s.Attempt? && s.call.Send? && s.ok
  }

  predicate IsCleanup(s: Step) {
    s.Attempt? && s.call.DeleteNotice?
  }

  predicate IsRestrictCall(s: Step) {
    s.Attempt? && s.call.Restrict?
  }

  /** The notice delivered at step `i` is deleted two steps later, after a
      wait of `seconds`. */
  ghost predicate CleanedUpAfter(t: seq<Step>, i: int, seconds: int)
    requires 0 <= i < |t| && IsDelivery(t[i])
  {
    && i + 2 < |t|
    && t[i + 1] == Sleep(seconds)
    && IsCleanup(t[i + 2])
    && t[i + 2].call == DeleteNotice(t[i].call.chat, t[i].call.notice)
  }

  /** The notice discipline: every delivered notice is deleted after the
      wait, and every notice deletion belongs to the delivery two steps
      before it; so a delivered notice gets exactly one deletion attempt and
      a notice whose posting failed gets none. */
  ghost predicate CleansUpNotices(t: seq<Step>, seconds: int) {
    && (forall i :: 0 <= i < |t| && IsDelivery(t[i]) ==> CleanedUpAfter(t, i, seconds))
    && (forall i :: 0 <= i < |t| && IsCleanup(t[i]) ==>
          2 <= i && IsDelivery(t[i - 2]) && CleanedUpAfter(t, i - 2, seconds))
  }

  /** The number of steps of `t` that satisfy `f`. */
  function Count(t: seq<Step>, f: Step -> bool): (n: nat)
    ensures n <= |t|
    ensures n == 0 <== forall i :: 0 <= i < |t| ==> !f(t[i])
  {
    if t == [] then 0 else (if f(t[0]) then 1 else 0) + Count(t[1..], f)
  }

  lemma {:induction false} CountConcat(a: seq<Step>, b: seq<Step>, f: Step -> bool)
    ensures Count(a + b, f) == Count(a, f) + Count(b, f)
  {
    if a == [] {
      assert a + b == b;
    } else {
      assert (a + b)[1..] == a[1..] + b;
      CountConcat(a[1..], b, f);
    }
  }

  /** send_and_autodelete's promise: the notice discipline holds, one post is
      attempted, and the one deletion attempt happens exactly when the post
      succeeded. */
  lemma NoticeStepsSpec(chat: int, notice: Notice, seconds: int, p: Platform)
    ensures CleansUpNotices(NoticeSteps(chat, notice, seconds, p), seconds)
    ensures Count(NoticeSteps(chat, notice, seconds, p), IsSendAttempt) == 1
    ensures Count(NoticeSteps(chat, notice, seconds, p), IsCleanup) == if p.sendOk then 1 else 0
    ensures Count(NoticeSteps(chat, notice, seconds, p), IsDelivery) == if p.sendOk then 1 else 0
  {
    var t := NoticeSteps(chat, notice, seconds, p);
    if p.sendOk {
      var cleanup := Attempt(DeleteNotice(chat, notice), p.cleanupOk);
      assert t[1..] == [Sleep(seconds), cleanup];
      assert t[1..][1..] == [cleanup];
      assert t[1..][1..][1..] == [];
      assert Count(t[1..][1..], IsCleanup) == 1;
    } else {
      assert t[1..] == [];
    }
  }

  /** send_and_autodelete posts its notice once, as its first step. The
      count repeats NoticeStepsSpec; what this adds is the position of the
      post, which the enforcement lemmas need to place the notice after the
      restriction. */
  lemma NoticeSendsOnce(chat: int, notice: Notice, seconds: int, p: Platform)
    ensures Count(NoticeSteps(chat, notice, seconds, p), IsSendAttempt) == 1
    ensures forall i :: 0 <= i < |NoticeSteps(chat, notice, seconds, p)| && IsSendAttempt(NoticeSteps(chat, notice, seconds, p)[i]) ==> i == 0
  {
    var t := NoticeSteps(chat, notice, seconds, p);
    if p.sendOk {
      assert t[1..] == [Sleep(seconds), Attempt(DeleteNotice(chat, notice), p.cleanupOk)];
      assert t[1..][1..] == [Attempt(DeleteNotice(chat, notice), p.cleanupOk)];
      assert t[1..][1..][1..] == [];
    } else {
      assert t[1..] == [];
    }
  }

  /** Steps that post no notice and delete none keep the discipline. */
  lemma QuietCleansUp(t: seq<Step>, seconds: int)
    requires forall i :: 0 <= i < |t| ==> !IsSendAttempt(t[i]) && !IsCleanup(t[i])
    ensures CleansUpNotices(t, seconds)
    ensures Count(t, IsCleanup) == 0 && Count(t, IsDelivery) == 0
  {
  }

  /** The discipline survives putting two disciplined runs one after the
      other. */
  lemma CleansUpConcat(a: seq<Step>, b: seq<Step>, seconds: int)
    requires CleansUpNotices(a, seconds) && CleansUpNotices(b, seconds)
    ensures CleansUpNotices(a + b, seconds)
  {
    var t := a + b;
    forall i | 0 <= i < |t| && IsDelivery(t[i]) ensures CleanedUpAfter(t, i, seconds) {
      if i < |a| {
        assert t[i] == a[i];
        assert CleanedUpAfter(a, i, seconds);
        assert t[i + 1] == a[i + 1] && t[i + 2] == a[i + 2];
      } else {
        assert t[i] == b[i - |a|];
        assert CleanedUpAfter(b, i - |a|, seconds);
        assert t[i + 1] == b[i + 1 - |a|] && t[i + 2] == b[i + 2 - |a|];
      }
    }
    forall i | 0 <= i < |t| && IsCleanup(t[i])
      ensures 2 <= i && IsDelivery(t[i - 2]) && CleanedUpAfter(t, i - 2, seconds)
    {
      if i < |a| {
        assert t[i] == a[i];
        assert t[i - 2] == a[i - 2];
      } else {
        assert t[i] == b[i - |a|];
        assert t[i - 2] == b[i - 2 - |a|];
      }
    }
  }

  /** Every notice posted in `t` comes after a restriction that succeeded. */
  ghost predicate NoticesFollowRestriction(t: seq<Step>) {
    forall i :: 0 <= i < |t| && IsSendAttempt(t[i]) ==>
      exists j :: 0 <= j < i && IsRestrictCall(t[j]) && t[j].ok
  }
}
