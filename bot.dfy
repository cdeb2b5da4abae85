/**
 * The conversation logic of the bot's main service: the duplicate-message
 * cache of the callback route, and the per-user registry of pending tasks
 * that inbound text, the two-minute debounce timer and the end of a
 * summarisation run drive through pending, processing and removed.
 *
 * Every registry change happens between two suspensions of the event loop,
 * so each event is one atomic step and an interleaving of coroutines is a
 * choice of event order.
 */
module Bot {
  import opened Wrappers
  import opened Text

  // ---------------------------------------------------------------------------
  // Duplicate-message cache of the callback route
  // ---------------------------------------------------------------------------

  /** `MSG_DEDUP_TTL`, in seconds. */
  const DedupTtl: real := 300.0

  /** The key under which a delivery is remembered: the message id and the
      creation time joined by an underscore, an absent or empty field
      contributing the empty string. */
  function DedupKey(msgId: Option<string>, createTime: Option<string>): string {
    msgId.GetOr("") + "_" + createTime.GetOr("")
  }

  /** The key splits back into its two fields at its first underscore, as
      long as the message id holds none (message ids are decimal numbers). */
  lemma DedupKeyFields(msgId: Option<string>, createTime: Option<string>)
    requires '_' !in msgId.GetOr("")
    ensures var key, m := DedupKey(msgId, createTime), msgId.GetOr("");
      && Find(key, '_') == |m|
      && key[..|m|] == m
      && key[|m| + 1..] == createTime.GetOr("")
  {
    var m, c := msgId.GetOr(""), createTime.GetOr("");
    var head := m + "_";
    assert DedupKey(msgId, createTime) == head + c;
    FindAppend(head, c, '_');
    assert head[|m|] == '_';
  }

  /** Two deliveries share a key exactly when they carry the same fields. */
  lemma DedupKeyInjective(m1: Option<string>, c1: Option<string>, m2: Option<string>, c2: Option<string>)
    requires '_' !in m1.GetOr("") && '_' !in m2.GetOr("")
    ensures DedupKey(m1, c1) == DedupKey(m2, c2) <==>
      m1.GetOr("") == m2.GetOr("") && c1.GetOr("") == c2.GetOr("")
  {
    DedupKeyFields(m1, c1);
    DedupKeyFields(m2, c2);
  }

  /** A delivery whose key was stored less than `DedupTtl` seconds before `now`. */
  predicate IsDuplicate(seen: map<string, real>, key: string, now: real) {
    key in seen && now - seen[key] < DedupTtl
  }

  /** The cache after the sweep: the entries that are at most `DedupTtl` old. */
  function Swept(seen: map<string, real>, now: real): (kept: map<string, real>)
    ensures kept.Keys <= seen.Keys
  {
    map k | k in seen && now - seen[k] <= DedupTtl :: seen[k]
  }

  /** The cache after a delivery that is not a duplicate: its key stored with
      the current time, then the sweep. */
  function Recorded(seen: map<string, real>, key: string, now: real): map<string, real> {
    Swept(seen[key := now], now)
  }

  /** Recording keeps the new key, drops every entry older than `DedupTtl`,
      keeps every other entry with its time, and makes the same key a
      duplicate for exactly the next `DedupTtl` seconds. */
  lemma RecordedCache(seen: map<string, real>, key: string, now: real, later: real)
    ensures var r := Recorded(seen, key, now);
      && key in r && r[key] == now
      && (forall k :: k in r ==> now - r[k] <= DedupTtl)
      && (forall k :: k in seen && k != key ==> (k in r <==> now - seen[k] <= DedupTtl))
      && (forall k :: k in r && k != key ==> r[k] == seen[k])
      && (IsDuplicate(r, key, later) <==> later - now < DedupTtl)
  {
  }

  /** An entry exactly `DedupTtl` old is neither a duplicate nor swept. */
  lemma BoundaryAge(seen: map<string, real>, key: string, now: real)
    requires key in seen && seen[key] == now - DedupTtl
    ensures !IsDuplicate(seen, key, now)
    ensures key in Swept(seen, now)
  {
  }

  /** A text message handed to `handle_message`. */
  datatype Dispatch = Dispatch(user: string, content: string)

  /** The callback route's state: `_processed_msgs` and the messages it has
      handed on. */
  class Webhook {
    var seen: map<string, real>
    var dispatched: seq<Dispatch>

    constructor ()
      ensures seen == map[] && dispatched == []
    {
      seen := map[];
      dispatched := [];
    }

    /** The sweep: collect the keys older than `DedupTtl`, then delete them
        one by one. */
    method Sweep(now: real)
      modifies this`seen
      ensures seen == Swept(old(seen), now)
    {
      var stale := set k | k in seen && now - seen[k] > DedupTtl;
      while stale != {}
        invariant stale <= seen.Keys
        invariant forall k :: k in seen && now - seen[k] > DedupTtl ==> k in stale
        invariant Swept(seen, now) == Swept(old(seen), now)
        decreases stale
      {
        var k :| k in stale;
        seen := seen - {k};
        stale := stale - {k};
      }
      assert seen == Swept(seen, now);
    }

    /** `receive_message` once the body is decrypted and parsed. A field is
        `None` when its XML element is absent; `content` is `Some("")` for an
        empty `Content` element. Reading an absent `MsgType`, `FromUserName`
        or `Content` element raises, which the route catches. The answer is
        always "success". */
    method Receive(msgType: Option<string>, fromUser: Option<string>, msgId: Option<string>,
                   createTime: Option<string>, content: Option<string>, now: real)
      returns (response: string)
      modifies this
      ensures response == "success"
      ensures msgType.None? || fromUser.None? || IsDuplicate(old(seen), DedupKey(msgId, createTime), now)
        ==> unchanged(this)
      ensures msgType.Some? && fromUser.Some? && !IsDuplicate(old(seen), DedupKey(msgId, createTime), now) ==>
        && seen == Recorded(old(seen), DedupKey(msgId, createTime), now)
        && dispatched == old(dispatched) +
             if msgType.value == "text" && content.Some? then [Dispatch(fromUser.value, content.value)] else []
    {
      response := "success";
      if msgType.None? || fromUser.None? {
        return;
      }
      var key := DedupKey(msgId, createTime);
      if key in seen && now - seen[key] < DedupTtl {
        return;
      }
      seen := seen[key := now];
      Sweep(now);
      if msgType.value == "text" {
        if content.None? {
          return;
        }
        dispatched := dispatched + [Dispatch(fromUser.value, content.value)];
      }
    }
  }

  // ---------------------------------------------------------------------------
  // Requirement merge
  // ---------------------------------------------------------------------------

  /** Follow-up words that only mean "start now". */
  const TriggerWords: set<string> := {"开始", "start", "ok", "好"}

  /** The requirement a run uses: the follow-up text, unless it is empty or,
      stripped and lower-cased, one of the trigger words; then the
      requirement that came with the link. */
  function Requirement(shareText: string, extra: string): (req: string)
    ensures req == shareText || req == extra
    ensures extra == [] ==> req == shareText
  {
    if extra != [] && Lower(Strip(extra)) !in TriggerWords then extra else shareText
  }

  /** A trigger word, in any surrounding whitespace and letter case, keeps
      the requirement that came with the link. */
  lemma TriggerKeepsShareText(shareText: string, extra: string)
    requires Lower(Strip(extra)) in TriggerWords
    ensures Requirement(shareText, extra) == shareText
  {
  }

  /** Any other non-blank follow-up replaces it. */
  lemma FollowUpReplacesShareText(shareText: string, extra: string)
    requires Strip(extra) != [] && Lower(Strip(extra)) !in TriggerWords
    ensures Requirement(shareText, extra) == extra
  {
  }

  /** Whitespace around a text with non-blank ends is what `strip()` removes. */
  lemma StripPadded(a: string, t: string, b: string)
    requires forall k :: 0 <= k < |a| ==> IsSpace(a[k])
    requires forall k :: 0 <= k < |b| ==> IsSpace(b[k])
    requires t != [] && !IsSpace(t[0]) && !IsSpace(t[|t| - 1])
    ensures Strip(a + t + b) == t
  {
    TrimStartSpaces(a, t + b);
    assert a + t + b == a + (t + b);
    TrimEndSpaces(t, b);
  }

  lemma {:induction false} TrimStartSpaces(a: string, u: string)
    requires forall k :: 0 <= k < |a| ==> IsSpace(a[k])
    requires u != [] && !IsSpace(u[0])
    ensures TrimStart(a + u) == u
  {
    if a != [] {
      assert (a + u)[1..] == a[1..] + u;
      TrimStartSpaces(a[1..], u);
    }
  }

  lemma {:induction false} TrimEndSpaces(u: string, b: string)
    requires forall k :: 0 <= k < |b| ==> IsSpace(b[k])
    requires u != [] && !IsSpace(u[|u| - 1])
    ensures TrimEnd(u + b) == u
  {
    if b != [] {
      assert (u + b)[..|u + b| - 1] == u + b[..|b| - 1];
      TrimEndSpaces(u, b[..|b| - 1]);
    } else {
      assert u + b == u;
    }
  }

  /** Lower-casing neither makes nor unmakes whitespace. */
  lemma LowerCharSpace(c: char)
    ensures IsSpace(LowerChar(c)) <==> IsSpace(c)
  {
  }

  /** A text that lower-cases to a trigger word has non-blank ends. */
  lemma TriggerEnds(t: string)
    requires Lower(t) in TriggerWords
    ensures t != [] && !IsSpace(t[0]) && !IsSpace(t[|t| - 1])
  {
    var w := Lower(t);
    assert w == "开始" || w == "start" || w == "ok" || w == "好";
    assert !IsSpace(w[0]) && !IsSpace(w[|w| - 1]);
    LowerCharSpace(t[0]);
    LowerCharSpace(t[|t| - 1]);
  }

  /** A trigger word is recognised in any letter case and with any
      whitespace around it. */
  lemma TriggerDespiteCaseAndSpace(shareText: string, a: string, t: string, b: string)
    requires forall k :: 0 <= k < |a| ==> IsSpace(a[k])
    requires forall k :: 0 <= k < |b| ==> IsSpace(b[k])
    requires Lower(t) in TriggerWords
    ensures Requirement(shareText, a + t + b) == shareText
  {
    TriggerEnds(t);
    StripPadded(a, t, b);
    TriggerKeepsShareText(shareText, a + t + b);
  }

  // ---------------------------------------------------------------------------
  // The pending-task registry
  // ---------------------------------------------------------------------------

  /** `PendingTask`: the link, the requirement that came with it, the
      follow-up requirement, whether its debounce timer is still waiting
      (created and neither cancelled nor fired) and whether its run started. */
  datatype PendingTask = PendingTask(
    shareUrl: string,
    shareText: string,
    extraRequirement: string,
    timerLive: bool,
    processing: bool)

  /** A text message sent to a user. */
  datatype Reply = Reply(user: string, text: string)

  /** A summarisation run, as `_process_task` starts it. */
  datatype Run = Run(user: string, url: string, requirement: string)

  /** The registry `_pending`, the users with a run in flight (one entry per
      run), the replies sent so far (only the acknowledgement, when its send
      raises, is replaced by the failure reply) and the runs started so far. */
  datatype Sessions = Sessions(
    pending: map<string, PendingTask>,
    running: multiset<string>,
    replies: seq<Reply>,
    runs: seq<Run>)

  const AckReply: string := "收到。发送“开始”立即处理，或输入具体要求。2分钟后默认处理。"
  const BusyReply: string := "视频正在处理中，请稍候..."
  const HelpReply: string := "收到，请发送抖音链接。\n\n发送链接后，2分钟内可补充具体要求（如'关注投资策略'）。"
  const FailureReply: string := "❌ 系统繁忙"

  /** `_start_new_task`: a fresh entry for the link, then the acknowledgement.
      `acked` says whether sending it succeeded: when it raised, the handler
      answers `FailureReply` and the timer is never created. */
  function AfterNewTask(s: Sessions, user: string, url: string, inlineReq: string, acked: bool): Sessions {
    s.(pending := s.pending[user := PendingTask(url, inlineReq, "", acked, false)],
       replies := s.replies + [Reply(user, if acked then AckReply else FailureReply)])
  }

  /** The part of `_process_task` before its first suspension: nothing when
      the user has no entry; otherwise the entry is marked processing and a
      run starts with its link and merged requirement. */
  function AfterRunStart(s: Sessions, user: string): Sessions {
    if user !in s.pending then s
    else
      var task := s.pending[user];
      s.(pending := s.pending[user := task.(processing := true)],
         running := s.running + multiset{user},
         runs := s.runs + [Run(user, task.shareUrl, Requirement(task.shareText, task.extraRequirement))])
  }

  /** `handle_message` for text `content`, in which the link extractor found
      `link` and the requirement extractor `inlineReq`. */
  function OnMessage(s: Sessions, user: string, content: string, link: Option<string>,
                     inlineReq: string, acked: bool): Sessions
  {
    if user in s.pending && !s.pending[user].processing then
      if link.Some? then
        AfterNewTask(s.(pending := s.pending - {user}), user, link.value, inlineReq, acked)
      else
        var task := s.pending[user].(extraRequirement := Strip(content), timerLive := false);
        AfterRunStart(s.(pending := s.pending[user := task]), user)
    else if link.Some? then
      AfterNewTask(s, user, link.value, inlineReq, acked)
    else if user in s.pending then
      s.(replies := s.replies + [Reply(user, BusyReply)])
    else
      s.(replies := s.replies + [Reply(user, HelpReply)])
  }

  /** `handle_message` as evidently intended: a link sent while the user's
      task is processing gets the busy reply instead of a second task. */
  function OnMessageIntended(s: Sessions, user: string, content: string, link: Option<string>,
                             inlineReq: string, acked: bool): Sessions
  {
    if user in s.pending && s.pending[user].processing then
      s.(replies := s.replies + [Reply(user, BusyReply)])
    else
      OnMessage(s, user, content, link, inlineReq, acked)
  }

  /** `_wait_then_process` once its sleep ends: it looks the user up by id
      and starts the run only when the entry exists and is not processing. */
  function OnTimerFire(s: Sessions, user: string): Sessions {
    if user in s.pending && !s.pending[user].processing then
      AfterRunStart(s.(pending := s.pending[user := s.pending[user].(timerLive := false)]), user)
    else
      s
  }

  /** The `finally` of `_process_task`, when a run of `user` ends: whatever
      entry the user has now is removed. */
  function OnPipelineDone(s: Sessions, user: string): Sessions
    requires user in s.running
  {
    s.(pending := s.pending - {user}, running := s.running - multiset{user})
  }

  /** Every processing entry has a run in flight. */
  ghost predicate Tracked(s: Sessions) {
    forall u :: u in s.pending && s.pending[u].processing ==> u in s.running
  }

  /** At most one run per user, in flight exactly while the user's entry is
      processing. */
  ghost predicate Exclusive(s: Sessions) {
    forall u :: s.running[u] <= 1 && (s.running[u] == 1 <==> u in s.pending && s.pending[u].processing)
  }

  lemma AfterRunStartTracked(s: Sessions, user: string)
    requires Tracked(s)
    ensures Tracked(AfterRunStart(s, user))
  {
  }

  /** Every event as written keeps each processing entry backed by a run. */
  lemma OnMessageTracked(s: Sessions, user: string, content: string, link: Option<string>,
                         inlineReq: string, acked: bool)
    requires Tracked(s)
    ensures Tracked(OnMessage(s, user, content, link, inlineReq, acked))
  {
    if user in s.pending && !s.pending[user].processing && link.None? {
      var task := s.pending[user].(extraRequirement := Strip(content), timerLive := false);
      AfterRunStartTracked(s.(pending := s.pending[user := task]), user);
    }
  }

  lemma OnTimerFireTracked(s: Sessions, user: string)
    requires Tracked(s)
    ensures Tracked(OnTimerFire(s, user))
  {
    if user in s.pending && !s.pending[user].processing {
      AfterRunStartTracked(s.(pending := s.pending[user := s.pending[user].(timerLive := false)]), user);
    }
  }

  lemma OnPipelineDoneTracked(s: Sessions, user: string)
    requires Tracked(s) && user in s.running
    ensures Tracked(OnPipelineDone(s, user))
  {
  }

  lemma AfterRunStartExclusive(s: Sessions, user: string)
    requires Exclusive(s) && user in s.pending && !s.pending[user].processing
    ensures Exclusive(AfterRunStart(s, user))
  {
    var r := AfterRunStart(s, user);
    forall u
      ensures r.running[u] <= 1 && (r.running[u] == 1 <==> u in r.pending && r.pending[u].processing)
    {
      if u == user {
        assert s.running[u] == 0;
      }
    }
  }

  lemma AfterNewTaskExclusive(s: Sessions, user: string, url: string, inlineReq: string, acked: bool)
    requires Exclusive(s) && user !in s.running
    ensures Exclusive(AfterNewTask(s, user, url, inlineReq, acked))
  {
  }

  /** With the busy reply for links during processing, no user ever has two
      runs in flight, and a run's entry stays until that run ends. */
  lemma OnMessageIntendedExclusive(s: Sessions, user: string, content: string, link: Option<string>,
                                   inlineReq: string, acked: bool)
    requires Exclusive(s)
    ensures Exclusive(OnMessageIntended(s, user, content, link, inlineReq, acked))
  {
    if user in s.pending && s.pending[user].processing {
    } else if user in s.pending {
      if link.Some? {
        AfterNewTaskExclusive(s.(pending := s.pending - {user}), user, link.value, inlineReq, acked);
      } else {
        var task := s.pending[user].(extraRequirement := Strip(content), timerLive := false);
        AfterRunStartExclusive(s.(pending := s.pending[user := task]), user);
      }
    } else if link.Some? {
      AfterNewTaskExclusive(s, user, link.value, inlineReq, acked);
    }
  }

  lemma OnTimerFireExclusive(s: Sessions, user: string)
    requires Exclusive(s)
    ensures Exclusive(OnTimerFire(s, user))
  {
    if user in s.pending && !s.pending[user].processing {
      AfterRunStartExclusive(s.(pending := s.pending[user := s.pending[user].(timerLive := false)]), user);
    }
  }

  lemma OnPipelineDoneExclusive(s: Sessions, user: string)
    requires Exclusive(s) && user in s.running
    ensures Exclusive(OnPipelineDone(s, user))
  {
    var r := OnPipelineDone(s, user);
    forall u
      ensures r.running[u] <= 1 && (r.running[u] == 1 <==> u in r.pending && r.pending[u].processing)
    {
      if u == user {
        assert s.running[u] == 1;
      }
    }
  }

  /** The timer looks the user up by id: it starts a run of whatever entry
      the user has when it fires, provided that entry is not processing, and
      otherwise changes nothing. */
  lemma TimerStartsCurrentEntry(s: Sessions, user: string)
    ensures var r := OnTimerFire(s, user);
      if user in s.pending && !s.pending[user].processing then
        && r.runs == s.runs + [Run(user, s.pending[user].shareUrl,
                                   Requirement(s.pending[user].shareText, s.pending[user].extraRequirement))]
        && r.running == s.running + multiset{user}
        && user in r.pending && r.pending[user].processing
      else
        r == s
  {
  }

  /** The end of any run of a user removes the user's entry, whichever task
      it holds, and leaves every other user's entry alone. */
  lemma PipelineDoneRemovesEntry(s: Sessions, user: string)
    requires user in s.running
    ensures var r := OnPipelineDone(s, user);
      && user !in r.pending
      && r.running[user] == s.running[user] - 1
      && forall u :: u in s.pending && u != user ==> u in r.pending && r.pending[u] == s.pending[u]
  {
  }

  /** A follow-up to a waiting task records the stripped text and starts the
      run with the merged requirement. */
  lemma FollowUpStartsRun(s: Sessions, user: string, content: string, inlineReq: string, acked: bool)
    requires user in s.pending && !s.pending[user].processing
    ensures var r := OnMessage(s, user, content, None, inlineReq, acked);
      && r.pending[user] == s.pending[user].(extraRequirement := Strip(content), timerLive := false, processing := true)
      && r.runs == s.runs + [Run(user, s.pending[user].shareUrl, Requirement(s.pending[user].shareText, Strip(content)))]
      && r.replies == s.replies
  {
  }

  /** As written, a link sent while the user's run is in flight replaces the
      processing entry with a waiting one. A follow-up then starts a second
      run for the same user, and when the first run ends its `finally`
      removes the second run's entry. */
  lemma LinkWhileProcessing()
    ensures var s0 := Sessions(map["u" := PendingTask("v1", "", "", false, true)], multiset{"u"}, [], []);
      var s1 := OnMessage(s0, "u", "v2", Some("v2"), "", true);
      var s2 := OnMessage(s1, "u", "开始", None, "", true);
      var s3 := OnPipelineDone(s2, "u");
      && Exclusive(s0) && !Exclusive(s1)
      && s2.running["u"] == 2
      && "u" !in s3.pending && s3.running["u"] == 1
  {
    var s0 := Sessions(map["u" := PendingTask("v1", "", "", false, true)], multiset{"u"}, [], []);
    var s1 := OnMessage(s0, "u", "v2", Some("v2"), "", true);
    assert s1.pending["u"] == PendingTask("v2", "", "", true, false);
    assert s1.running["u"] == 1;
  }

  /** The registry as the service keeps it: `_pending` in place, plus the
      runs in flight and what has been sent and started. */
  class Registry {
    var pending: map<string, PendingTask>
    var running: multiset<string>
    var replies: seq<Reply>
    var runs: seq<Run>

    function State(): Sessions
      reads this
    {
      Sessions(pending, running, replies, runs)
    }

    constructor ()
      ensures State() == Sessions(map[], multiset{}, [], [])
    {
      pending := map[];
      running := multiset{};
      replies := [];
      runs := [];
    }

    /** `_start_new_task`. */
    method StartNewTask(user: string, url: string, inlineReq: string, acked: bool)
      modifies this
      ensures State() == AfterNewTask(old(State()), user, url, inlineReq, acked)
    {
      var task := PendingTask(url, inlineReq, "", false, false);
      pending := pending[user := task];
      if !acked {
        replies := replies + [Reply(user, FailureReply)];
        return;
      }
      replies := replies + [Reply(user, AckReply)];
      task := task.(timerLive := true);
      pending := pending[user := task];
    }

    /** `_process_task` up to its first suspension, including the
        requirement merge. */
    method ProcessTask(user: string)
      modifies this
      ensures State() == AfterRunStart(old(State()), user)
    {
      if user !in pending {
        return;
      }
      var task := pending[user];
      task := task.(processing := true);
      pending := pending[user := task];
      var req := task.shareText;
      if task.extraRequirement != [] {
        if Lower(Strip(task.extraRequirement)) !in TriggerWords {
          req := task.extraRequirement;
        }
      }
      running := running + multiset{user};
      runs := runs + [Run(user, task.shareUrl, req)];
    }

    /** `handle_message`. */
    method Message(user: string, content: string, link: Option<string>, inlineReq: string, acked: bool)
      modifies this
      ensures State() == OnMessage(old(State()), user, content, link, inlineReq, acked)
    {
      ghost var s := State();
      if user in pending && !pending[user].processing {
        var task := pending[user];
        if link.Some? {
          pending := pending - {user};
          assert State() == s.(pending := s.pending - {user});
          StartNewTask(user, link.value, inlineReq, acked);
          return;
        }
        task := task.(extraRequirement := Strip(content));
        if task.timerLive {
          task := task.(timerLive := false);
        }
        pending := pending[user := task];
        assert State() == s.(pending := s.pending[user := s.pending[user].(extraRequirement := Strip(content), timerLive := false)]);
        ProcessTask(user);
        return;
      }
      if link.Some? {
        StartNewTask(user, link.value, inlineReq, acked);
        return;
      }
      if user in pending {
        replies := replies + [Reply(user, BusyReply)];
        return;
      }
      replies := replies + [Reply(user, HelpReply)];
    }

    /** `handle_message` as evidently intended. */
    method MessageIntended(user: string, content: string, link: Option<string>, inlineReq: string, acked: bool)
      modifies this
      ensures State() == OnMessageIntended(old(State()), user, content, link, inlineReq, acked)
    {
      if user in pending && pending[user].processing {
        replies := replies + [Reply(user, BusyReply)];
        return;
      }
      Message(user, content, link, inlineReq, acked);
    }

    /** `_wait_then_process` after its sleep. */
    method TimerFire(user: string)
      modifies this
      ensures State() == OnTimerFire(old(State()), user)
    {
      if user in pending && !pending[user].processing {
        pending := pending[user := pending[user].(timerLive := false)];
        ProcessTask(user);
      }
    }

    /** The `finally` of `_process_task`. */
    method PipelineDone(user: string)
      requires user in running
      modifies this
      ensures State() == OnPipelineDone(old(State()), user)
    {
      pending := pending - {user};
      running := running - multiset{user};
    }
  }
}
