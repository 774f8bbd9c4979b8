/** The call registry of the bot service and the effect of each entry point on
    it, as functions of the registry before the step. Platform actions the
    service requests are recorded as a trace of effects; what the platform
    answers (success or failure of a request) comes in as parameters. */
module CallModel {
  import opened Failures
  import opened Guids
  import opened Media

  /** A platform call: its id and the id of its conversation thread
      (Resource.ChatInfo.ThreadId). */
  datatype Call = Call(id: string, threadId: string)

  /** A CallHandler wrapping a call. Every `new CallHandler` is a distinct
      object; `serial` is that identity. */
  datatype Handler = Handler(serial: nat, call: Call)

  /** The CallHandlers dictionary: conversation-thread id to handler. */
  type Registry = map<string, Handler>

  datatype Identity = Identity(id: string, displayName: string)

  /** The body of a join request; a null DisplayName is None. */
  datatype JoinCallBody = JoinCallBody(joinUrl: string, displayName: Option<string>)

  /** What the platform's join-URL parser yields: the chat thread, and the
      organizer's tenant when the meeting info is organizer meeting info
      (None stands for the null the `as` cast gives otherwise). */
  datatype JoinInfo = JoinInfo(threadId: string, organizerTenant: Option<string>)

  datatype JoinParameters = JoinParameters(
    threadId: string,
    tenantId: string,
    session: MediaSession,
    guest: Option<Identity>)

  /** A request the service makes of the calling platform. */
  datatype Effect =
    | CreateSession(request: SessionRequest)
    | Answer(callId: string, session: MediaSession)
    | Add(parameters: JoinParameters, scenarioId: Guid)
    | Delete(call: Call)
    | ForceRemove(callId: string)
    | Cleanup(handler: Handler)   // detached task: media-stream shutdown, then dispose
    | Terminate
    | DisposeClient

  /** The effects of an entry point together with how it completed. */
  datatype Step = Step(effects: seq<Effect>, outcome: Outcome)

  /** Every entry is stored under its call's thread, and every handler was
      minted before `next`. */
  ghost predicate Valid(m: Registry, next: nat) {
    forall t :: t in m ==> m[t].call.threadId == t && m[t].serial < next
  }

  function Threads(calls: seq<Call>): set<string> {
    set c | c in calls :: c.threadId
  }

  lemma ThreadsOfPrefix(calls: seq<Call>, t: string)
    requires calls != []
    ensures t in Threads(calls) <==>
            t in Threads(calls[..|calls| - 1]) || calls[|calls| - 1].threadId == t
  {
    var n := |calls| - 1;
    assert calls == calls[..n] + [calls[n]];
    if t in Threads(calls) && calls[n].threadId != t {
      var c :| c in calls && c.threadId == t;
      assert c in calls[..n];
    }
  }

  lemma ThreadsSnoc(calls: seq<Call>)
    requires calls != []
    ensures Threads(calls) == Threads(calls[..|calls| - 1]) + {calls[|calls| - 1].threadId}
  {
    forall t ensures t in Threads(calls) <==>
                     t in Threads(calls[..|calls| - 1]) || calls[|calls| - 1].threadId == t {
      ThreadsOfPrefix(calls, t);
    }
  }

  // ---------------------------------------------------------------------
  // Updated notifications
  // ---------------------------------------------------------------------

  /** The position of the last call of `calls` on thread `t`. */
  function LastIndexOf(calls: seq<Call>, t: string): (r: Option<nat>)
    ensures r.Some? <==> t in Threads(calls)
    ensures r.Some? ==> r.value < |calls| && calls[r.value].threadId == t
    ensures r.Some? ==> forall k :: r.value < k < |calls| ==> calls[k].threadId != t
  {
    if calls == [] then None
    else
      var n := |calls| - 1;
      ThreadsOfPrefix(calls, t);
      if calls[n].threadId == t then Some(n) else LastIndexOf(calls[..n], t)
  }

  /** The first loop of CallsOnUpdated: each added call, in order, gets a new
      handler stored under its thread; the i-th new handler is `next + i`. */
  function UpsertAll(m: Registry, added: seq<Call>, next: nat): Registry
    decreases |added|
  {
    if added == [] then m
    else
      var n := |added| - 1;
      UpsertAll(m, added[..n], next)[added[n].threadId := Handler(next + n, added[n])]
  }

  /** What the second loop of CallsOnUpdated leaves: the registry and the
      handlers it handed to cleanup tasks, in order. */
  datatype Removal = Removal(remaining: Registry, cleaned: seq<Handler>)

  /** The second loop of CallsOnUpdated: each removed call's thread is taken
      out of the registry, and a handler actually taken out is cleaned up. */
  function RemoveAll(m: Registry, removed: seq<Call>): Removal
    decreases |removed|
  {
    if removed == [] then Removal(m, [])
    else
      var n := |removed| - 1;
      var r := RemoveAll(m, removed[..n]);
      var t := removed[n].threadId;
      if t in r.remaining then Removal(r.remaining - {t}, r.cleaned + [r.remaining[t]])
      else r
  }

  /** CallsOnUpdated: added calls first, then removed calls. */
  function Updated(m: Registry, next: nat, added: seq<Call>, removed: seq<Call>): Removal {
    RemoveAll(UpsertAll(m, added, next), removed)
  }

  /** The added loop registers exactly the added calls' threads, on top of
      those already registered. */
  lemma {:induction false} UpsertAllKeys(m: Registry, added: seq<Call>, next: nat)
    ensures UpsertAll(m, added, next).Keys == m.Keys + Threads(added)
    decreases |added|
  {
    if added != [] {
      UpsertAllKeys(m, added[..|added| - 1], next);
      ThreadsSnoc(added);
    }
  }

  /** The removed loop unregisters exactly the removed calls' threads, and
      every handler it takes out goes to exactly one cleanup: none is lost and
      none is made up. */
  lemma {:induction false} RemoveAllKeys(m: Registry, removed: seq<Call>)
    ensures RemoveAll(m, removed).remaining.Keys == m.Keys - Threads(removed)
    ensures |RemoveAll(m, removed).remaining| + |RemoveAll(m, removed).cleaned| == |m|
    decreases |removed|
  {
    if removed != [] {
      var n := |removed| - 1;
      RemoveAllKeys(m, removed[..n]);
      ThreadsSnoc(removed);
      var r := RemoveAll(m, removed[..n]);
      var t := removed[n].threadId;
      if t in r.remaining {
        assert (r.remaining - {t}).Keys == r.remaining.Keys - {t};
      }
    }
  }

  /** After a whole batch the registered threads are the earlier ones and the
      added ones, less the removed ones; a removed call's thread is never left
      registered, even when the same batch added it. */
  lemma UpdatedKeys(m: Registry, next: nat, added: seq<Call>, removed: seq<Call>)
    ensures Updated(m, next, added, removed).remaining.Keys == (m.Keys + Threads(added)) - Threads(removed)
    ensures |Updated(m, next, added, removed).remaining| + |Updated(m, next, added, removed).cleaned|
            == |UpsertAll(m, added, next)|
  {
    UpsertAllKeys(m, added, next);
    RemoveAllKeys(UpsertAll(m, added, next), removed);
  }

  /** How many of the handlers are for thread `t`. */
  function CountFor(hs: seq<Handler>, t: string): nat {
    if hs == [] then 0
    else CountFor(hs[..|hs| - 1], t) + (if hs[|hs| - 1].call.threadId == t then 1 else 0)
  }

  function CleanupEffects(hs: seq<Handler>): (es: seq<Effect>)
    ensures |es| == |hs|
    ensures forall i :: 0 <= i < |hs| ==> es[i] == Cleanup(hs[i])
  {
    seq(|hs|, i requires 0 <= i < |hs| => Cleanup(hs[i]))
  }

  /** After the added loop, a thread named by an added call holds the handler
      of the LAST added call on it; any other thread is as it was. */
  lemma {:induction false} UpsertAllAt(m: Registry, added: seq<Call>, next: nat, t: string)
    ensures var u := UpsertAll(m, added, next);
            && (t in u <==> t in m || t in Threads(added))
            && (t in Threads(added) ==>
                  var j := LastIndexOf(added, t).value;
                  u[t] == Handler(next + j, added[j]))
            && (t !in Threads(added) && t in m ==> u[t] == m[t])
    decreases |added|
  {
    if added != [] {
      var n := |added| - 1;
      ThreadsOfPrefix(added, t);
      UpsertAllAt(m, added[..n], next, t);
    }
  }

  lemma UpsertAllValid(m: Registry, added: seq<Call>, next: nat)
    requires Valid(m, next)
    ensures Valid(UpsertAll(m, added, next), next + |added|)
  {
    var u := UpsertAll(m, added, next);
    forall t | t in u
      ensures u[t].call.threadId == t && u[t].serial < next + |added|
    {
      UpsertAllAt(m, added, next, t);
    }
  }

  /** After the removed loop, a thread named by a removed call is absent and
      every other thread is as it was. */
  lemma {:induction false} RemoveAllAt(m: Registry, removed: seq<Call>, t: string)
    ensures var r := RemoveAll(m, removed).remaining;
            && (t in r <==> t in m && t !in Threads(removed))
            && (t in r ==> r[t] == m[t])
    decreases |removed|
  {
    if removed != [] {
      var n := |removed| - 1;
      ThreadsOfPrefix(removed, t);
      RemoveAllAt(m, removed[..n], t);
      RemoveAllAt(m, removed[..n], removed[n].threadId);
    }
  }

  /** Every handler the removed loop cleans up is the one the registry held for
      a removed thread, and each such thread gets exactly one cleanup; a thread
      that was absent gets none. */
  lemma {:induction false} RemoveAllCleaned(m: Registry, removed: seq<Call>, t: string)
    requires forall k :: k in m ==> m[k].call.threadId == k
    ensures var r := RemoveAll(m, removed);
            && CountFor(r.cleaned, t) == (if t in m && t in Threads(removed) then 1 else 0)
            && (forall h :: h in r.cleaned ==> h.call.threadId in m && m[h.call.threadId] == h)
    decreases |removed|
  {
    if removed != [] {
      var n := |removed| - 1;
      var u := removed[n].threadId;
      var r := RemoveAll(m, removed[..n]);
      ThreadsOfPrefix(removed, t);
      RemoveAllCleaned(m, removed[..n], t);
      RemoveAllAt(m, removed[..n], u);
      if u in r.remaining {
        var cleaned := r.cleaned + [r.remaining[u]];
        assert cleaned[..|cleaned| - 1] == r.cleaned;
        forall h | h in cleaned ensures h.call.threadId in m && m[h.call.threadId] == h {
          if h !in r.cleaned {
            assert h == r.remaining[u];
          }
        }
      }
    }
  }

  /** A removal notification for a thread already removed in the same or an
      earlier part of the batch changes nothing and cleans up nothing. */
  lemma DuplicateRemovalHarmless(m: Registry, removed: seq<Call>, c: Call)
    requires c.threadId in Threads(removed)
    ensures RemoveAll(m, removed + [c]) == RemoveAll(m, removed)
  {
    assert (removed + [c])[..|removed|] == removed;
    RemoveAllAt(m, removed, c.threadId);
  }

  /** The whole effect of one updated notification on thread `t`. */
  lemma UpdatedAt(m: Registry, next: nat, added: seq<Call>, removed: seq<Call>, t: string)
    requires Valid(m, next)
    ensures var r := Updated(m, next, added, removed);
            // removed threads are gone, even when the same batch added them
            && (t in Threads(removed) ==> t !in r.remaining)
            // an added thread holds a fresh handler for its last added call
            && (t !in Threads(removed) && t in Threads(added) ==>
                  var j := LastIndexOf(added, t).value;
                  t in r.remaining && r.remaining[t] == Handler(next + j, added[j]))
            // threads the batch does not name are unchanged
            && (t !in Threads(removed) && t !in Threads(added) ==>
                  (t in r.remaining <==> t in m) && (t in m ==> r.remaining[t] == m[t]))
            // one cleanup per removed thread that was present after the added loop
            && CountFor(r.cleaned, t) ==
                 (if t in Threads(removed) && (t in m || t in Threads(added)) then 1 else 0)
            // a thread both added and removed: the new handler is the one cleaned up
            && (t in Threads(removed) && t in Threads(added) ==>
                  var j := LastIndexOf(added, t).value;
                  Handler(next + j, added[j]) in r.cleaned)
            // a handler overwritten by an added call is never cleaned up
            && (t in m && t in Threads(added) ==> m[t] !in r.cleaned)
            && Valid(r.remaining, next + |added|)
  {
    var u := UpsertAll(m, added, next);
    var r := Updated(m, next, added, removed);
    UpsertAllValid(m, added, next);
    UpsertAllAt(m, added, next, t);
    RemoveAllAt(u, removed, t);
    RemoveAllCleaned(u, removed, t);
    if t in Threads(removed) && t in Threads(added) {
      CountPositive(r.cleaned, t);
    }
    forall k | k in r.remaining
      ensures r.remaining[k].call.threadId == k && r.remaining[k].serial < next + |added|
    {
      RemoveAllAt(u, removed, k);
    }
  }

  /** A positive count names a handler for the thread. */
  lemma {:induction false} CountPositive(hs: seq<Handler>, t: string)
    requires CountFor(hs, t) > 0
    ensures exists h :: h in hs && h.call.threadId == t
  {
    var n := |hs| - 1;
    if hs[n].call.threadId != t {
      CountPositive(hs[..n], t);
      var h :| h in hs[..n] && h.call.threadId == t;
      assert h in hs;
    }
  }

  /** Within one batch, a handler created for an added call that a later added
      call on the same thread overwrites is neither kept nor cleaned up. */
  lemma OverwrittenInBatch(m: Registry, next: nat, added: seq<Call>, removed: seq<Call>, j: nat, k: nat)
    requires Valid(m, next)
    requires j < k < |added| && added[j].threadId == added[k].threadId
    ensures var r := Updated(m, next, added, removed);
            && Handler(next + j, added[j]) !in r.cleaned
            && (added[j].threadId !in r.remaining || r.remaining[added[j].threadId] != Handler(next + j, added[j]))
  {
    var t := added[j].threadId;
    var u := UpsertAll(m, added, next);
    var r := Updated(m, next, added, removed);
    assert added[k] in added;
    UpsertAllValid(m, added, next);
    UpsertAllAt(m, added, next, t);
    RemoveAllAt(u, removed, t);
    RemoveAllCleaned(u, removed, t);
  }

  // ---------------------------------------------------------------------
  // Incoming notifications
  // ---------------------------------------------------------------------

  /** The media-session id each call of an incoming batch gets. */
  function SessionIds(calls: seq<Call>): (ids: seq<Guid>)
    ensures |ids| == |calls|
    ensures forall j :: 0 <= j < |calls| ==> ids[j] == SessionIdFor(calls[j].id)
  {
    seq(|calls|, j requires 0 <= j < |calls| => SessionIdFor(calls[j].id))
  }

  /** The handler CallsOnIncoming runs for one incoming call: a media session
      with id `sessionId`, then an answer with it. `created` is whether the
      platform created the session; a failure is re-raised and nothing is
      answered. */
  function AnswerIncoming(clientLive: bool, call: Call, sessionId: Guid, created: bool): (r: Step)
    ensures r.outcome == Pass <==> clientLive && created
  {
    var requested := if clientLive then [CreateSession(RequestFor(sessionId))] else [];
    match CreateLocalMediaSession(clientLive, created, sessionId)
    case Failure(e) => Step(requested, Fail(e))
    case Success(session) => Step(requested + [Answer(call.id, session)], Pass)
  }

  /** What the handler for one incoming call requests: the session first
      (unless there is no client), then the answer if the session exists. */
  lemma AnswerIncomingRequests(clientLive: bool, call: Call, sessionId: Guid, created: bool)
    ensures var r := AnswerIncoming(clientLive, call, sessionId, created);
            var request := RequestFor(sessionId);
            && (clientLive && created ==>
                  r.effects == [CreateSession(request), Answer(call.id, MediaSession(request))])
            && (clientLive && !created ==>
                  r == Step([CreateSession(request)], Fail(MediaSessionCreationFailed)))
            && (!clientLive ==> r == Step([], Fail(NullReference)))
  {
  }

  /** CallsOnIncoming over the batch from position `i` on, the j-th call
      getting session id `ids[j]`: each call in order, until one fails; the
      calls after a failure are not processed. */
  function IncomingFrom(clientLive: bool, calls: seq<Call>, ids: seq<Guid>, created: seq<bool>, i: nat): (r: Step)
    requires |ids| == |calls| && |created| == |calls| && i <= |calls|
    ensures !clientLive && i < |calls| ==> r == Step([], Fail(NullReference))
    ensures r.outcome == Pass <==>
            (i == |calls| || clientLive) && forall j :: i <= j < |calls| ==> created[j]
    decreases |calls| - i
  {
    if i == |calls| then Step([], Pass)
    else
      var first := AnswerIncoming(clientLive, calls[i], ids[i], created[i]);
      if first.outcome.Fail? then first
      else
        var rest := IncomingFrom(clientLive, calls, ids, created, i + 1);
        Step(first.effects + rest.effects, rest.outcome)
  }

  /** CallsOnIncoming over a whole batch, each call's session id chosen from
      its call id. */
  function Incoming(clientLive: bool, calls: seq<Call>, created: seq<bool>): (r: Step)
    requires |created| == |calls|
    ensures !clientLive && calls != [] ==> r == Step([], Fail(NullReference))
    ensures r.outcome == Pass <==> (calls == [] || clientLive) && forall j :: 0 <= j < |calls| ==> created[j]
  {
    IncomingFrom(clientLive, calls, SessionIds(calls), created, 0)
  }

  /** The effects `done` followed by the step `s`. */
  function After(done: seq<Effect>, s: Step): Step {
    Step(done + s.effects, s.outcome)
  }

  /** One step of CallsOnIncoming: the batch from `i` is the i-th call's
      handler, then the batch from `i + 1` unless the handler failed. */
  lemma IncomingStep(
    clientLive: bool, calls: seq<Call>, ids: seq<Guid>, created: seq<bool>, i: nat, done: seq<Effect>)
    requires |ids| == |calls| && |created| == |calls| && i < |calls|
    ensures var first := AnswerIncoming(clientLive, calls[i], ids[i], created[i]);
            After(done, IncomingFrom(clientLive, calls, ids, created, i))
            == if first.outcome.Fail? then After(done, first)
               else After(done + first.effects, IncomingFrom(clientLive, calls, ids, created, i + 1))
  {
    var first := AnswerIncoming(clientLive, calls[i], ids[i], created[i]);
    var rest := IncomingFrom(clientLive, calls, ids, created, i + 1).effects;
    assert done + (first.effects + rest) == (done + first.effects) + rest;
  }

  /** An incoming batch only creates sessions and answers calls, and every
      answer uses an audio-only session. */
  lemma {:induction false} IncomingRequestsOnly(
    clientLive: bool, calls: seq<Call>, ids: seq<Guid>, created: seq<bool>, i: nat)
    requires |ids| == |calls| && |created| == |calls| && i <= |calls|
    ensures var r := IncomingFrom(clientLive, calls, ids, created, i);
            && (forall e :: e in r.effects ==> e.CreateSession? || e.Answer?)
            && (forall e :: e in r.effects && e.Answer? ==> AudioOnly(e.session.request))
    decreases |calls| - i
  {
    if i < |calls| {
      AnswerIncomingRequests(clientLive, calls[i], ids[i], created[i]);
      IncomingRequestsOnly(clientLive, calls, ids, created, i + 1);
    }
  }

  /** When every session is created, each incoming call is answered exactly
      once, in order, with an audio-only session carrying its own session id,
      and its session request comes just before. */
  lemma {:induction false} IncomingAnswersEach(calls: seq<Call>, ids: seq<Guid>, created: seq<bool>, i: nat)
    requires |ids| == |calls| && |created| == |calls| && i <= |calls|
    requires forall j :: i <= j < |created| ==> created[j]
    ensures var r := IncomingFrom(true, calls, ids, created, i);
            && r.outcome == Pass
            && |r.effects| == 2 * (|calls| - i)
            && forall j :: i <= j < |calls| ==>
                 r.effects[2 * (j - i)] == CreateSession(RequestFor(ids[j]))
                 && r.effects[2 * (j - i) + 1] == Answer(calls[j].id, MediaSession(RequestFor(ids[j])))
    decreases |calls| - i
  {
    if i < |calls| {
      IncomingAnswersEach(calls, ids, created, i + 1);
      AnswerIncomingRequests(true, calls[i], ids[i], created[i]);
      var first := AnswerIncoming(true, calls[i], ids[i], created[i]);
      var r := IncomingFrom(true, calls, ids, created, i);
      var rest := IncomingFrom(true, calls, ids, created, i + 1).effects;
      assert first.outcome == Pass && |first.effects| == 2;
      assert r.effects == first.effects + rest;
    }
  }

  /** When the k-th session cannot be created, the batch stops there: the
      calls before it are answered, the k-th is not, and the ones after it are
      never looked at. */
  lemma {:induction false} IncomingStopsAtFailure(
    calls: seq<Call>, ids: seq<Guid>, created: seq<bool>, i: nat, k: nat)
    requires |ids| == |calls| && |created| == |calls| && i <= k < |calls|
    requires !created[k] && forall j :: i <= j < k ==> created[j]
    ensures var r := IncomingFrom(true, calls, ids, created, i);
            && r.outcome == Fail(MediaSessionCreationFailed)
            && |r.effects| == 2 * (k - i) + 1
            && r.effects[2 * (k - i)] == CreateSession(RequestFor(ids[k]))
            && forall j :: i <= j < k ==>
                 r.effects[2 * (j - i) + 1] == Answer(calls[j].id, MediaSession(RequestFor(ids[j])))
    decreases k - i
  {
    AnswerIncomingRequests(true, calls[i], ids[i], created[i]);
    if i < k {
      IncomingStopsAtFailure(calls, ids, created, i + 1, k);
      var first := AnswerIncoming(true, calls[i], ids[i], created[i]);
      var r := IncomingFrom(true, calls, ids, created, i);
      var rest := IncomingFrom(true, calls, ids, created, i + 1).effects;
      assert first.outcome == Pass && |first.effects| == 2;
      assert r.effects == first.effects + rest;
    }
  }

  // ---------------------------------------------------------------------
  // Join requests
  // ---------------------------------------------------------------------

  /** The guest identity JoinCallAsync attaches: only for a non-null,
      non-empty display name, with a freshly generated id. */
  function GuestIdentity(displayName: Option<string>, guestId: Guid): (r: Option<Identity>)
    ensures r.Some? <==> displayName.Some? && displayName.value != ""
    ensures r.Some? ==> r.value.displayName == displayName.value && r.value.id == Format(guestId)
  {
    if displayName.Some? && displayName.value != "" then
      Some(Identity(Format(guestId), displayName.value))
    else None
  }

  /** The outcome of a join request and the effects it requested. */
  datatype JoinStep = JoinStep(effects: seq<Effect>, result: Result<Call>)

  predicate AddIssued(es: seq<Effect>) {
    exists i :: 0 <= i < |es| && es[i].Add?
  }

  /** JoinCallAsync. `parsed` is the platform parser's answer for the join
      URL (None: it threw); `sessionOk` whether the platform created the media
      session; `added` the platform's answer to the add-call (None: it
      failed); `scenarioId` and `guestId` the Guids it generates. */
  function JoinCall(
    m: Registry, clientLive: bool, body: JoinCallBody, parsed: Option<JoinInfo>,
    scenarioId: Guid, guestId: Guid, sessionOk: bool, added: Option<Call>): (r: JoinStep)
    // the media session is requested once the URL and tenant are resolved, before the guard
    ensures parsed.Some? && parsed.value.organizerTenant.Some? && clientLive ==>
              |r.effects| >= 1 && r.effects[0] == CreateSession(RequestFor(Empty))
    ensures parsed.None? ==> r == JoinStep([], Failure(InvalidJoinUrl))
    // the guard: a registered thread is refused without any add-call
    ensures r.result == Failure(AlreadyAdded) <==>
              && parsed.Some? && parsed.value.organizerTenant.Some? && clientLive && sessionOk
              && parsed.value.threadId in m
    ensures AddIssued(r.effects) <==>
              && parsed.Some? && parsed.value.organizerTenant.Some? && clientLive && sessionOk
              && parsed.value.threadId !in m
    // exactly one add-call, for the parsed thread and tenant, with the new scenario id
    ensures AddIssued(r.effects) ==>
              && |r.effects| == 2 && r.effects[1].Add?
              && r.effects[1].scenarioId == scenarioId
              && r.effects[1].parameters.threadId == parsed.value.threadId
              && r.effects[1].parameters.tenantId == parsed.value.organizerTenant.value
              && r.effects[1].parameters.guest == GuestIdentity(body.displayName, guestId)
              && AudioOnly(r.effects[1].parameters.session.request)
              && r.result == (if added.Some? then Success(added.value) else Failure(AddCallFailed))
    ensures !AddIssued(r.effects) ==> r.result.Failure? && |r.effects| <= 1
  {
    if parsed.None? then JoinStep([], Failure(InvalidJoinUrl))
    else if parsed.value.organizerTenant.None? then JoinStep([], Failure(NullReference))
    else
      var info := parsed.value;
      var requested := if clientLive then [CreateSession(RequestFor(Empty))] else [];
      match CreateLocalMediaSession(clientLive, sessionOk, Empty)
      case Failure(e) => JoinStep(requested, Failure(e))
      case Success(session) =>
        var parameters := JoinParameters(
          info.threadId, info.organizerTenant.value, session,
          GuestIdentity(body.displayName, guestId));
        if info.threadId in m then JoinStep(requested, Failure(AlreadyAdded))
        else
          assert (requested + [Add(parameters, scenarioId)])[|requested|].Add?;
          JoinStep(requested + [Add(parameters, scenarioId)],
                   if added.Some? then Success(added.value) else Failure(AddCallFailed))
  }

  // ---------------------------------------------------------------------
  // End-call requests
  // ---------------------------------------------------------------------

  /** EndCallByThreadIdAsync. `deleteOk` is whether the platform's delete
      succeeded. An unknown thread makes the lookup throw, which is caught
      with the call id still empty. */
  function EndCall(m: Registry, clientLive: bool, threadId: string, deleteOk: bool): (r: Step)
    // an unknown thread requests nothing and completes
    ensures threadId !in m ==> r == Step([], Pass)
    // a known thread: exactly one delete, of its handler's call
    ensures threadId in m ==> 1 <= |r.effects| <= 2 && r.effects[0] == Delete(m[threadId].call)
    // a forced removal, by that call's id, only when the delete failed
    ensures |r.effects| == 2 <==>
              threadId in m && !deleteOk && m[threadId].call.id != "" && clientLive
    ensures |r.effects| == 2 ==> r.effects[1] == ForceRemove(m[threadId].call.id)
    // it only fails when the fallback reaches a null Client
    ensures r.outcome.Fail? <==>
              threadId in m && !deleteOk && m[threadId].call.id != "" && !clientLive
    ensures r.outcome.Fail? ==> r.outcome.error == NullReference
  {
    if threadId !in m then Step([], Pass)
    else
      var call := m[threadId].call;
      if deleteOk || call.id == "" then Step([Delete(call)], Pass)
      else if !clientLive then Step([Delete(call)], Fail(NullReference))
      else Step([Delete(call), ForceRemove(call.id)], Pass)
  }

  /** Ending a registered call twice: the first request deletes it; once the
      platform has reported its removal, the second request touches nothing
      and succeeds. */
  lemma EndCallTwice(m: Registry, next: nat, t: string, firstOk: bool, secondOk: bool)
    requires Valid(m, next) && t in m
    ensures var first := EndCall(m, true, t, firstOk);
            var after := Updated(m, next, [], [m[t].call]).remaining;
            && first.outcome == Pass
            && first.effects[0] == Delete(m[t].call)
            && after == m - {t}
            && EndCall(after, true, t, secondOk) == Step([], Pass)
  {
    var c := m[t].call;
    assert c.threadId == t;
    assert UpsertAll(m, [], next) == m;
    assert [c][..0] == [];
    assert RemoveAll(m, [c]) == Removal(m - {t}, [m[t]]);
  }
}
