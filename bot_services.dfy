/** The bot service object: the CallHandlers dictionary it updates in place,
    its platform Client, and the trace of requests it has made of the
    platform. Each method is one handler invocation, run as one atomic step.
    The handler methods are proved against the CallModel function that
    specifies them; Initialize, Dispose and Shutdown state their effect
    directly. */
module Bot {
  import opened Failures
  import opened Guids
  import opened Media
  import opened CallModel

  class BotServices {
    /** CallHandlers: conversation-thread id to the handler of its call. */
    var callHandlers: Registry
    /** The identity the next `new CallHandler` receives. */
    var nextSerial: nat
    /** Whether the Client property is non-null. */
    var clientLive: bool
    /** The requests made of the platform so far, oldest first. */
    var effects: seq<Effect>

    ghost predicate Valid()
      reads this
    {
      CallModel.Valid(callHandlers, nextSerial)
    }

    constructor ()
      ensures Valid()
      ensures callHandlers == map[] && nextSerial == 0 && !clientLive && effects == []
    {
      callHandlers := map[];
      nextSerial := 0;
      clientLive := false;
      effects := [];
    }

    /** Initialize: builds the platform client and subscribes CallsOnIncoming
        and CallsOnUpdated to its call collection. */
    method Initialize()
      requires Valid()
      modifies this`clientLive
      ensures clientLive
      ensures Valid()
    {
      clientLive := true;
    }

    /** The handler CallsOnIncoming runs for each call: creates a media
        session whose id is the call id when that parses as a Guid, then asks
        the platform to answer the call with it. `created` is whether the
        platform created the session. */
    method AnswerIncomingCall(call: Call, created: bool) returns (outcome: Outcome)
      requires Valid()
      modifies this`effects
      ensures effects == old(effects) + AnswerIncoming(clientLive, call, SessionIdFor(call.id), created).effects
      ensures outcome == AnswerIncoming(clientLive, call, SessionIdFor(call.id), created).outcome
      ensures Valid()
    {
      var sessionId := SessionIdFor(call.id);
      if clientLive {
        effects := effects + [CreateSession(RequestFor(sessionId))];
      }
      var session := CreateLocalMediaSession(clientLive, created, sessionId);
      if session.Failure? {
        return Fail(session.error);
      }
      effects := effects + [Answer(call.id, session.value)];
      outcome := Pass;
    }

    /** CallsOnIncoming: runs the handler for each call of an incoming batch,
        in order; an exception from one ends the batch. `created[i]` is whether
        the platform created the i-th call's session. */
    method CallsOnIncoming(calls: seq<Call>, created: seq<bool>) returns (outcome: Outcome)
      requires |created| == |calls|
      requires Valid()
      modifies this`effects
      ensures callHandlers == old(callHandlers)
      ensures effects == old(effects) + Incoming(clientLive, calls, created).effects
      ensures outcome == Incoming(clientLive, calls, created).outcome
      ensures Valid()
    {
      ghost var live := clientLive;
      ghost var ids := SessionIds(calls);
      ghost var whole := After(effects, Incoming(live, calls, created));
      var i := 0;
      while i < |calls|
        invariant 0 <= i <= |calls|
        invariant After(effects, IncomingFrom(live, calls, ids, created, i)) == whole
      {
        IncomingStep(live, calls, ids, created, i, effects);
        assert ids[i] == SessionIdFor(calls[i].id);
        outcome := AnswerIncomingCall(calls[i], created[i]);
        if outcome.Fail? {
          return;
        }
        i := i + 1;
      }
      assert effects + [] == effects;
      outcome := Pass;
    }

    /** CallsOnUpdated: registers a new handler for every added call, then
        unregisters every removed call's thread and schedules the cleanup of
        each handler it actually took out. */
    method CallsOnUpdated(added: seq<Call>, removed: seq<Call>)
      requires Valid()
      modifies this`callHandlers, this`nextSerial, this`effects
      ensures Valid()
      ensures callHandlers == Updated(old(callHandlers), old(nextSerial), added, removed).remaining
      ensures nextSerial == old(nextSerial) + |added|
      ensures effects == old(effects)
                         + CleanupEffects(Updated(old(callHandlers), old(nextSerial), added, removed).cleaned)
    {
      var i := 0;
      while i < |added|
        invariant 0 <= i <= |added|
        invariant callHandlers == UpsertAll(old(callHandlers), added[..i], old(nextSerial))
        invariant nextSerial == old(nextSerial) + i
        invariant effects == old(effects)
      {
        var call := added[i];
        var handler := Handler(nextSerial, call);
        callHandlers := callHandlers[call.threadId := handler];
        nextSerial := nextSerial + 1;
        assert added[..i + 1][..i] == added[..i];
        i := i + 1;
      }
      assert added[..|added|] == added;
      ghost var upserted := callHandlers;

      var j := 0;
      while j < |removed|
        invariant 0 <= j <= |removed|
        invariant callHandlers == RemoveAll(upserted, removed[..j]).remaining
        invariant effects == old(effects) + CleanupEffects(RemoveAll(upserted, removed[..j]).cleaned)
        invariant nextSerial == old(nextSerial) + |added|
      {
        var threadId := removed[j].threadId;
        assert removed[..j + 1][..j] == removed[..j];
        if threadId in callHandlers {
          var handler := callHandlers[threadId];
          callHandlers := callHandlers - {threadId};
          ghost var before := RemoveAll(upserted, removed[..j]).cleaned;
          assert CleanupEffects(before + [handler]) == CleanupEffects(before) + [Cleanup(handler)];
          effects := effects + [Cleanup(handler)];
        }
        j := j + 1;
      }
      assert removed[..|removed|] == removed;
      UpdatedAt(old(callHandlers), old(nextSerial), added, removed, "");
    }

    /** Dispose: disposes of the client if there is one, and drops it. */
    method Dispose()
      requires Valid()
      modifies this`clientLive, this`effects
      ensures !clientLive
      ensures effects == old(effects) + (if old(clientLive) then [DisposeClient] else [])
      ensures Valid()
    {
      if clientLive {
        effects := effects + [DisposeClient];
      }
      clientLive := false;
    }

    /** Shutdown: terminates the client, then disposes of it. Without a client
        the first dereference fails. */
    method Shutdown(terminateOk: bool) returns (outcome: Outcome)
      requires Valid()
      modifies this`clientLive, this`effects
      ensures !old(clientLive) ==>
                outcome == Fail(NullReference) && effects == old(effects) && !clientLive
      ensures old(clientLive) && !terminateOk ==>
                outcome == Fail(TerminateFailed) && effects == old(effects) + [Terminate] && clientLive
      ensures old(clientLive) && terminateOk ==>
                outcome == Pass && effects == old(effects) + [Terminate, DisposeClient] && !clientLive
      ensures Valid()
    {
      if !clientLive {
        return Fail(NullReference);
      }
      effects := effects + [Terminate];
      if !terminateOk {
        return Fail(TerminateFailed);
      }
      Dispose();
      outcome := Pass;
    }

    /** JoinCallAsync: asks the platform to join the meeting of a join URL,
        unless its thread is already registered. */
    method JoinCallAsync(
      body: JoinCallBody, parsed: Option<JoinInfo>, scenarioId: Guid, guestId: Guid,
      sessionOk: bool, added: Option<Call>) returns (result: Result<Call>)
      requires Valid()
      modifies this`effects
      ensures callHandlers == old(callHandlers)
      ensures effects == old(effects)
                         + JoinCall(callHandlers, clientLive, body, parsed, scenarioId, guestId, sessionOk, added).effects
      ensures result == JoinCall(callHandlers, clientLive, body, parsed, scenarioId, guestId, sessionOk, added).result
      ensures Valid()
    {
      if parsed.None? {
        return Failure(InvalidJoinUrl);
      }
      var info := parsed.value;
      if info.organizerTenant.None? {
        return Failure(NullReference);
      }
      var tenantId := info.organizerTenant.value;
      if clientLive {
        effects := effects + [CreateSession(RequestFor(Empty))];
      }
      var session := CreateLocalMediaSession(clientLive, sessionOk, Empty);
      if session.Failure? {
        return Failure(session.error);
      }
      var parameters := JoinParameters(
        info.threadId, tenantId, session.value, GuestIdentity(body.displayName, guestId));
      if parameters.threadId !in callHandlers {
        effects := effects + [Add(parameters, scenarioId)];
        result := if added.Some? then Success(added.value) else Failure(AddCallFailed);
        return;
      }
      result := Failure(AlreadyAdded);
    }

    /** EndCallByThreadIdAsync: deletes the thread's call, falling back to a
        forced removal by call id when the delete fails; it absorbs every
        failure except a null Client in the fallback. */
    method EndCallByThreadIdAsync(threadId: string, deleteOk: bool) returns (outcome: Outcome)
      requires Valid()
      modifies this`effects
      ensures callHandlers == old(callHandlers)
      ensures effects == old(effects) + EndCall(callHandlers, clientLive, threadId, deleteOk).effects
      ensures outcome == EndCall(callHandlers, clientLive, threadId, deleteOk).outcome
      ensures Valid()
    {
      var callId := "";
      var thrown := false;
      var lookup := GetHandlerOrThrow(threadId);
      if lookup.Failure? {
        thrown := true;
      } else {
        callId := lookup.value.call.id;
        effects := effects + [Delete(lookup.value.call)];
        thrown := !deleteOk;
      }
      outcome := Pass;
      if thrown && callId != "" {
        if !clientLive {
          outcome := Fail(NullReference);
        } else {
          effects := effects + [ForceRemove(callId)];
        }
      }
    }

    /** GetHandlerOrThrow: the handler registered for a thread. */
    function GetHandlerOrThrow(threadId: string): (r: Result<Handler>)
      reads this
      ensures r.Success? <==> threadId in callHandlers
      ensures r.Success? ==> r.value == callHandlers[threadId]
      ensures r.Failure? ==> r.error == CallNotFound(threadId)
    {
      if threadId in callHandlers then Success(callHandlers[threadId])
      else Failure(CallNotFound(threadId))
    }
  }
}
