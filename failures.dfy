/** Failure values of the bot service: the exceptions its entry points throw,
    and the two result shapes (value-or-error, done-or-error) used for them. */
module Failures {

  /** The exceptions the modelled code raises or lets through. */
  datatype Error =
    | NullReference              // a member was reached through a null Client or a non-organizer meeting info
    | MediaSessionCreationFailed // the platform refused to create a media session (logged and re-thrown)
    | InvalidJoinUrl             // the platform's join-URL parser rejected the URL
    | AlreadyAdded               // JoinCallAsync found the thread already registered
    | CallNotFound(threadId: string) // GetHandlerOrThrow found no handler for the thread
    | AddCallFailed              // the platform's add-call request failed
    | TerminateFailed            // the platform client failed to terminate

  /** The message text the service attaches to the exceptions it creates itself. */
  function Message(e: Error): string
  {
    match e
    case AlreadyAdded => "Call has already been added"
    case CallNotFound(t) => "call (" + t + ") not found"
    case _ => ""
  }

  /** A not-found message names its thread: two threads never share one, and
      none reads like the already-added message. */
  lemma MessagesIdentify(a: string, b: string)
    ensures Message(CallNotFound(a)) == Message(CallNotFound(b)) ==> a == b
    ensures Message(AlreadyAdded) != Message(CallNotFound(a))
  {
    var ma, mb := Message(CallNotFound(a)), Message(CallNotFound(b));
    assert ma[0] == 'c' && Message(AlreadyAdded)[0] == 'C';
    if ma == mb {
      assert |a| == |b|;
      forall i | 0 <= i < |a| ensures a[i] == b[i] {
        assert ma[6 + i] == a[i] && mb[6 + i] == b[i];
      }
    }
  }

  datatype Option<+T> = None | Some(value: T)

  /** A value, or the exception that was raised instead. */
  datatype Result<+T> = Success(value: T) | Failure(error: Error)

  /** A task that completed, or the exception it faulted with. */
  datatype Outcome = Pass | Fail(error: Error)
}
