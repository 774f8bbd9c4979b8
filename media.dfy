/** Media sessions: the fixed audio-only settings the bot asks the platform for,
    and the session id it chooses for an incoming call. */
module Media {
  import opened Failures
  import opened Guids

  datatype StreamDirection = Inactive | SendOnly | ReceiveOnly | SendReceive

  datatype AudioFormat = Pcm8K | Pcm16K

  datatype AudioSocketSettings = AudioSocketSettings(
    directions: StreamDirection,
    supportedFormat: AudioFormat,
    receiveUnmixedMeetingAudio: bool)

  datatype VideoSocketSettings = VideoSocketSettings(directions: StreamDirection)

  /** What the bot passes to the platform's CreateMediaSession. */
  datatype SessionRequest = SessionRequest(
    audio: AudioSocketSettings,
    video: VideoSocketSettings,
    sessionId: Guid)

  /** A local media session the platform created for a request. */
  datatype MediaSession = MediaSession(request: SessionRequest)

  /** The bot is audio-only: send and receive audio at Pcm16K, mixed, and no video. */
  predicate AudioOnly(r: SessionRequest) {
    && r.audio.directions == SendReceive
    && r.audio.supportedFormat == Pcm16K
    && !r.audio.receiveUnmixedMeetingAudio
    && r.video.directions == Inactive
  }

  /** The request CreateLocalMediaSession builds for a session id. */
  function RequestFor(sessionId: Guid): (r: SessionRequest)
    ensures AudioOnly(r) && r.sessionId == sessionId
  {
    SessionRequest(
      AudioSocketSettings(SendReceive, Pcm16K, false),
      VideoSocketSettings(Inactive),
      sessionId)
  }

  /** CreateLocalMediaSession: the platform's answer to RequestFor(sessionId).
      `clientLive` is false when the Client property is null; `platformOk` is
      whether the platform's CreateMediaSession succeeded. Every failure is
      re-raised to the caller. */
  function CreateLocalMediaSession(clientLive: bool, platformOk: bool, sessionId: Guid): (r: Result<MediaSession>)
    ensures r.Success? <==> clientLive && platformOk
    ensures r.Success? ==> AudioOnly(r.value.request) && r.value.request.sessionId == sessionId
    ensures !clientLive ==> r == Failure(NullReference)
    ensures clientLive && !platformOk ==> r == Failure(MediaSessionCreationFailed)
  {
    if !clientLive then Failure(NullReference)
    else if !platformOk then Failure(MediaSessionCreationFailed)
    else Success(MediaSession(RequestFor(sessionId)))
  }

  /** The media-session id for an incoming call: the call id when it parses as
      a Guid, Guid.Empty otherwise. */
  function SessionIdFor(callId: string): (id: Guid)
    ensures TryParse(callId) == Some(id) || (TryParse(callId) == None && id == Empty)
  {
    var parsed := TryParse(callId);
    if parsed.Some? then parsed.value else Empty
  }

  /** A call whose id is a printed Guid gets that Guid as its session id. */
  lemma SessionIdOfGuidCall(g: Guid)
    ensures SessionIdFor(Format(g)) == g
  {
    FormatRoundTrip(g);
  }
}
