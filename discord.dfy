/**
 * The invite lookup of discord.py: one reply of the invite endpoint, classified into the
 * triple `(succ, retry, data)`, with the seconds the function sleeps before returning.
 */
module Discord {
  import opened Common

  datatype Guild = Guild(id: string, name: string, features: seq<string>)

  /** The decoded JSON body; `code` and `guild` are absent from some bodies. */
  datatype Invite = Invite(code: Option<string>, guild: Option<Guild>)

  /** What `urlopen` of the invite endpoint yields: a 2xx body, an `HTTPError` with the
    * integer value of its `X-RateLimit-Reset` header if present, or any other failure. */
  datatype ApiReply =
    | Answer(body: Invite)
    | HttpError(status: int, rateLimitReset: Option<int>)
    | NoConnection

  datatype Lookup = Lookup(succ: bool, retry: bool, data: Option<Invite>, slept: nat)

  /** Exceptions that escape `get_invite_from_code`: `data['code']` on a body without it,
    * and the non-HTTP errors of `urlopen`. */
  datatype ApiFault = MissingCode | ConnectionFailed

  /** The in-band code of an expired invite. */
  const ExpiredCode: string := "10006"

  const StatusNotFound: int := 404
  const StatusTooManyRequests: int := 429

  /** `get_invite_from_code(code)` given the reply and the clock reading `now`. */
  function GetInviteFromCode(reply: ApiReply, now: int): (r: Result<Lookup, ApiFault>)
    // the triple never claims success and retry at once, and carries data exactly on success
    ensures r.Ok? ==> !(r.value.succ && r.value.retry)
    ensures r.Ok? ==> (r.value.data.Some? <==> r.value.succ)
    ensures r.Err? <==> reply.NoConnection? || (reply.Answer? && reply.body.code.None?)
    ensures r.Ok? && r.value.succ <==> reply.Answer? && reply.body.code.Some? && reply.body.code.value != ExpiredCode
    ensures r.Ok? && r.value.succ ==> r.value.data == Some(reply.body)
    // not found (terminal): the expiry sentinel, or 404
    ensures r.Ok? && !r.value.succ && !r.value.retry <==>
      (reply.Answer? && reply.body.code == Some(ExpiredCode)) || (reply.HttpError? && reply.status == StatusNotFound)
    // every other HTTP error is retryable, and only a future rate-limit reset makes it sleep
    ensures reply.HttpError? && reply.status != StatusNotFound ==> r.Ok? && r.value.retry
    ensures r.Ok? && r.value.slept > 0 <==>
      reply.HttpError? && reply.status == StatusTooManyRequests && reply.rateLimitReset.Some?
      && reply.rateLimitReset.value - now > 0
    ensures r.Ok? && r.value.slept > 0 ==> r.value.slept == reply.rateLimitReset.value - now
  {
    match reply
    case NoConnection => Err(ConnectionFailed)
    case Answer(body) =>
      if body.code.None? then Err(MissingCode)
      else if body.code.value == ExpiredCode then Ok(Lookup(false, false, None, 0))
      else Ok(Lookup(true, false, Some(body), 0))
    case HttpError(status, reset) =>
      if status == StatusNotFound then Ok(Lookup(false, false, None, 0))
      else if status == StatusTooManyRequests && reset.Some? then
        // math.ceil of an integer difference is the difference itself
        var timeToWait := reset.value - now;
        if timeToWait <= 0 then Ok(Lookup(false, true, None, 0))
        else Ok(Lookup(false, true, None, timeToWait))
      else Ok(Lookup(false, true, None, 0))
  }
}
