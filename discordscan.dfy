/**
 * discordscan.py, the earlier standalone scanner: it checks an invite code with its own
 * retrying `check_code`, walks redirectors with a budget of five hops, and settles a
 * submission with rules that differ from `handle_submission`'s.
 *
 * The scanner's `is_official_link` and the code extraction of its
 * `get_code_from_official_link` (one trailing `/` removed, then the last `/`-segment) agree
 * with `DiscordServers.IsOfficialLink` and `DiscordServers.GetCodeFromOfficialLink`, and its
 * `get_response_redirect` reads a response exactly as `Redirects.FindRedirect` does (Ok of a
 * URL for `(True, url)`, Ok(None) for `(False, None)`, an error for the lookups that raise),
 * so those are used here.  The network and the invite endpoint are functions of the try
 * number as well, so that a retry may see a different reply.
 */
module DiscordScan {
  import opened Common
  import opened Strings
  import opened Redirects
  import opened Discord
  import DiscordServers
  import Handling

  /** `max_redirects` of `check_redirect_link` as `should_delete_subm` calls it. */
  const ScanMaxRedirects: nat := 5

  /** The last try after which `check_code` stops retrying an HTTP error. */
  const LastRetriedTry: nat := 3

  /** `expo_backoff(tries)`: the seconds slept before the next try. */
  function BackoffSeconds(tries: nat): nat {
    60 * tries
  }

  /** The invite endpoint as `check_code` sees it: the reply to the given code on a given try. */
  type InviteApi = (string, nat) -> ApiReply

  /** The first element of `check_code`'s pair: a flag, or the whole pair of the retried call
    * (a non-empty tuple, which Python treats as true). */
  datatype Head = Flag(ok: bool) | Nested(inner: CodeCheck)

  /** `(codeCheck, serverData)`, with `False` as data written None. */
  datatype CodeCheck = CodeCheck(head: Head, serverData: Option<Invite>)

  /** `check_code`'s pair and the seconds it slept, in order. */
  datatype Probe = Probe(check: CodeCheck, slept: seq<nat>)

  /** Python's truth value of the first element. */
  predicate Truthy(h: Head) {
    h.Nested? || h.ok
  }

  /** `(False, False)` */
  function NotValid(): Probe {
    Probe(CodeCheck(Flag(false), None), [])
  }

  /** Where the scanner does not come to a verdict: a fetch still timing out when the tries
    * allowed run out, and the exceptions that escape: a fetch that fails otherwise, a response
    * whose redirect lookup raises, an endpoint failure other than an HTTP error, and a body
    * without `code` or `guild`. */
  datatype ScanFailure =
    | StillTimingOut(url: string)
    | FetchFailed(url: string, cause: Transport)
    | BadResponse(url: string, why: Malformation)
    | ApiUnreachable
    | NoInviteCode
    | NoGuild

  // ---------------------------------------------------------------- check_code

  /** `check_code(code, tries)`: the body on success, `(False, False)` on a 404, and on another
    * HTTP error a sleep and a nested retry up to the third try, `(True, False)` after it. */
  function CheckCode(api: InviteApi, code: string, tries: nat): Result<Probe, ScanFailure>
    decreases if tries <= LastRetriedTry then LastRetriedTry + 1 - tries else 0
  {
    match api(code, tries)
    case NoConnection => Err(ApiUnreachable)
    case Answer(body) => Ok(Probe(CodeCheck(Flag(true), Some(body)), []))
    case HttpError(status, _) =>
      if status == StatusNotFound then Ok(Probe(CodeCheck(Flag(false), None), []))
      else if tries <= LastRetriedTry then
        match CheckCode(api, code, tries + 1)
        case Err(f) => Err(f)
        case Ok(rest) => Ok(Probe(CodeCheck(Nested(rest.check), None), [BackoffSeconds(tries)] + rest.slept))
      else Ok(Probe(CodeCheck(Flag(true), None), []))
  }

  /** The first reply decides the flag and the data: the flag is false only for a 404 and data
    * comes only with a body; every HTTP error but a 404 on the first three tries sleeps
    * one minute per try so far before the next, so at most three sleeps happen. */
  lemma {:induction false} CheckCodeSpec(api: InviteApi, code: string, tries: nat)
    ensures var r := CheckCode(api, code, tries);
      r.Ok? ==>
        && (Truthy(r.value.check.head) <==> !(api(code, tries).HttpError? && api(code, tries).status == StatusNotFound))
        && (r.value.check.serverData.Some? <==> api(code, tries).Answer?)
        && (api(code, tries).Answer? ==> r.value.check.serverData == Some(api(code, tries).body))
        && (forall i :: 0 <= i < |r.value.slept| ==> r.value.slept[i] == BackoffSeconds(tries + i))
        && |r.value.slept| <= (if tries <= LastRetriedTry then LastRetriedTry + 1 - tries else 0)
        && (r.value.slept == [] <==>
              !(api(code, tries).HttpError? && api(code, tries).status != StatusNotFound && tries <= LastRetriedTry))
    ensures var r := CheckCode(api, code, tries);
      && ((api(code, tries).Answer?
           || (api(code, tries).HttpError? && (api(code, tries).status == StatusNotFound || tries > LastRetriedTry)))
          ==> r.Ok?)
      && (api(code, tries).NoConnection? ==> r == Err(ApiUnreachable))
    decreases if tries <= LastRetriedTry then LastRetriedTry + 1 - tries else 0
  {
    var reply := api(code, tries);
    if reply.HttpError? && reply.status != StatusNotFound && tries <= LastRetriedTry {
      CheckCodeSpec(api, code, tries + 1);
      var rest := CheckCode(api, code, tries + 1);
      if rest.Ok? {
        var slept := [BackoffSeconds(tries)] + rest.value.slept;
        forall i | 0 <= i < |slept| ensures slept[i] == BackoffSeconds(tries + i) {
          if i > 0 {
            assert slept[i] == rest.value.slept[i - 1];
          }
        }
      }
    }
  }

  /** A reply that is neither a body nor a 404 never makes the flag false, however the
    * retries go: `handle_subm` keeps such a submission. */
  lemma OtherErrorsReadAsValid(api: InviteApi, code: string, status: int, reset: Option<int>)
    requires api(code, 1) == HttpError(status, reset) && status != StatusNotFound
    ensures var r := CheckCode(api, code, 1);
      r.Ok? ==> Truthy(r.value.check.head) && r.value.check.serverData.None?
  {
    CheckCodeSpec(api, code, 1);
  }

  // ---------------------------------------------------------------- safe_requests_get

  /** The network as `safe_requests_get` sees it: the reply to a GET of a URL on a given try. */
  type ScanNetwork = (string, nat) -> Fetch

  /** What `safe_requests_get` returns, None when it is still retrying, and the seconds it
    * slept, in order. */
  datatype Got = Got(fetch: Option<Fetch>, slept: seq<nat>)

  /**
   * `safe_requests_get(link, tries)`, allowed `patience` more tries: a read timeout sleeps
   * `60 * tries` seconds and tries again; any other reply, a connection failure included, is
   * returned, since the builtin `ConnectionError` the function catches is not the one
   * `requests` raises.
   */
  function SafeGet(net: ScanNetwork, link: string, tries: nat, patience: nat): Got
    decreases patience
  {
    if patience == 0 then Got(None, [])
    else if net(link, tries) == Unreachable(ReadTimeout) then
      var rest := SafeGet(net, link, tries + 1, patience - 1);
      Got(rest.fetch, [BackoffSeconds(tries)] + rest.slept)
    else Got(Some(net(link, tries)), [])
  }

  /** Every try before the one returned timed out and was followed by a sleep of one minute
    * per try so far; the reply returned is the first that is not a read timeout, and nothing
    * is returned exactly when every try allowed timed out. */
  lemma {:induction false} SafeGetSpec(net: ScanNetwork, link: string, tries: nat, patience: nat)
    ensures var g := SafeGet(net, link, tries, patience);
      && |g.slept| <= patience
      && (forall i :: 0 <= i < |g.slept| ==>
            g.slept[i] == BackoffSeconds(tries + i) && net(link, tries + i) == Unreachable(ReadTimeout))
      && (g.fetch.None? <==> |g.slept| == patience)
      && (g.fetch.Some? ==>
            g.fetch.value == net(link, tries + |g.slept|) && g.fetch.value != Unreachable(ReadTimeout))
    decreases patience
  {
    if patience > 0 && net(link, tries) == Unreachable(ReadTimeout) {
      SafeGetSpec(net, link, tries + 1, patience - 1);
      var rest := SafeGet(net, link, tries + 1, patience - 1);
      var g := SafeGet(net, link, tries, patience);
      assert g.slept == [BackoffSeconds(tries)] + rest.slept;
      forall i | 0 <= i < |g.slept|
        ensures g.slept[i] == BackoffSeconds(tries + i) && net(link, tries + i) == Unreachable(ReadTimeout)
      {
        if i > 0 {
          assert g.slept[i] == rest.slept[i - 1];
        }
      }
    }
  }

  /** Read timeouts on `k` tries from `tries` on, within the patience, only delay the reply
    * of the try after them: it is returned after sleeps of one minute per try so far. */
  lemma {:induction false} TimeoutsThenReply(net: ScanNetwork, link: string, tries: nat, k: nat, patience: nat)
    requires k < patience
    requires forall i :: tries <= i < tries + k ==> net(link, i) == Unreachable(ReadTimeout)
    requires net(link, tries + k) != Unreachable(ReadTimeout)
    ensures var g := SafeGet(net, link, tries, patience);
      && g.fetch == Some(net(link, tries + k)) && |g.slept| == k
      && forall i :: 0 <= i < k ==> g.slept[i] == BackoffSeconds(tries + i)
    decreases k
  {
    if k > 0 {
      assert net(link, tries) == Unreachable(ReadTimeout);
      TimeoutsThenReply(net, link, tries + 1, k - 1, patience - 1);
      var rest := SafeGet(net, link, tries + 1, patience - 1);
      var g := SafeGet(net, link, tries, patience);
      assert g.slept == [BackoffSeconds(tries)] + rest.slept;
      forall i | 0 <= i < k ensures g.slept[i] == BackoffSeconds(tries + i) {
        if i > 0 {
          assert g.slept[i] == rest.slept[i - 1];
        }
      }
    }
  }

  /** What the walk's fetch of `url` finally gets. */
  function GotAt(net: ScanNetwork, patience: nat, url: string): Option<Fetch> {
    SafeGet(net, url, 1, patience).fetch
  }

  // ---------------------------------------------------------------- check_redirect_link

  /** Where the redirect walk of `check_redirect_link` ends. */
  datatype ChaseEnd = Official(url: string) | NoRedirect | OverBudget

  /** The end of the walk and the URLs fetched, in order. */
  datatype Chased = Chased(end: Result<ChaseEnd, ScanFailure>, fetched: seq<string>)

  /** What the fetch of one URL tells the walk: fail, end, or go on to a non-official target. */
  datatype ScanStep = Stuck(failure: ScanFailure) | Halt(end: ChaseEnd) | Onward(next: string)

  /** The fetch of `url`, `get_response_redirect` of the response, and `is_official_link` of
    * the target. */
  function ScanStepAt(net: ScanNetwork, patience: nat, url: string): (st: ScanStep)
    ensures st.Halt? ==> !st.end.OverBudget?
  {
    match GotAt(net, patience, url)
    case None => Stuck(StillTimingOut(url))
    case Some(Unreachable(cause)) => Stuck(FetchFailed(url, cause))
    case Some(Fetched(response)) =>
      match FindRedirect(response)
      case Err(why) => Stuck(BadResponse(url, why))
      case Ok(None) => Halt(NoRedirect)
      case Ok(Some(next)) => if DiscordServers.IsOfficialLink(next) then Halt(Official(next)) else Onward(next)
  }

  function ScanSteps(net: ScanNetwork, patience: nat): string -> ScanStep {
    u => ScanStepAt(net, patience, u)
  }

  /** The fetch of `url` finally gets a response, and `get_response_redirect` of it is `found`. */
  ghost predicate Reads(net: ScanNetwork, patience: nat, url: string, found: Option<string>) {
    && GotAt(net, patience, url).Some? && GotAt(net, patience, url).value.Fetched?
    && FindRedirect(GotAt(net, patience, url).value.response) == Ok(found)
  }

  /** The steps in terms of what the fetches get. */
  lemma ScanStepMeaning(net: ScanNetwork, patience: nat, url: string, next: string)
    ensures ScanStepAt(net, patience, url) == Onward(next) <==>
      Reads(net, patience, url, Some(next)) && !DiscordServers.IsOfficialLink(next)
    ensures ScanStepAt(net, patience, url) == Halt(Official(next)) <==>
      Reads(net, patience, url, Some(next)) && DiscordServers.IsOfficialLink(next)
    ensures ScanStepAt(net, patience, url) == Halt(NoRedirect) <==> Reads(net, patience, url, None)
    ensures ScanStepAt(net, patience, url) == Stuck(StillTimingOut(url)) <==> GotAt(net, patience, url).None?
    ensures ScanStepAt(net, patience, url).Stuck? && ScanStepAt(net, patience, url).failure.FetchFailed? ==>
      && ScanStepAt(net, patience, url).failure.url == url
      && GotAt(net, patience, url) == Some(Unreachable(ScanStepAt(net, patience, url).failure.cause))
  {
  }

  /** The walk from the fetch of `url`, `hops` non-official redirects taken so far. */
  function Chase(step: string -> ScanStep, url: string, hops: nat, maxRedirects: nat): Chased
    requires hops <= maxRedirects
    decreases maxRedirects - hops
  {
    match step(url)
    case Stuck(f) => Chased(Err(f), [url])
    case Halt(e) => Chased(Ok(e), [url])
    case Onward(next) =>
      if hops + 1 > maxRedirects then Chased(Ok(OverBudget), [url])
      else
        var rest := Chase(step, next, hops + 1, maxRedirects);
        Chased(rest.end, [url] + rest.fetched)
  }

  /**
   * The walk fetches the start and then each target the step before it went on to, at most
   * one more than the budget left; it ends where a step ends or fails, or at a step that
   * would go on once the budget is spent.
   */
  lemma {:induction false} ChaseTrace(step: string -> ScanStep, url: string, hops: nat, maxRedirects: nat)
    requires hops <= maxRedirects
    requires forall u {:trigger step(u)} :: step(u).Halt? ==> !step(u).end.OverBudget?
    ensures var c := Chase(step, url, hops, maxRedirects);
      && 1 <= |c.fetched| <= maxRedirects + 1 - hops && c.fetched[0] == url
      && (forall i :: 0 < i < |c.fetched| ==> step(c.fetched[i - 1]) == Onward(c.fetched[i]))
      && (c.end.Ok? && !c.end.value.OverBudget? ==> step(Last(c.fetched)) == Halt(c.end.value))
      && (c.end == Ok(OverBudget) ==> |c.fetched| == maxRedirects + 1 - hops && step(Last(c.fetched)).Onward?)
      && (c.end.Err? ==> step(Last(c.fetched)) == Stuck(c.end.error))
    decreases maxRedirects - hops
  {
    var c := Chase(step, url, hops, maxRedirects);
    if step(url).Onward? && hops + 1 <= maxRedirects {
      var next := step(url).next;
      ChaseTrace(step, next, hops + 1, maxRedirects);
      var rest := Chase(step, next, hops + 1, maxRedirects);
      assert c.fetched == [url] + rest.fetched;
      assert Last(c.fetched) == Last(rest.fetched);
      forall i | 0 < i < |c.fetched| ensures step(c.fetched[i - 1]) == Onward(c.fetched[i]) {
        if i > 1 {
          assert c.fetched[i - 1] == rest.fetched[i - 2] && c.fetched[i] == rest.fetched[i - 1];
        }
      }
    }
  }

  /** The walk of `check_redirect_link` from `link`: the start and then only non-official
    * targets, each named by the response before it; an official end is named by the last
    * response, an exhausted budget means `maxRedirects + 1` fetches whose last names yet another
    * non-official target, and a failed fetch is the last one. */
  lemma ChaseSpec(net: ScanNetwork, patience: nat, link: string, maxRedirects: nat)
    ensures var c := Chase(ScanSteps(net, patience), link, 0, maxRedirects);
      && 1 <= |c.fetched| <= maxRedirects + 1 && c.fetched[0] == link
      && (forall i :: 0 < i < |c.fetched| ==>
            Reads(net, patience, c.fetched[i - 1], Some(c.fetched[i])) && !DiscordServers.IsOfficialLink(c.fetched[i]))
      && (c.end.Ok? && c.end.value.Official? ==>
            Reads(net, patience, Last(c.fetched), Some(c.end.value.url)) && DiscordServers.IsOfficialLink(c.end.value.url))
      && (c.end == Ok(NoRedirect) ==> Reads(net, patience, Last(c.fetched), None))
      && (c.end == Ok(OverBudget) ==>
            && |c.fetched| == maxRedirects + 1
            && exists v :: Reads(net, patience, Last(c.fetched), Some(v)) && !DiscordServers.IsOfficialLink(v))
      && (c.end.Err? && c.end.error.FetchFailed? ==>
            c.end.error.url == Last(c.fetched) && GotAt(net, patience, Last(c.fetched)) == Some(Unreachable(c.end.error.cause)))
      && (c.end.Err? && c.end.error.StillTimingOut? ==>
            c.end.error.url == Last(c.fetched) && GotAt(net, patience, Last(c.fetched)).None?)
  {
    var step := ScanSteps(net, patience);
    forall u ensures step(u).Halt? ==> !step(u).end.OverBudget? {
      assert step(u) == ScanStepAt(net, patience, u);
    }
    ChaseTrace(step, link, 0, maxRedirects);
    var c := Chase(step, link, 0, maxRedirects);
    forall i | 0 < i < |c.fetched|
      ensures Reads(net, patience, c.fetched[i - 1], Some(c.fetched[i])) && !DiscordServers.IsOfficialLink(c.fetched[i])
    {
      ScanStepMeaning(net, patience, c.fetched[i - 1], c.fetched[i]);
    }
    var last := Last(c.fetched);
    assert step(last) == ScanStepAt(net, patience, last);
    if c.end.Ok? && c.end.value.Official? {
      ScanStepMeaning(net, patience, last, c.end.value.url);
    } else if c.end == Ok(NoRedirect) {
      ScanStepMeaning(net, patience, last, "");
    } else if c.end == Ok(OverBudget) {
      ScanStepMeaning(net, patience, last, step(last).next);
    } else if c.end.Err? {
      ScanStepMeaning(net, patience, last, "");
    }
  }

  /** `check_redirect_link`'s result for the end of the walk: `check_code` of the code of the
    * official URL reached, `(False, False)` otherwise. */
  function RedirectCheck(api: InviteApi, c: Chased): Result<Probe, ScanFailure> {
    match c.end
    case Err(f) => Err(f)
    case Ok(Official(u)) => CheckCode(api, DiscordServers.GetCodeFromOfficialLink(u), 1)
    case Ok(_) => Ok(NotValid())
  }

  /** `check_redirect_link(link, maxRedirects)`: fetch, then follow while the response names a
    * redirect, until an official URL or the end of the budget. */
  method CheckRedirectLink(net: ScanNetwork, patience: nat, api: InviteApi, link: string, maxRedirects: nat)
    returns (r: Result<Probe, ScanFailure>)
    ensures r == RedirectCheck(api, Chase(ScanSteps(net, patience), link, 0, maxRedirects))
  {
    var url := link;
    var numRedirects := 0;
    var fetch := SafeGet(net, url, 1, patience).fetch;
    if fetch.None? {
      return Err(StillTimingOut(url));
    }
    if fetch.value.Unreachable? {
      return Err(FetchFailed(url, fetch.value.cause));
    }
    var found := FindRedirect(fetch.value.response);
    if found.Err? {
      return Err(BadResponse(url, found.error));
    }
    while found.value.Some?
      invariant numRedirects <= maxRedirects
      invariant GotAt(net, patience, url).Some? && GotAt(net, patience, url).value.Fetched?
      invariant found.Ok? && found == FindRedirect(GotAt(net, patience, url).value.response)
      invariant RedirectCheck(api, Chase(ScanSteps(net, patience), link, 0, maxRedirects)) ==
        RedirectCheck(api, Chase(ScanSteps(net, patience), url, numRedirects, maxRedirects))
      decreases maxRedirects - numRedirects
    {
      var newUrl := found.value.value;
      if DiscordServers.IsOfficialLink(newUrl) {
        return CheckCode(api, DiscordServers.GetCodeFromOfficialLink(newUrl), 1);
      }
      numRedirects := numRedirects + 1;
      if numRedirects > maxRedirects {
        return Ok(NotValid());
      }
      url := newUrl;
      fetch := SafeGet(net, url, 1, patience).fetch;
      if fetch.None? {
        return Err(StillTimingOut(url));
      }
      if fetch.value.Unreachable? {
        return Err(FetchFailed(url, fetch.value.cause));
      }
      found := FindRedirect(fetch.value.response);
      if found.Err? {
        return Err(BadResponse(url, found.error));
      }
    }
    return Ok(NotValid());
  }

  // ---------------------------------------------------------------- handle_subm

  /** `is_whitelisted_redir` of the scanner: every discord.me URL, password pages included. */
  predicate IsWhitelistedRedir(url: string) {
    || StartsWith(url, "http://discord.plus")
    || StartsWith(url, "https://discord.plus")
    || StartsWith(url, "http://discord.me")
    || StartsWith(url, "https://discord.me")
    || StartsWith(url, "http://discord.st")
    || StartsWith(url, "https://discord.st")
  }

  /** `should_check_subm` */
  predicate ShouldCheckSubm(s: Handling.Submission) {
    !s.isSelf && s.bannedBy.None? && (DiscordServers.IsOfficialLink(s.url) || IsWhitelistedRedir(s.url))
  }

  /** The discord.me password pages, which `handle_submission` does not recognise, count as
    * redirectors here, so `should_check_subm` accepts them on a live link post. */
  lemma PasswordPageHttpChecked(rest: string)
    ensures IsWhitelistedRedir("http://discord.me/password/" + rest)
    ensures !DiscordServers.IsDiscordOrRedirectLink("http://discord.me/password/" + rest)
  {
    DiscordServers.PasswordPageHttp(rest);
    assert ("http://discord.me/password/" + rest)[..17] == "http://discord.me";
  }

  /** The same for the https password pages. */
  lemma PasswordPageHttpsChecked(rest: string)
    ensures IsWhitelistedRedir("https://discord.me/password/" + rest)
    ensures !DiscordServers.IsDiscordOrRedirectLink("https://discord.me/password/" + rest)
  {
    DiscordServers.PasswordPageHttps(rest);
    assert ("https://discord.me/password/" + rest)[..18] == "https://discord.me";
  }

  /** The URL `handle_subm` checks: a `/` appended unless it already ends with one. */
  function CheckedUrl(url: string): (r: string)
    ensures EndsWith(r, '/')
  {
    if EndsWith(url, '/') then url else url + "/"
  }

  /** A prefix that does not end in `/` is a prefix of `url` exactly when it is one of `url/`. */
  lemma PrefixOfSlashed(url: string, p: string)
    requires p != [] && p[|p| - 1] != '/'
    ensures StartsWith(url + "/", p) <==> StartsWith(url, p)
  {
    var u := url + "/";
    if |p| <= |url| {
      assert u[..|p|] == url[..|p|];
    } else if |p| == |u| {
      assert u[|u| - 1] == '/';
    }
  }

  /** The appended `/` changes neither the kind of link nor its code. */
  lemma CheckedUrlKeepsLink(url: string)
    ensures DiscordServers.IsOfficialLink(CheckedUrl(url)) <==> DiscordServers.IsOfficialLink(url)
    ensures DiscordServers.GetCodeFromOfficialLink(CheckedUrl(url)) == DiscordServers.GetCodeFromOfficialLink(url)
  {
    if !EndsWith(url, '/') {
      DiscordServers.CodeIgnoresTrailingSlash(url);
      PrefixOfSlashed(url, "http://discord.gg");
      PrefixOfSlashed(url, "https://discord.gg");
      PrefixOfSlashed(url, "http://discordapp.com");
      PrefixOfSlashed(url, "https://discordapp.com");
    }
  }

  /** `should_delete_subm`: `check_code` of the code of an official link, the redirect walk
    * otherwise. */
  function ShouldDelete(net: ScanNetwork, patience: nat, api: InviteApi, url: string): Result<Probe, ScanFailure> {
    if DiscordServers.IsOfficialLink(url) then CheckCode(api, DiscordServers.GetCodeFromOfficialLink(url), 1)
    else RedirectCheck(api, Chase(ScanSteps(net, patience), url, 0, ScanMaxRedirects))
  }

  method ShouldDeleteSubm(net: ScanNetwork, patience: nat, api: InviteApi, url: string) returns (r: Result<Probe, ScanFailure>)
    ensures r == ShouldDelete(net, patience, api, url)
  {
    if DiscordServers.IsOfficialLink(url) {
      return CheckCode(api, DiscordServers.GetCodeFromOfficialLink(url), 1);
    }
    r := CheckRedirectLink(net, patience, api, url, ScanMaxRedirects);
  }

  /** How `handle_subm` ends.  Both removals reply first; the blacklist removal sends modmail
    * instead. */
  datatype ScanVerdict =
    | Skipped
    | InvalidRemoved
    | ExpiredRemoved
    | Partner(flaired: bool)
    | BlacklistRemoved(guildId: string)
    | Kept
    | StillRetrying(url: string)
    | ScanCrashed(failure: ScanFailure)

  /** The rules after `should_delete_subm`: a false flag removes; no data keeps; the expiry
    * code removes; a VIP guild is flaired and is not looked up in the blacklist. */
  function Settle(s: Handling.Submission, blacklist: seq<string>, check: Result<Probe, ScanFailure>): (v: ScanVerdict)
    ensures v != Skipped
    ensures v.StillRetrying? <==> check.Err? && check.error.StillTimingOut?
    ensures v.StillRetrying? ==> v.url == check.error.url
  {
    match check
    case Err(StillTimingOut(url)) => StillRetrying(url)
    case Err(f) => ScanCrashed(f)
    case Ok(p) =>
      if !Truthy(p.check.head) then InvalidRemoved
      else match p.check.serverData
        case None => Kept
        case Some(invite) =>
          if invite.code.None? then ScanCrashed(NoInviteCode)
          else if invite.code.value == ExpiredCode then ExpiredRemoved
          else match invite.guild
            case None => ScanCrashed(NoGuild)
            case Some(guild) =>
              if Handling.VipFeature in guild.features then
                Partner(s.flairText != Some(Handling.PartnerFlairText) || s.flairCss != Some(Handling.PartnerFlairCss))
              else if guild.id in blacklist then BlacklistRemoved(guild.id)
              else Kept
  }

  /** `handle_subm(submission)` */
  function Scan(net: ScanNetwork, patience: nat, api: InviteApi, blacklist: seq<string>, s: Handling.Submission): ScanVerdict {
    if !ShouldCheckSubm(s) then Skipped
    else Settle(s, blacklist, ShouldDelete(net, patience, api, CheckedUrl(s.url)))
  }

  method HandleSubm(net: ScanNetwork, patience: nat, api: InviteApi, blacklist: seq<string>, s: Handling.Submission) returns (v: ScanVerdict)
    ensures v == Scan(net, patience, api, blacklist, s)
  {
    if !ShouldCheckSubm(s) {
      return Skipped;
    }
    var url := CheckedUrl(s.url);
    var check := ShouldDeleteSubm(net, patience, api, url);
    v := Settle(s, blacklist, check);
  }

  /** An official link is settled on `check_code` of its code, a redirector on the walk from
    * it with `/` appended. */
  lemma ScanRoutes(net: ScanNetwork, patience: nat, api: InviteApi, blacklist: seq<string>, s: Handling.Submission)
    requires ShouldCheckSubm(s)
    ensures DiscordServers.IsOfficialLink(s.url) ==>
      Scan(net, patience, api, blacklist, s) ==
        Settle(s, blacklist, CheckCode(api, DiscordServers.GetCodeFromOfficialLink(s.url), 1))
    ensures !DiscordServers.IsOfficialLink(s.url) ==>
      Scan(net, patience, api, blacklist, s) ==
        Settle(s, blacklist, RedirectCheck(api, Chase(ScanSteps(net, patience), CheckedUrl(s.url), 0, ScanMaxRedirects)))
  {
    CheckedUrlKeepsLink(s.url);
  }

  /** A redirector whose first fetch times out on every try allowed is still being retried:
    * `handle_subm` does not come to a verdict on it. */
  lemma TimedOutRedirectorRetries(net: ScanNetwork, patience: nat, api: InviteApi, blacklist: seq<string>, s: Handling.Submission)
    requires ShouldCheckSubm(s) && !DiscordServers.IsOfficialLink(s.url)
    requires forall i :: 1 <= i <= patience ==> net(CheckedUrl(s.url), i) == Unreachable(ReadTimeout)
    ensures Scan(net, patience, api, blacklist, s) == StillRetrying(CheckedUrl(s.url))
  {
    var url := CheckedUrl(s.url);
    SafeGetSpec(net, url, 1, patience);
    ScanRoutes(net, patience, api, blacklist, s);
  }

  /** A code whose first reply is an HTTP error other than 404 is kept, or the endpoint
    * failure of a retry escapes. */
  lemma ErrorsOtherThanNotFoundKeep(api: InviteApi, code: string, blacklist: seq<string>, s: Handling.Submission)
    requires api(code, 1).HttpError? && api(code, 1).status != StatusNotFound
    ensures Settle(s, blacklist, CheckCode(api, code, 1)) in {Kept, ScanCrashed(ApiUnreachable)}
  {
    CheckCodeSpec(api, code, 1);
  }

  /** A code is removed as invalid exactly when its first reply is a 404, and removed as
    * expired only on a body with the expiry code. */
  lemma RemovedCodes(api: InviteApi, code: string, blacklist: seq<string>, s: Handling.Submission)
    ensures Settle(s, blacklist, CheckCode(api, code, 1)) == InvalidRemoved <==>
      api(code, 1).HttpError? && api(code, 1).status == StatusNotFound
    ensures Settle(s, blacklist, CheckCode(api, code, 1)) == ExpiredRemoved <==>
      api(code, 1).Answer? && api(code, 1).body.code == Some(ExpiredCode)
  {
    CheckCodeSpec(api, code, 1);
  }

  /** A redirector is removed as invalid when its walk reaches no official URL, or reaches one
    * whose first reply is a 404. */
  lemma RedirectorInvalid(api: InviteApi, c: Chased, blacklist: seq<string>, s: Handling.Submission)
    ensures Settle(s, blacklist, RedirectCheck(api, c)) == InvalidRemoved <==>
      || c.end == Ok(NoRedirect) || c.end == Ok(OverBudget)
      || (&& c.end.Ok? && c.end.value.Official?
          && var reply := api(DiscordServers.GetCodeFromOfficialLink(c.end.value.url), 1);
             reply.HttpError? && reply.status == StatusNotFound)
  {
    if c.end.Ok? && c.end.value.Official? {
      RemovedCodes(api, DiscordServers.GetCodeFromOfficialLink(c.end.value.url), blacklist, s);
    }
  }

  /** The VIP branch precludes the blacklist: a guild with VIP features is flaired even when
    * blacklisted, and a blacklist removal names a blacklisted guild without them. */
  lemma VipPrecludesBlacklist(s: Handling.Submission, blacklist: seq<string>, check: Result<Probe, ScanFailure>)
    ensures var v := Settle(s, blacklist, check);
      v.BlacklistRemoved? ==>
        && check.Ok? && check.value.check.serverData.Some?
        && var invite := check.value.check.serverData.value;
        && invite.guild.Some? && invite.guild.value.id == v.guildId && v.guildId in blacklist
        && Handling.VipFeature !in invite.guild.value.features
    ensures check.Ok? && Truthy(check.value.check.head) && check.value.check.serverData.Some? ==>
      var invite := check.value.check.serverData.value;
      invite.code.Some? && invite.code.value != ExpiredCode && invite.guild.Some?
        && Handling.VipFeature in invite.guild.value.features
      ==> Settle(s, blacklist, check).Partner?
  {
  }
}
