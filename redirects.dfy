/**
 * Redirect resolution of redirects.py: classifying one response and following hops.
 *
 * The network is a function from URL to what a GET without automatic redirects yields:
 * a response (status, `Location` header, the attribute maps of the `<meta>` tags of the
 * body in document order) or a transport failure.
 */
module Redirects {
  import opened Common
  import opened Strings

  /** `redir_codes` */
  const RedirCodes: set<int> := {301, 302, 303, 307, 308}

  /** Default hop budget of `follow`. */
  const DefaultMaxRedirects: nat := 10

  type Meta = map<string, string>

  datatype Response = Response(status: int, location: Option<string>, metas: seq<Meta>)

  /** The three `requests` exceptions that `_follow` wraps into `RedirectError`. */
  datatype Transport = ConnectionFailure | ReadTimeout | OtherRequestError

  datatype Fetch = Fetched(response: Response) | Unreachable(cause: Transport)

  type Network = string -> Fetch

  /** Lookups in `find_redirect` that raise: `headers['Location']`, `attrs['content']`,
    * `content.split(';')[1]`. */
  datatype Malformation = NoLocationHeader | NoContentAttribute | NoSecondField

  /** A meta tag whose `property` or `http-equiv` attribute is `refresh`. */
  predicate IsRefresh(meta: Meta) {
    ("property" in meta && meta["property"] == "refresh")
    || ("http-equiv" in meta && meta["http-equiv"] == "refresh")
  }

  /** `content.split(';')[1][4:]` with one leading `=` removed. */
  function RefreshTarget(content: string): (r: Result<string, Malformation>)
    ensures r.Err? <==> ';' !in content
    ensures r.Ok? ==> ';' !in r.value
  {
    match SecondField(content, ';')
    case None => Err(NoSecondField)
    case Some(field) =>
      var url := if |field| <= 4 then "" else field[4..];
      Ok(if |url| > 0 && url[0] == '=' then url[1..] else url)
  }

  /** The target named by one qualifying meta tag. */
  function TagTarget(meta: Meta): Result<Option<string>, Malformation> {
    if "content" !in meta then Err(NoContentAttribute)
    else match RefreshTarget(meta["content"])
      case Err(e) => Err(e)
      case Ok(url) => Ok(Some(url))
  }

  /** `find_redirect(response)`: Ok(Some(url)) for a redirect, Ok(None) for none. */
  function FindRedirect(response: Response): (r: Result<Option<string>, Malformation>)
    ensures response.status in RedirCodes ==>
      r == (if response.location.Some? then Ok(Some(response.location.value)) else Err(NoLocationHeader))
    ensures response.status !in RedirCodes && (forall i :: 0 <= i < |response.metas| ==> !IsRefresh(response.metas[i]))
      ==> r == Ok(None)
    ensures forall i ::
      (response.status !in RedirCodes && 0 <= i < |response.metas| && IsRefresh(response.metas[i])
       && (forall j :: 0 <= j < i ==> !IsRefresh(response.metas[j])))
      ==> r == TagTarget(response.metas[i])
  {
    if response.status in RedirCodes then
      match response.location
      case None => Err(NoLocationHeader)
      case Some(url) => Ok(Some(url))
    else
      match FirstIndex(response.metas, IsRefresh)
      case None => Ok(None)
      case Some(i) => TagTarget(response.metas[i])
  }

  /** The target of `N;KKKKrest`, with one `=` leading `rest` dropped. */
  lemma RefreshTargetAfterKey(delay: string, key: string, rest: string)
    requires ';' !in delay && ';' !in key && ';' !in rest
    requires |key| == 4
    ensures RefreshTarget(delay + ";" + key + rest) == Ok(if |rest| > 0 && rest[0] == '=' then rest[1..] else rest)
  {
    assert ';' !in key + rest;
    SecondFieldOfJoin(delay, ';', key + rest);
    assert delay + ";" + key + rest == delay + [';'] + (key + rest);
    assert (key + rest)[4..] == rest;
  }

  /** Both the well-formed `N;url=X` and the malformed `N;url==X` give `X`. */
  lemma RefreshTargetTolerant(delay: string, key: string, x: string)
    requires ';' !in delay && ';' !in key && ';' !in x
    requires |key| == 4
    requires |x| == 0 || x[0] != '='
    ensures RefreshTarget(delay + ";" + key + x) == Ok(x)
    ensures RefreshTarget(delay + ";" + key + "=" + x) == Ok(x)
  {
    RefreshTargetAfterKey(delay, key, x);
    RefreshTargetAfterKey(delay, key, "=" + x);
    assert delay + ";" + key + "=" + x == delay + ";" + key + ("=" + x);
    assert ("=" + x)[1..] == x;
  }

  datatype FollowError =
    | TooManyRedirects
    | RedirectError(url: string, cause: Transport)
    | Malformed(url: string, why: Malformation)

  /** The outcome of following, with the URLs fetched, in order. */
  datatype Trace = Trace(outcome: Result<string, FollowError>, fetched: seq<string>)

  function Last(s: seq<string>): string
    requires s != []
  {
    s[|s| - 1]
  }

  /**
   * The hop the response at `url` names, when `_follow` would take it: a non-empty target
   * that the predicate accepts.
   */
  ghost predicate Hop(net: Network, pred: string -> bool, url: string, next: string) {
    net(url).Fetched? && FindRedirect(net(url).response) == Ok(Some(next)) && next != "" && pred(next)
  }

  /** The response at `url` names some hop `_follow` would take. */
  ghost predicate HopsOn(net: Network, pred: string -> bool, url: string) {
    && net(url).Fetched?
    && var r := FindRedirect(net(url).response);
      r.Ok? && r.value.Some? && Hop(net, pred, url, r.value.value)
  }

  /** The response at `url` names no redirect (None or the empty string). */
  ghost predicate Settles(net: Network, url: string) {
    net(url).Fetched? && (FindRedirect(net(url).response) == Ok(None) || FindRedirect(net(url).response) == Ok(Some("")))
  }

  /** `_follow` stops at `url` with result `final`: the response names no redirect and `final`
    * is `url`, or it names a non-empty target the predicate rejects, and `final` is that. */
  ghost predicate StopsAt(net: Network, pred: string -> bool, url: string, final: string) {
    || (Settles(net, url) && final == url)
    || (net(url).Fetched? && FindRedirect(net(url).response) == Ok(Some(final)) && final != "" && !pred(final))
  }

  /** What one fetch tells `_follow` to do: raise, return a URL, or recurse on a target. */
  datatype Step = Broken(error: FollowError) | Stop(final: string) | Next(target: string)

  /** The part of `_follow` between the budget test and the recursive call. */
  function StepAt(net: Network, pred: string -> bool, url: string): (s: Step)
    ensures s.Broken? ==> !s.error.TooManyRedirects? && s.error.url == url
    ensures s.Broken? && s.error.RedirectError? ==> net(url) == Unreachable(s.error.cause)
    ensures s.Broken? && s.error.Malformed? ==>
      net(url).Fetched? && FindRedirect(net(url).response) == Err(s.error.why)
    ensures s.Next? ==> s.target != "" && pred(s.target)
  {
    match net(url)
    case Unreachable(cause) => Broken(RedirectError(url, cause))
    case Fetched(response) =>
      match FindRedirect(response)
      case Err(why) => Broken(Malformed(url, why))
      case Ok(next) =>
        if next.None? || next.value == "" then Stop(url)
        else if !pred(next.value) then Stop(next.value)
        else Next(next.value)
  }

  /** The step taken at `url` in terms of the response: a hop exactly when the response names
    * an accepted target, a stop exactly when `StopsAt` holds. */
  lemma StepMeaning(net: Network, pred: string -> bool, url: string, other: string)
    ensures StepAt(net, pred, url) == Next(other) <==> Hop(net, pred, url, other)
    ensures StepAt(net, pred, url) == Stop(other) <==> StopsAt(net, pred, url, other)
  {
  }

  /** The step `_follow` takes at each URL, for one network and predicate. */
  function StepsOf(net: Network, pred: string -> bool): string -> Step {
    u => StepAt(net, pred, u)
  }

  /** No single fetch of `_follow` raises TooManyRedirects: only the budget test does. */
  lemma StepsNeverOverBudget(net: Network, pred: string -> bool)
    ensures forall u :: StepsOf(net, pred)(u) != Broken(TooManyRedirects)
  {
    forall u ensures StepsOf(net, pred)(u) != Broken(TooManyRedirects) {
      assert StepsOf(net, pred)(u) == StepAt(net, pred, u);
    }
  }

  /** `_follow(url, predicate, tries, max_redirects)`, with the fetch-and-classify part of its
    * body as `step`. */
  function FollowFrom(step: string -> Step, url: string, tries: nat, maxRedirects: nat): Trace
    decreases maxRedirects + 1 - tries
  {
    if tries > maxRedirects then Trace(Err(TooManyRedirects), [])
    else match step(url)
      case Broken(e) => Trace(Err(e), [url])
      case Stop(final) => Trace(Ok(final), [url])
      case Next(target) =>
        var rest := FollowFrom(step, target, tries + 1, maxRedirects);
        Trace(rest.outcome, [url] + rest.fetched)
  }

  /**
   * A run of `_follow`: it fetches at most the remaining budget of URLs, starting at `url`,
   * each one the target its predecessor's step named; it gives up with TooManyRedirects
   * exactly when the budget is spent, after a whole budget of fetches whose last step still
   * named a target, and otherwise ends with what the last URL's step says.
   */
  lemma {:induction false} FollowFromTrace(step: string -> Step, url: string, tries: nat, maxRedirects: nat)
    requires forall u :: step(u) != Broken(TooManyRedirects)
    ensures var t := FollowFrom(step, url, tries, maxRedirects);
      && |t.fetched| <= (if tries <= maxRedirects then maxRedirects - tries + 1 else 0)
      && (t.fetched == [] <==> tries > maxRedirects)
      && (t.fetched == [] ==> t.outcome == Err(TooManyRedirects))
      && (t.fetched != [] ==> t.fetched[0] == url)
      && (forall i :: 0 < i < |t.fetched| ==> step(t.fetched[i - 1]) == Next(t.fetched[i]))
      && (t.outcome.Ok? ==> t.fetched != [] && step(Last(t.fetched)) == Stop(t.outcome.value))
      && (t.fetched != [] && t.outcome.Err? && t.outcome.error != TooManyRedirects ==>
            step(Last(t.fetched)) == Broken(t.outcome.error))
      && (t.outcome == Err(TooManyRedirects) ==>
            && |t.fetched| == (if tries <= maxRedirects then maxRedirects - tries + 1 else 0)
            && (t.fetched != [] ==> step(Last(t.fetched)).Next?))
    decreases maxRedirects + 1 - tries
  {
    if tries <= maxRedirects && step(url).Next? {
      var next := step(url).target;
      var rest := FollowFrom(step, next, tries + 1, maxRedirects);
      FollowFromTrace(step, next, tries + 1, maxRedirects);
      var t := FollowFrom(step, url, tries, maxRedirects);
      assert t.fetched == [url] + rest.fetched;
      if rest.fetched != [] {
        assert Last(t.fetched) == Last(rest.fetched);
      }
      forall i | 0 < i < |t.fetched| ensures step(t.fetched[i - 1]) == Next(t.fetched[i]) {
        if i > 1 {
          assert t.fetched[i - 1] == rest.fetched[i - 2] && t.fetched[i] == rest.fetched[i - 1];
        }
      }
    }
  }

  /** `follow(url, predicate, max_redirects)` */
  function Follow(net: Network, pred: string -> bool, url: string, maxRedirects: nat): Trace {
    FollowFrom(StepsOf(net, pred), url, 1, maxRedirects)
  }

  /**
   * `follow` in terms of the responses: at most `max_redirects` fetches, starting at `url`,
   * each later URL an accepted non-empty hop from the one before; a returned URL is where the
   * last response says to stop; a transport failure names the last URL fetched and its cause,
   * a malformed response the last URL fetched and what `FindRedirect` found wrong with it;
   * TooManyRedirects comes after exactly `max_redirects` fetches, the last of which still
   * named an accepted hop.
   */
  lemma FollowSpec(net: Network, pred: string -> bool, url: string, maxRedirects: nat)
    ensures var t := Follow(net, pred, url, maxRedirects);
      && |t.fetched| <= maxRedirects
      && (maxRedirects == 0 <==> t.outcome == Err(TooManyRedirects) && t.fetched == [])
      && (t.fetched != [] ==> t.fetched[0] == url)
      && (forall i :: 0 < i < |t.fetched| ==> Hop(net, pred, t.fetched[i - 1], t.fetched[i]))
      && (t.outcome.Ok? ==> t.fetched != [] && StopsAt(net, pred, Last(t.fetched), t.outcome.value))
      && (t.outcome.Err? && t.outcome.error.RedirectError? ==>
            && t.fetched != [] && t.outcome.error.url == Last(t.fetched)
            && net(Last(t.fetched)) == Unreachable(t.outcome.error.cause))
      && (t.outcome.Err? && t.outcome.error.Malformed? ==>
            && t.fetched != [] && t.outcome.error.url == Last(t.fetched)
            && net(Last(t.fetched)).Fetched?
            && FindRedirect(net(Last(t.fetched)).response) == Err(t.outcome.error.why))
      && (t.outcome == Err(TooManyRedirects) ==>
            && |t.fetched| == maxRedirects
            && (t.fetched != [] ==> HopsOn(net, pred, Last(t.fetched))))
  {
    var t := Follow(net, pred, url, maxRedirects);
    var step := StepsOf(net, pred);
    StepsNeverOverBudget(net, pred);
    FollowFromTrace(step, url, 1, maxRedirects);
    forall i | 0 < i < |t.fetched| ensures Hop(net, pred, t.fetched[i - 1], t.fetched[i]) {
      assert step(t.fetched[i - 1]) == Next(t.fetched[i]);
      StepMeaning(net, pred, t.fetched[i - 1], t.fetched[i]);
    }
    if t.fetched != [] {
      var last := Last(t.fetched);
      assert step(last) == StepAt(net, pred, last);
      if t.outcome.Ok? {
        StepMeaning(net, pred, last, t.outcome.value);
      } else if t.outcome.error == TooManyRedirects {
        StepMeaning(net, pred, last, StepAt(net, pred, last).target);
      }
    }
  }

  /** A `RedirectError` of `follow` names the starting URL or a target the predicate accepted. */
  lemma FailureIsStartOrAccepted(net: Network, pred: string -> bool, url: string, maxRedirects: nat)
    ensures var t := Follow(net, pred, url, maxRedirects);
      t.outcome.Err? && t.outcome.error.RedirectError? ==>
        t.outcome.error.url == url || pred(t.outcome.error.url)
  {
    var t := Follow(net, pred, url, maxRedirects);
    var step := StepsOf(net, pred);
    StepsNeverOverBudget(net, pred);
    FollowFromTrace(step, url, 1, maxRedirects);
    if t.outcome.Err? && t.outcome.error.RedirectError? && |t.fetched| > 1 {
      var n := |t.fetched| - 1;
      assert step(t.fetched[n - 1]) == Next(t.fetched[n]);
      assert StepAt(net, pred, t.fetched[n - 1]).Next?;
    }
  }

  /** A chain of accepted hops, each URL redirecting to the next. */
  ghost predicate IsChain(net: Network, pred: string -> bool, path: seq<string>) {
    |path| > 0 && forall i :: 0 <= i < |path| - 1 ==> Hop(net, pred, path[i], path[i + 1])
  }

  /** A chain that settles within the budget is followed to its end, fetching exactly its URLs. */
  lemma {:induction false} ChainWithinBudget(net: Network, pred: string -> bool, path: seq<string>, tries: nat, maxRedirects: nat)
    requires IsChain(net, pred, path) && Settles(net, Last(path))
    requires tries + |path| - 1 <= maxRedirects
    ensures FollowFrom(StepsOf(net, pred), path[0], tries, maxRedirects) == Trace(Ok(Last(path)), path)
  {
    if |path| == 1 {
      StepMeaning(net, pred, path[0], path[0]);
    } else {
      assert Hop(net, pred, path[0], path[1]);
      StepMeaning(net, pred, path[0], path[1]);
      var tail := path[1..];
      assert IsChain(net, pred, tail) by {
        forall i | 0 <= i < |tail| - 1 ensures Hop(net, pred, tail[i], tail[i + 1]) {
          assert tail[i] == path[i + 1] && tail[i + 1] == path[i + 2];
        }
      }
      assert Last(tail) == Last(path);
      ChainWithinBudget(net, pred, tail, tries + 1, maxRedirects);
      assert [path[0]] + tail == path;
    }
  }

  /** A chain of accepted hops longer than the budget ends in TooManyRedirects after the
    * budget's worth of fetches. */
  lemma {:induction false} ChainOverBudget(net: Network, pred: string -> bool, path: seq<string>, tries: nat, maxRedirects: nat)
    requires IsChain(net, pred, path)
    requires tries + |path| - 1 > maxRedirects
    ensures var budget := if tries <= maxRedirects then maxRedirects - tries + 1 else 0;
      budget < |path| &&
      FollowFrom(StepsOf(net, pred), path[0], tries, maxRedirects) == Trace(Err(TooManyRedirects), path[..budget])
  {
    if tries <= maxRedirects {
      assert |path| > 1;
      assert Hop(net, pred, path[0], path[1]);
      StepMeaning(net, pred, path[0], path[1]);
      var tail := path[1..];
      assert IsChain(net, pred, tail) by {
        forall i | 0 <= i < |tail| - 1 ensures Hop(net, pred, tail[i], tail[i + 1]) {
          assert tail[i] == path[i + 1] && tail[i + 1] == path[i + 2];
        }
      }
      ChainOverBudget(net, pred, tail, tries + 1, maxRedirects);
      var budget := maxRedirects - tries + 1;
      assert [path[0]] + tail[..budget - 1] == path[..budget];
    }
  }

  /** A URL whose response redirects nowhere is returned unchanged, fetched once. */
  lemma FollowFixedPoint(net: Network, pred: string -> bool, url: string, maxRedirects: nat)
    requires Settles(net, url) && maxRedirects >= 1
    ensures Follow(net, pred, url, maxRedirects) == Trace(Ok(url), [url])
  {
    ChainWithinBudget(net, pred, [url], 1, maxRedirects);
  }

  /** A target the predicate rejects is returned without being fetched. */
  lemma RejectedTargetNotFetched(net: Network, pred: string -> bool, url: string, next: string, maxRedirects: nat)
    requires net(url).Fetched? && FindRedirect(net(url).response) == Ok(Some(next))
    requires next != "" && !pred(next) && maxRedirects >= 1
    ensures Follow(net, pred, url, maxRedirects) == Trace(Ok(next), [url])
  {
  }
}
