/**
 * The link helpers and retry wrappers of discordservers.py: which URLs are discord invites or
 * whitelisted redirectors, the invite code of an official link, `make_printable`, the
 * submission id inside a reddit permalink, and the two operations that are retried until
 * they succeed (following a redirector, looking up an invite).
 */
module DiscordServers {
  import opened Common
  import opened Strings
  import opened Retry
  import opened Redirects
  import opened Discord

  // ---------------------------------------------------------------- link predicates

  /** `is_official_link`: a discord.gg or discordapp.com URL. */
  predicate IsOfficialLink(link: string) {
    || StartsWith(link, "http://discord.gg")
    || StartsWith(link, "https://discord.gg")
    || StartsWith(link, "http://discordapp.com")
    || StartsWith(link, "https://discordapp.com")
  }

  /** `is_whitelisted_redir`: discord.plus, discord.st, and discord.me except its password pages. */
  predicate IsWhitelistedRedir(link: string) {
    || StartsWith(link, "http://discord.plus")
    || StartsWith(link, "https://discord.plus")
    || (StartsWith(link, "http://discord.me") && !StartsWith(link, "http://discord.me/password/"))
    || (StartsWith(link, "https://discord.me") && !StartsWith(link, "https://discord.me/password/"))
    || StartsWith(link, "http://discord.st")
    || StartsWith(link, "https://discord.st")
  }

  /** `is_discord_or_discord_redirect_link` */
  predicate IsDiscordOrRedirectLink(link: string) {
    IsOfficialLink(link) || IsWhitelistedRedir(link)
  }

  /** A string with prefix `p` has `p`'s character at each position of `p`. */
  lemma CharOfPrefix(s: string, p: string, i: nat)
    requires StartsWith(s, p) && i < |p|
    ensures s[i] == p[i]
  {
    assert s[..|p|][i] == s[i];
  }

  /** A string that differs from `p` at a position of `p` does not start with `p`. */
  lemma NotPrefix(s: string, p: string, i: nat)
    requires i < |p| && (i >= |s| || s[i] != p[i])
    ensures !StartsWith(s, p)
  {
    if StartsWith(s, p) {
      CharOfPrefix(s, p, i);
    }
  }

  /** An official link, read at the positions where the prefixes differ: the scheme at 4, then
    * `discordapp` or `discord.gg` after the 14 (or 15) characters of `http[s]://discord`. */
  ghost predicate OfficialShape(link: string) {
    |link| >= 17 &&
    ((link[4] == ':' && (link[14] == 'a' || link[15] == 'g'))
     || (link[4] == 's' && (link[15] == 'a' || link[16] == 'g')))
  }

  /** A redirector at the same positions: `discord.` followed by `p`, `m` or `s`. */
  ghost predicate RedirectorShape(link: string) {
    |link| >= 17 &&
    ((link[4] == ':' && link[14] == '.' && link[15] in "pms")
     || (link[4] == 's' && link[15] == '.' && link[16] in "pms"))
  }

  lemma {:induction false} OfficialHasShape(link: string)
    requires IsOfficialLink(link)
    ensures OfficialShape(link)
  {
    if StartsWith(link, "http://discord.gg") {
      CharOfPrefix(link, "http://discord.gg", 4);
      CharOfPrefix(link, "http://discord.gg", 15);
    } else if StartsWith(link, "https://discord.gg") {
      CharOfPrefix(link, "https://discord.gg", 4);
      CharOfPrefix(link, "https://discord.gg", 16);
    } else if StartsWith(link, "http://discordapp.com") {
      CharOfPrefix(link, "http://discordapp.com", 4);
      CharOfPrefix(link, "http://discordapp.com", 14);
    } else {
      CharOfPrefix(link, "https://discordapp.com", 4);
      CharOfPrefix(link, "https://discordapp.com", 15);
    }
  }

  lemma {:induction false} RedirectorHasShape(link: string)
    requires IsWhitelistedRedir(link)
    ensures RedirectorShape(link)
  {
    var p: string;
    if StartsWith(link, "http://discord.plus") {
      p := "http://discord.plus";
    } else if StartsWith(link, "https://discord.plus") {
      p := "https://discord.plus";
    } else if StartsWith(link, "http://discord.me") {
      p := "http://discord.me";
    } else if StartsWith(link, "https://discord.me") {
      p := "https://discord.me";
    } else if StartsWith(link, "http://discord.st") {
      p := "http://discord.st";
    } else {
      p := "https://discord.st";
    }
    CharOfPrefix(link, p, 4);
    CharOfPrefix(link, p, 14);
    CharOfPrefix(link, p, 15);
    CharOfPrefix(link, p, 16);
  }

  /** No URL is both an official link and a whitelisted redirector. */
  lemma OfficialIsNotRedirector(link: string)
    ensures !(IsOfficialLink(link) && IsWhitelistedRedir(link))
  {
    if IsOfficialLink(link) && IsWhitelistedRedir(link) {
      OfficialHasShape(link);
      RedirectorHasShape(link);
    }
  }

  /** The plain-http password pages of discord.me are not recognised. */
  lemma PasswordPageHttp(rest: string)
    ensures !IsDiscordOrRedirectLink("http://discord.me/password/" + rest)
  {
    var a := "http://discord.me/password/" + rest;
    assert a[..27] == "http://discord.me/password/";
    if IsOfficialLink(a) {
      OfficialHasShape(a);
    }
    NotPrefix(a, "http://discord.plus", 15);
    NotPrefix(a, "https://discord.plus", 4);
    NotPrefix(a, "https://discord.me", 4);
    NotPrefix(a, "http://discord.st", 15);
    NotPrefix(a, "https://discord.st", 4);
  }

  /** The https password pages of discord.me are not recognised. */
  lemma PasswordPageHttps(rest: string)
    ensures !IsDiscordOrRedirectLink("https://discord.me/password/" + rest)
  {
    var b := "https://discord.me/password/" + rest;
    assert b[..28] == "https://discord.me/password/";
    if IsOfficialLink(b) {
      OfficialHasShape(b);
    }
    NotPrefix(b, "http://discord.plus", 4);
    NotPrefix(b, "https://discord.plus", 16);
    NotPrefix(b, "http://discord.me", 4);
    NotPrefix(b, "http://discord.st", 4);
    NotPrefix(b, "https://discord.st", 16);
  }

  /** The password pages of discord.me are not redirectors, so they are not recognised at all. */
  lemma PasswordPagesUnrecognised(rest: string)
    ensures !IsDiscordOrRedirectLink("http://discord.me/password/" + rest)
    ensures !IsDiscordOrRedirectLink("https://discord.me/password/" + rest)
  {
    PasswordPageHttp(rest);
    PasswordPageHttps(rest);
  }

  // ---------------------------------------------------------------- invite code

  /** `get_code_from_official_link`: the last path segment, ignoring one trailing `/`. */
  function GetCodeFromOfficialLink(link: string): (code: string)
    ensures '/' !in code
    ensures !EndsWith(link, '/') ==> code == LastSegment(link)
  {
    if EndsWith(link, '/') then LastSegment(link[..|link| - 1])
    else LastSegment(link)
  }

  /** A trailing `/` does not change the code, and the code is the text after the last `/`. */
  lemma CodeIgnoresTrailingSlash(x: string)
    requires !EndsWith(x, '/')
    ensures GetCodeFromOfficialLink(x + "/") == GetCodeFromOfficialLink(x)
    ensures var code := GetCodeFromOfficialLink(x);
      && |code| <= |x| && x[|x| - |code|..] == code
      && (|code| < |x| ==> x[|x| - |code| - 1] == '/')
  {
    assert (x + "/")[..|x|] == x;
  }

  // ---------------------------------------------------------------- make_printable

  /** The characters of Python's `string.printable`: ASCII space to `~`, and `\t` to `\r`. */
  predicate IsPrintable(c: char) {
    (' ' <= c <= '~') || ('\t' <= c <= '\r')
  }

  /** `make_printable`: the printable characters of `s`, in order. */
  function MakePrintable(s: string): (r: string)
    ensures forall c :: c in r <==> c in s && IsPrintable(c)
    ensures |r| <= |s|
  {
    Where(s, IsPrintable)
  }

  /** Filtering distributes over concatenation, so the result is a subsequence kept in order. */
  lemma {:induction false} MakePrintableAppend(a: string, b: string)
    ensures MakePrintable(a + b) == MakePrintable(a) + MakePrintable(b)
  {
    if a != [] {
      assert (a + b)[0] == a[0] && (a + b)[1..] == a[1..] + b;
      MakePrintableAppend(a[1..], b);
    } else {
      assert a + b == b;
    }
  }

  /** A printable string is left as it is. */
  lemma {:induction false} MakePrintableIdentity(s: string)
    requires forall i :: 0 <= i < |s| ==> IsPrintable(s[i])
    ensures MakePrintable(s) == s
  {
    if s != [] {
      MakePrintableIdentity(s[1..]);
    }
  }

  /** Filtering twice is filtering once. */
  lemma MakePrintableIdempotent(s: string)
    ensures MakePrintable(MakePrintable(s)) == MakePrintable(s)
  {
    var r := MakePrintable(s);
    forall i | 0 <= i < |r| ensures IsPrintable(r[i]) {
      assert r[i] in r;
    }
    MakePrintableIdentity(r);
  }

  // ---------------------------------------------------------------- submission id of a permalink

  /** The pattern's literal part, as matched ignoring ASCII case. */
  const CommentsMarker: string := "/comments/"

  predicate IsAlnum(c: char) {
    ('A' <= c <= 'Z') || ('a' <= c <= 'z') || ('0' <= c <= '9')
  }

  function LowerAscii(c: char): char {
    if 'A' <= c <= 'Z' then (c as int + 32) as char else c
  }

  /** The longest run of ASCII letters and digits at the start of `s`. */
  function AlnumRun(s: string): (r: string)
    ensures |r| <= |s| && r == s[..|r|]
    ensures forall i :: 0 <= i < |r| ==> IsAlnum(r[i])
    ensures |r| < |s| ==> !IsAlnum(s[|r|])
  {
    if s == [] || !IsAlnum(s[0]) then []
    else [s[0]] + AlnumRun(s[1..])
  }

  /** `s` with ASCII capitals lowered, for a case-insensitive comparison. */
  function LowerAll(s: string): (r: string)
    ensures |r| == |s| && forall i :: 0 <= i < |s| ==> r[i] == LowerAscii(s[i])
  {
    seq(|s|, i requires 0 <= i < |s| => LowerAscii(s[i]))
  }

  /** The id the pattern captures when its `/comments/` is matched at position `p`; None when
    * the pattern does not match there. */
  function IdAt(s: string, p: nat): (r: Option<string>)
    ensures r.Some? ==> p + |CommentsMarker| < |s| && |r.value| > 0
    ensures r.Some? ==> forall i :: 0 <= i < |r.value| ==> IsAlnum(r.value[i])
  {
    if p + |CommentsMarker| > |s| || LowerAll(s[p..p + |CommentsMarker|]) != CommentsMarker then None
    else
      var run := AlnumRun(s[p + |CommentsMarker|..]);
      var after := p + |CommentsMarker| + |run|;
      if |run| > 0 && after < |s| && s[after] == '/' then Some(run) else None
  }

  /**
   * `re.search('.*\/comments\/([A-Za-z0-9]+)\/.*', permalink, re.IGNORECASE).group(1)`, or None
   * when it does not match.  The greedy leading `.*` makes the last matching position win.
   */
  function CommentsId(s: string): (r: Option<string>)
    ensures r.Some? ==> |r.value| > 0 && forall i :: 0 <= i < |r.value| ==> IsAlnum(r.value[i])
  {
    LastSome(|s|, (p: nat) => IdAt(s, p))
  }

  /** The id is the capture at the last position where the pattern matches, and there is none
    * exactly when the pattern matches nowhere. */
  lemma CommentsIdIsLastMatch(s: string)
    ensures CommentsId(s).None? <==> forall p: nat :: IdAt(s, p).None?
    ensures CommentsId(s).Some? ==>
      exists p: nat :: IdAt(s, p) == CommentsId(s) && forall q: nat :: p < q ==> IdAt(s, q).None?
  {
    var f := (p: nat) => IdAt(s, p);
    var r := LastSome(|s|, f);
    assert r == CommentsId(s);
    if r.Some? {
      var k: nat :| k < |s| && f(k) == r && forall q: nat :: k < q < |s| ==> f(q).None?;
      assert IdAt(s, k) == r;
      forall q: nat | k < q ensures IdAt(s, q).None? {
        if q < |s| {
          assert f(q).None?;
        }
      }
    } else {
      forall p: nat ensures IdAt(s, p).None? {
        if p < |s| {
          assert f(p).None?;
        }
      }
    }
  }

  // ---------------------------------------------------------------- retried operations

  /** One call of the invite endpoint: its reply and the clock reading at that moment. */
  datatype InviteCall = InviteCall(reply: ApiReply, now: int)

  /** One attempt of `try_get_invite_from_code`: returns `(True, data)` on success,
    * `(not retry, None)` otherwise; an exception of the lookup is an exception of the attempt. */
  function InviteAttempt(call: InviteCall): (a: Attempt<Option<Invite>>)
    ensures a.Raised? <==> call.reply.NoConnection? || (call.reply.Answer? && call.reply.body.code.None?)
    ensures a.Succeeded? && a.value.Some? <==>
      call.reply.Answer? && call.reply.body.code.Some? && call.reply.body.code.value != ExpiredCode
    ensures a.Succeeded? && a.value.Some? ==> a.value.value == call.reply.body
    // an expired code or a 404 ends the retrying with no invite
    ensures a == Succeeded(None) <==>
      (call.reply.Answer? && call.reply.body.code == Some(ExpiredCode))
      || (call.reply.HttpError? && call.reply.status == StatusNotFound)
    ensures a.Failed? <==> call.reply.HttpError? && call.reply.status != StatusNotFound
  {
    match GetInviteFromCode(call.reply, call.now)
    case Err(_) => Raised
    case Ok(lookup) =>
      if lookup.succ then Succeeded(lookup.data)
      else if !lookup.retry then Succeeded(None)
      else Failed
  }

  /** `get_invite_from_code(code)` of discordservers.py, over the replies of successive calls. */
  method GetInvite(calls: seq<InviteCall>) returns (r: RetryOutcome<Option<Invite>>, tries: nat)
    ensures tries <= |calls| && !r.RetryError?
    ensures r.Returned? ==> 0 < tries && InviteAttempt(calls[tries - 1]) == Succeeded(r.value)
    ensures forall i :: 0 <= i < tries && (r.Returned? ==> i < tries - 1) ==>
      InviteAttempt(calls[i]).Failed? || InviteAttempt(calls[i]).Raised?
    ensures r.StillTrying? ==> tries == |calls|
    // a terminal "not found" on the first call ends it at once with no invite
    ensures |calls| > 0 && InviteAttempt(calls[0]) == Succeeded(None) ==> r == Returned(None) && tries == 1
  {
    var attempts := seq(|calls|, i requires 0 <= i < |calls| => InviteAttempt(calls[i]));
    var failures;
    r, tries, failures := UntilSuccess(attempts, None);
    forall i | 0 <= i < |calls| ensures attempts[i] == InviteAttempt(calls[i]) { }
  }

  /** Where `try_follow_redirect` resumes after an attempt: the URL of a `RedirectError`,
    * unless that is empty; any other outcome leaves `cur_url` as it was. */
  function ResumeFrom(cur: string, t: Trace): string {
    if t.outcome.Err? && t.outcome.error.RedirectError? && t.outcome.error.url != "" then t.outcome.error.url
    else cur
  }

  /** One attempt of `try_follow_redirect`, as a function of the network and `cur_url`. */
  type Attempter = (Network, string) -> Trace

  /** An attempt of `try_follow_redirect` with the given predicate: `follow` from `cur` on the
    * network as it is at that moment. */
  function FollowingWith(pred: string -> bool): Attempter {
    (net: Network, cur: string) => Follow(net, pred, cur, DefaultMaxRedirects)
  }

  /** The attempt of `follow_redir_link`, which accepts the whitelisted redirectors. */
  function FollowAttempt(): Attempter {
    FollowingWith(IsWhitelistedRedir)
  }

  /** `cur_url` before the attempt numbered `k` (from 0), starting from `link`; `worlds[i]` is
    * the network as attempt `i` sees it. */
  function CurAt(attempt: Attempter, link: string, worlds: seq<Network>, k: nat): string
    requires k <= |worlds|
  {
    if k == 0 then link
    else
      var before := CurAt(attempt, link, worlds, k - 1);
      ResumeFrom(before, attempt(worlds[k - 1], before))
  }

  /** Attempt `i` raised (any error of `follow`). */
  predicate AttemptFailed(attempt: Attempter, link: string, worlds: seq<Network>, i: nat)
    requires i < |worlds|
  {
    attempt(worlds[i], CurAt(attempt, link, worlds, i)).outcome.Err?
  }

  /** An attempt that always resumes from where it started or from a URL `pred` accepts. */
  ghost predicate ResumesWithin(attempt: Attempter, pred: string -> bool) {
    forall net: Network, cur: string {:trigger attempt(net, cur)} ::
      ResumeFrom(cur, attempt(net, cur)) == cur || pred(ResumeFrom(cur, attempt(net, cur)))
  }

  /** With such an attempt, every attempt resumes from the original link or a URL `pred`
    * accepts. */
  lemma {:induction false} ResumeIsLinkOrAccepted(attempt: Attempter, pred: string -> bool, link: string, worlds: seq<Network>, k: nat)
    requires ResumesWithin(attempt, pred)
    requires k <= |worlds|
    ensures var cur := CurAt(attempt, link, worlds, k);
      cur == link || pred(cur)
  {
    if k > 0 {
      ResumeIsLinkOrAccepted(attempt, pred, link, worlds, k - 1);
      var before := CurAt(attempt, link, worlds, k - 1);
      assert ResumeFrom(before, attempt(worlds[k - 1], before)) == CurAt(attempt, link, worlds, k);
    }
  }

  /** Every attempt of `follow_redir_link` resumes from the original link or from a whitelisted
    * redirector. */
  lemma ResumeIsLinkOrRedirector(link: string, worlds: seq<Network>, k: nat)
    requires k <= |worlds|
    ensures var cur := CurAt(FollowAttempt(), link, worlds, k);
      cur == link || IsWhitelistedRedir(cur)
  {
    assert ResumesWithin(FollowAttempt(), IsWhitelistedRedir) by {
      forall net: Network, cur: string
        ensures var r := ResumeFrom(cur, FollowAttempt()(net, cur)); r == cur || IsWhitelistedRedir(r)
      {
        FailureIsStartOrAccepted(net, IsWhitelistedRedir, cur, DefaultMaxRedirects);
      }
    }
    ResumeIsLinkOrAccepted(FollowAttempt(), IsWhitelistedRedir, link, worlds, k);
  }

  /**
   * The loop of `until_success` around an attempt that updates `cur_url`: no cap, so only a
   * successful attempt ends it before the networks run out.
   */
  method RetryFollowing(attempt: Attempter, link: string, worlds: seq<Network>) returns (r: RetryOutcome<string>, tries: nat)
    ensures tries <= |worlds| && !r.RetryError?
    ensures r.Returned? ==>
      0 < tries && attempt(worlds[tries - 1], CurAt(attempt, link, worlds, tries - 1)).outcome == Ok(r.value)
    ensures forall i :: 0 <= i < tries && (r.Returned? ==> i < tries - 1) ==> AttemptFailed(attempt, link, worlds, i)
    ensures r.StillTrying? ==> tries == |worlds|
  {
    tries := 0;
    var cur := link;
    while tries < |worlds|
      invariant tries <= |worlds|
      invariant cur == CurAt(attempt, link, worlds, tries)
      invariant forall i :: 0 <= i < tries ==> AttemptFailed(attempt, link, worlds, i)
    {
      var t := attempt(worlds[tries], cur);
      if t.outcome.Ok? {
        return Returned(t.outcome.value), tries + 1;
      }
      cur := ResumeFrom(cur, t);
      tries := tries + 1;
    }
    r := StillTrying;
  }

  /**
   * `follow_redir_link(link)`: follow redirects with the whitelisted redirectors as predicate,
   * retrying with no cap; `worlds[k]` is the network as the (k+1)-th attempt sees it.  Every
   * failure is retried, `TooManyRedirects` and malformed redirects included.
   */
  method FollowRedirLink(link: string, worlds: seq<Network>) returns (r: RetryOutcome<string>, tries: nat)
    ensures tries <= |worlds| && !r.RetryError?
    ensures r.Returned? ==>
      0 < tries && FollowAttempt()(worlds[tries - 1], CurAt(FollowAttempt(), link, worlds, tries - 1)).outcome == Ok(r.value)
    ensures forall i :: 0 <= i < tries && (r.Returned? ==> i < tries - 1) ==> AttemptFailed(FollowAttempt(), link, worlds, i)
    ensures r.StillTrying? ==> tries == |worlds|
  {
    r, tries := RetryFollowing(FollowAttempt(), link, worlds);
  }
}
