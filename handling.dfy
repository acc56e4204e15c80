/**
 * `handle_submission` of discordservers.py: the ordered rules that end in one verdict for a
 * reddit submission, and the store write that goes with it.
 *
 * The outside world enters as values: the whitelist and blacklist as fetched, what
 * `follow_redir_link` returns for the submission's URL, what `get_invite_from_code` returns
 * for its code, the saved permalinks whose double-post reply raises, and the clock reading.
 * `Decide` is the rule chain as a function of the tables, `Apply` the write it asks for, and
 * `HandleSubmission` runs the chain against a `Store`, proved to do exactly what `Decide` and
 * `Apply` say.
 */
module Handling {
  import opened Common
  import opened Strings
  import opened Discord
  import opened Database
  import opened DiscordServers

  /** `config.post_update_time_seconds` */
  const PostUpdateSeconds: int := 60 * 15

  /** `config.min_time_between_posts_seconds` */
  const MinTimeBetweenPosts: int := 60 * 60 * 24

  /** The one approver whose approval does not exempt a submission. */
  const AutoModerator: string := "AutoModerator"

  /** The guild feature that earns the partner flair, and the flair itself. */
  const VipFeature: string := "VIP_REGIONS"
  const PartnerFlairText: string := "Discord Partner"
  const PartnerFlairCss: string := "partner-post"

  /** The fields of a praw submission that the rules read. */
  datatype Submission = Submission(
    fullname: string, url: string, author: Option<string>, isSelf: bool,
    bannedBy: Option<string>, approvedBy: Option<string>, createdUtc: int, permalink: string,
    flairText: Option<string>, flairCss: Option<string>)

  datatype IgnoreReason =
    | SelfPost | AlreadyRemoved | ApprovedByModerator | WhitelistedAuthor | UnrecognisedLink
    | RecentlyChecked

  /** The exceptions that escape: `group` is None at line 216 (TypeError), the assertion on
    * the code at line 238, an invite without a guild at line 247 (KeyError), and the default
    * reply to a discord.me submission, which reads `config.response_message_botcheck`, an
    * attribute config.py does not define (line 151 of `reply_and_delete_submission`,
    * AttributeError). */
  datatype CrashCause = MissingGroup | EmptyCode | MissingGuild | MissingBotcheckMessage

  /** The test `reply_and_delete_submission` makes before its default reply: the submission
    * links to discord.me. */
  predicate IsDiscordMeLink(url: string) {
    StartsWith(url, "http://discord.me") || StartsWith(url, "https://discord.me")
  }

  /**
   * How a submission ends.  NotAnInvite, NoInvite and TooSoon reply to the submission and
   * remove it; Blacklisted and ChangedServer send modmail and remove it; DoublePost replies to
   * the later saved submission, removes it and forgets its record.
   */
  datatype Verdict =
    | Ignored(reason: IgnoreReason)
    | NotAnInvite
    | NoInvite(code: string)
    | Blacklisted(guildId: string)
    | TooSoon(oldPermalink: string, wait: int)
    | ChangedServer(oldGuildId: string, newGuildId: string)
    | DoublePost(savedSubmissionId: string, savedPermalink: string, wait: int)
    | Rechecked
    | Recorded
    | Crashed(cause: CrashCause)

  /** The write to the store that ends the handling. */
  datatype Effect =
    | NoWrite
    | TouchRow(id: nat)
    | DeleteRow(id: nat)
    | Record(guildName: string, guildId: string, fullname: string, permalink: string, postedAt: int)

  /** The verdict, whether redirects were followed, the code whose invite was looked up,
    * whether the partner flair was set, and the store write. */
  datatype Decision = Decision(verdict: Verdict, followed: bool, lookedUp: Option<string>, flaired: bool, effect: Effect)

  /** A submission seen before: its advert and that advert's group. */
  datatype Tracked = Tracked(advert: Advert, group: Group)

  // ---------------------------------------------------------------- the rule chain

  /** An ending that touched nothing outside. */
  function Quiet(v: Verdict): Decision {
    Decision(v, false, None, false, NoWrite)
  }

  /** The first five rules, none of which looks anything up. */
  function Screen(s: Submission, whitelist: seq<string>): Option<IgnoreReason> {
    if s.isSelf then Some(SelfPost)
    else if s.bannedBy.Some? then Some(AlreadyRemoved)
    else if s.approvedBy.Some? && s.approvedBy.value != AutoModerator then Some(ApprovedByModerator)
    else if s.author.Some? && s.author.value in whitelist then Some(WhitelistedAuthor)
    else if !IsDiscordOrRedirectLink(s.url) then Some(UnrecognisedLink)
    else None
  }

  /** An earlier advert of the group posted less than a day before `created`. */
  function TooSoonBefore(created: int): Advert -> bool {
    (a: Advert) => 0 < created - a.postedAt < MinTimeBetweenPosts
  }

  /** A saved advert posted less than a day after `created`, whose permalink names a
    * submission id, and whose reply does not raise. */
  function DoublePostAfter(created: int, replyFails: set<string>): Advert -> bool {
    (a: Advert) =>
      0 < a.postedAt - created < MinTimeBetweenPosts && CommentsId(a.permalink).Some?
      && a.permalink !in replyFails
  }

  function PermalinkIs(permalink: string): Advert -> bool {
    (a: Advert) => a.permalink == permalink
  }

  /** The partner flair is set for a VIP guild unless both its text and class are in place. */
  predicate NeedsFlair(s: Submission, guild: Guild) {
    VipFeature in guild.features
    && (s.flairText != Some(PartnerFlairText) || s.flairCss != Some(PartnerFlairCss))
  }

  /** A submission seen for the first time: too soon after an advert of the same guild, or
    * recorded. */
  function FirstSeen(t: Tables, s: Submission, guild: Guild): (r: (Verdict, Effect))
    ensures r.0.TooSoon? || r.0 == Recorded
    ensures r.0.TooSoon? ==> r.1 == NoWrite
    ensures r.0 == Recorded ==> r.1 == Record(guild.name, guild.id, s.fullname, s.permalink, s.createdUtc)
  {
    var record := Record(guild.name, guild.id, s.fullname, s.permalink, s.createdUtc);
    match FetchGroupByDgroupId(t, guild.id)
    case None => (Recorded, record)
    case Some(g) =>
      var earlier := FetchAdvertsByGroupId(t, g.id);
      match FirstIndex(earlier, TooSoonBefore(s.createdUtc))
      case Some(i) => (TooSoon(earlier[i].permalink, MinTimeBetweenPosts - (s.createdUtc - earlier[i].postedAt)), NoWrite)
      case None => (Recorded, record)
  }

  /** A submission seen before: its server changed, a later advert of the server is a double
    * post whose record is forgotten, or its own advert is touched. */
  function Recheck(t: Tables, s: Submission, tr: Tracked, guildId: string, replyFails: set<string>): (r: (Verdict, Effect))
    ensures r.0.ChangedServer? || r.0.DoublePost? || r.0 == Rechecked
    ensures r.0.ChangedServer? <==> guildId != tr.group.dgroupId
    ensures r.0.ChangedServer? ==> r.1 == NoWrite
    ensures r.0.DoublePost? ==> r.1.DeleteRow?
    ensures r.0 == Rechecked ==> r.1 == TouchRow(tr.advert.id)
  {
    if guildId != tr.group.dgroupId then (ChangedServer(tr.group.dgroupId, guildId), NoWrite)
    else
      var saved := FetchAdvertsByGroupId(t, tr.group.id);
      match FirstIndex(saved, DoublePostAfter(s.createdUtc, replyFails))
      case None => (Rechecked, TouchRow(tr.advert.id))
      case Some(i) => DoublePostOf(saved, i, s.createdUtc)
  }

  /** The double post found at `saved[i]`: the reply names its submission id, and the first
    * saved row with its permalink is deleted. */
  function DoublePostOf(saved: seq<Advert>, i: nat, created: int): (r: (Verdict, Effect))
    requires i < |saved| && CommentsId(saved[i].permalink).Some?
    ensures r.0.DoublePost? && r.1.DeleteRow?
  {
    var permalink := saved[i].permalink;
    var verdict := DoublePost(CommentsId(permalink).value, permalink, MinTimeBetweenPosts - (saved[i].postedAt - created));
    match FirstIndex(saved, PermalinkIs(permalink))
    case Some(j) => (verdict, DeleteRow(saved[j].id))
    case None => assert false; (verdict, NoWrite)
  }

  /** From the invite on: no invite, a guild-less invite, a blacklisted guild, or the flair
    * step followed by the duplicate checks. */
  function Judge(t: Tables, s: Submission, tracked: Option<Tracked>, blacklist: seq<string>,
                 invite: Option<Invite>, replyFails: set<string>, followed: bool, code: string): (d: Decision)
    ensures d.followed == followed && d.lookedUp == Some(code) && !d.verdict.Ignored?
    // no invite: the default reply, which raises for a discord.me submission
    ensures d.verdict.NoInvite? <==> invite.None? && !IsDiscordMeLink(s.url)
    ensures d.verdict.NoInvite? ==> d.verdict.code == code
    ensures d.verdict == Crashed(MissingBotcheckMessage) <==> invite.None? && IsDiscordMeLink(s.url)
    ensures d.verdict == Crashed(MissingGuild) <==> invite.Some? && invite.value.guild.None?
    ensures d.verdict.Crashed? ==> d.verdict.cause == MissingGuild || d.verdict.cause == MissingBotcheckMessage
    ensures !d.effect.NoWrite? || d.flaired ==>
      invite.Some? && invite.value.guild.Some? && invite.value.guild.value.id !in blacklist
    // only a recheck, a record or a double post writes, each its own kind of write
    ensures d.effect.NoWrite? <==> !(d.verdict == Rechecked || d.verdict == Recorded || d.verdict.DoublePost?)
    ensures d.verdict == Rechecked ==> tracked.Some? && d.effect == TouchRow(tracked.value.advert.id)
    ensures d.verdict == Recorded ==>
      && tracked.None? && invite.Some? && invite.value.guild.Some?
      && d.effect == Record(invite.value.guild.value.name, invite.value.guild.value.id, s.fullname, s.permalink, s.createdUtc)
    ensures d.verdict.DoublePost? ==> tracked.Some? && d.effect.DeleteRow?
    ensures d.verdict.TooSoon? || d.verdict == Recorded ==> tracked.None?
    ensures d.verdict.ChangedServer? || d.verdict.DoublePost? || d.verdict == Rechecked ==> tracked.Some?
    // the blacklist is decided before the flair step
    ensures d.verdict.Blacklisted? <==>
      invite.Some? && invite.value.guild.Some? && invite.value.guild.value.id in blacklist
    ensures d.flaired ==>
      && invite.Some? && invite.value.guild.Some? && invite.value.guild.value.id !in blacklist
      && NeedsFlair(s, invite.value.guild.value)
  {
    if invite.None? then
      if IsDiscordMeLink(s.url) then Decision(Crashed(MissingBotcheckMessage), followed, Some(code), false, NoWrite)
      else Decision(NoInvite(code), followed, Some(code), false, NoWrite)
    else if invite.value.guild.None? then Decision(Crashed(MissingGuild), followed, Some(code), false, NoWrite)
    else
      var guild := invite.value.guild.value;
      if guild.id in blacklist then Decision(Blacklisted(guild.id), followed, Some(code), false, NoWrite)
      else
        var (verdict, effect) := match tracked
          case None => FirstSeen(t, s, guild)
          case Some(tr) => Recheck(t, s, tr, guild.id, replyFails);
        Decision(verdict, followed, Some(code), NeedsFlair(s, guild), effect)
  }

  /** Resolving a redirector, extracting the code, then judging the invite. */
  function Resolve(t: Tables, s: Submission, tracked: Option<Tracked>, blacklist: seq<string>,
                   resolved: Option<string>, invite: Option<Invite>, replyFails: set<string>): (d: Decision)
    ensures d.followed == IsWhitelistedRedir(s.url) && !d.verdict.Ignored?
    ensures d.effect.NoWrite? <==> !(d.verdict == Rechecked || d.verdict == Recorded || d.verdict.DoublePost?)
    // a failed resolution gets the default reply, which raises for a discord.me submission
    ensures d.verdict == NotAnInvite <==>
      d.followed && (resolved.None? || !IsOfficialLink(resolved.value)) && !IsDiscordMeLink(s.url)
    ensures d.verdict == Crashed(MissingBotcheckMessage) <==>
      && IsDiscordMeLink(s.url)
      && (|| (d.followed && (resolved.None? || !IsOfficialLink(resolved.value)))
          || (CodeOf(s, resolved) != "" && invite.None?))
    ensures d.lookedUp.Some? ==> d.lookedUp.value != ""
    ensures d.verdict.Crashed? ==> d.verdict.cause != MissingGroup
    ensures d.verdict == Rechecked ==> d.effect.TouchRow?
    ensures d.verdict == Recorded ==> d.effect.Record?
    ensures d.verdict.DoublePost? ==> d.effect.DeleteRow?
    ensures !d.effect.NoWrite? || d.flaired ==>
      && (IsWhitelistedRedir(s.url) ==> resolved.Some? && IsOfficialLink(resolved.value))
      && CodeOf(s, resolved) != ""
      && invite.Some? && invite.value.guild.Some? && invite.value.guild.value.id !in blacklist
  {
    var followed := IsWhitelistedRedir(s.url);
    if followed && (resolved.None? || !IsOfficialLink(resolved.value)) then
      if IsDiscordMeLink(s.url) then Decision(Crashed(MissingBotcheckMessage), true, None, false, NoWrite)
      else Decision(NotAnInvite, true, None, false, NoWrite)
    else
      var code := GetCodeFromOfficialLink(if followed then resolved.value else s.url);
      if code == "" then Decision(Crashed(EmptyCode), followed, None, false, NoWrite)
      else Judge(t, s, tracked, blacklist, invite, replyFails, followed, code)
  }

  /** `handle_submission(subm)` on tables `t` at time `now`. */
  function Decide(t: Tables, s: Submission, whitelist: seq<string>, blacklist: seq<string>,
                  resolved: Option<string>, invite: Option<Invite>, replyFails: set<string>, now: int): Decision
  {
    match Screen(s, whitelist)
    case Some(reason) => Quiet(Ignored(reason))
    case None =>
      match FetchAdvertByFullname(t, s.fullname)
      case None => Resolve(t, s, None, blacklist, resolved, invite, replyFails)
      case Some(advert) =>
        match FetchGroupById(t, advert.groupId)
        case None => Quiet(Crashed(MissingGroup))
        case Some(group) =>
          if now - advert.updatedAt < PostUpdateSeconds then Quiet(Ignored(RecentlyChecked))
          else Resolve(t, s, Some(Tracked(advert, group)), blacklist, resolved, invite, replyFails)
  }

  /** The store write of a decision: `save_group` when the guild has no group yet, then
    * `save_advert` under that group. */
  function Apply(t: Tables, e: Effect, now: int): Tables {
    match e
    case NoWrite => t
    case TouchRow(id) => TouchAdvert(t, id, now)
    case DeleteRow(id) => DeleteAdvert(t, id)
    case Record(name, guildId, fullname, permalink, postedAt) =>
      var t1 := EnsureGroup(t, name, guildId, now);
      match FetchGroupByDgroupId(t1, guildId)
      case None => t1
      case Some(g) => AddAdvert(t1, fullname, permalink, g.id, postedAt, now).0
  }

  /** The group lookup, and the `save_group` when it finds nothing. */
  function EnsureGroup(t: Tables, name: string, guildId: string, now: int): Tables {
    if FetchGroupByDgroupId(t, guildId).Some? then t else AddGroup(t, name, guildId, now).0
  }

  // ---------------------------------------------------------------- properties of the rules

  /** The screening rules as one condition: a submission goes on to the lookups exactly when
    * it is a link post, not removed, approved by nobody but AutoModerator, not by a
    * whitelisted author, and to a discord or redirector URL. */
  lemma ScreenPasses(s: Submission, whitelist: seq<string>)
    ensures Screen(s, whitelist).None? <==>
      && !s.isSelf && s.bannedBy.None?
      && (s.approvedBy.None? || s.approvedBy == Some(AutoModerator))
      && (s.author.None? || s.author.value !in whitelist)
      && (IsOfficialLink(s.url) || IsWhitelistedRedir(s.url))
  {
  }

  /** Every ignored submission is left alone: no redirect followed, no invite looked up, no
    * flair and no store write.  Only a submission seen within 15 minutes is ignored after
    * the lookup of its advert. */
  lemma {:induction false} IgnoredIsInert(t: Tables, s: Submission, whitelist: seq<string>, blacklist: seq<string>,
                          resolved: Option<string>, invite: Option<Invite>, replyFails: set<string>, now: int)
    ensures var d := Decide(t, s, whitelist, blacklist, resolved, invite, replyFails, now);
      d.verdict.Ignored? ==> d == Quiet(d.verdict)
    ensures var d := Decide(t, s, whitelist, blacklist, resolved, invite, replyFails, now);
      d.verdict == Ignored(RecentlyChecked) <==>
        && Screen(s, whitelist).None?
        && FetchAdvertByFullname(t, s.fullname).Some?
        && FetchGroupById(t, FetchAdvertByFullname(t, s.fullname).value.groupId).Some?
        && now - FetchAdvertByFullname(t, s.fullname).value.updatedAt < PostUpdateSeconds
  {
  }

  /** A write happens only with a recheck (a touch), a record, or a double post (a delete):
    * every reject and every crash leaves the store as it was. */
  lemma WritesOnlyOnAcceptance(t: Tables, s: Submission, whitelist: seq<string>, blacklist: seq<string>,
                               resolved: Option<string>, invite: Option<Invite>, replyFails: set<string>, now: int)
    ensures var d := Decide(t, s, whitelist, blacklist, resolved, invite, replyFails, now);
      && (d.effect.NoWrite? <==> !(d.verdict == Rechecked || d.verdict == Recorded || d.verdict.DoublePost?))
      && (d.verdict == Rechecked ==> d.effect.TouchRow?)
      && (d.verdict == Recorded ==> d.effect.Record?)
      && (d.verdict.DoublePost? ==> d.effect.DeleteRow?)
  {
  }

  /** Where every advert's group exists, the lookup of a tracked submission's group never
    * fails. */
  lemma LinkedTablesFindTheGroup(t: Tables, s: Submission, whitelist: seq<string>, blacklist: seq<string>,
                                 resolved: Option<string>, invite: Option<Invite>, replyFails: set<string>, now: int)
    requires Linked(t)
    ensures Decide(t, s, whitelist, blacklist, resolved, invite, replyFails, now).verdict != Crashed(MissingGroup)
  {
    var advert := FetchAdvertByFullname(t, s.fullname);
    if Screen(s, whitelist).None? && advert.Some? {
      var g :| g in t.groups && g.id == advert.value.groupId;
    }
  }

  /** The invite code the rules extract: from the resolved URL for a redirector, from the
    * submission's URL otherwise. */
  function CodeOf(s: Submission, resolved: Option<string>): string
    requires !IsWhitelistedRedir(s.url) || resolved.Some?
  {
    GetCodeFromOfficialLink(if IsWhitelistedRedir(s.url) then resolved.value else s.url)
  }

  /** The submission passes every rule before the duplicate checks: screening, the 15-minute
    * window of a tracked post, the resolution of a redirector, a non-empty code, an invite
    * with a guild, and a guild that is not blacklisted. */
  ghost predicate ReachesDedup(t: Tables, s: Submission, whitelist: seq<string>, blacklist: seq<string>,
                               resolved: Option<string>, invite: Option<Invite>, now: int)
  {
    var advert := FetchAdvertByFullname(t, s.fullname);
    && Screen(s, whitelist).None?
    && (advert.Some? ==>
          FetchGroupById(t, advert.value.groupId).Some? && now - advert.value.updatedAt >= PostUpdateSeconds)
    && (IsWhitelistedRedir(s.url) ==> resolved.Some? && IsOfficialLink(resolved.value))
    && CodeOf(s, resolved) != ""
    && invite.Some? && invite.value.guild.Some? && invite.value.guild.value.id !in blacklist
  }

  /** A submission that reaches the duplicate checks gets the flair its guild calls for and
    * the outcome of the first-seen or the recheck rules. */
  lemma DedupDecides(t: Tables, s: Submission, whitelist: seq<string>, blacklist: seq<string>,
                     resolved: Option<string>, invite: Option<Invite>, replyFails: set<string>, now: int)
    requires ReachesDedup(t, s, whitelist, blacklist, resolved, invite, now)
    ensures var d := Decide(t, s, whitelist, blacklist, resolved, invite, replyFails, now);
      var guild := invite.value.guild.value;
      var advert := FetchAdvertByFullname(t, s.fullname);
      && d.flaired == NeedsFlair(s, guild)
      && d.lookedUp == Some(CodeOf(s, resolved))
      && (advert.None? ==> (d.verdict, d.effect) == FirstSeen(t, s, guild))
      && (advert.Some? ==>
            var group := FetchGroupById(t, advert.value.groupId).value;
            (d.verdict, d.effect) == Recheck(t, s, Tracked(advert.value, group), guild.id, replyFails))
  {
  }

  /** A submission stopped before the duplicate checks writes nothing and is not flaired. */
  lemma StoppedEarlyWritesNothing(t: Tables, s: Submission, whitelist: seq<string>, blacklist: seq<string>,
                                  resolved: Option<string>, invite: Option<Invite>, replyFails: set<string>, now: int)
    requires !ReachesDedup(t, s, whitelist, blacklist, resolved, invite, now)
    ensures var d := Decide(t, s, whitelist, blacklist, resolved, invite, replyFails, now);
      d.effect == NoWrite && !d.flaired
  {
  }

  /** Some advert of group `g` was posted less than a day before `created` exactly when the
    * search over the group's adverts finds one. */
  lemma TooSoonSearch(t: Tables, g: Group, created: int)
    ensures FirstIndex(FetchAdvertsByGroupId(t, g.id), TooSoonBefore(created)).Some? <==>
      exists a :: a in t.adverts && a.groupId == g.id && 0 < created - a.postedAt < MinTimeBetweenPosts
  {
    var earlier := FetchAdvertsByGroupId(t, g.id);
    var p := TooSoonBefore(created);
    if exists a :: a in t.adverts && a.groupId == g.id && 0 < created - a.postedAt < MinTimeBetweenPosts {
      var a :| a in t.adverts && a.groupId == g.id && 0 < created - a.postedAt < MinTimeBetweenPosts;
      assert a in earlier;
      var k :| 0 <= k < |earlier| && earlier[k] == a;
      assert p(earlier[k]);
    }
    var first := FirstIndex(earlier, p);
    if first.Some? {
      assert earlier[first.value] in earlier;
    }
  }

  /** The first-seen rule: rejected as too soon exactly when an advert of the guild's group was
    * posted less than a day before the submission was created. */
  lemma FirstSeenTooSoonExact(t: Tables, s: Submission, guild: Guild)
    requires WellFormed(t)
    ensures FirstSeen(t, s, guild).0.TooSoon? <==>
      exists g, a :: g in t.groups && g.dgroupId == guild.id && a in t.adverts && a.groupId == g.id
        && 0 < s.createdUtc - a.postedAt < MinTimeBetweenPosts
  {
    var found := FetchGroupByDgroupId(t, guild.id);
    if found.Some? {
      TooSoonSearch(t, found.value, s.createdUtc);
      forall g | g in t.groups && g.dgroupId == guild.id ensures g == found.value {
        GroupByDgroupIdExact(t, g);
      }
    }
  }

  /** A too-soon rejection reports what is left of the day, counted from an advert of the
    * guild's group. */
  lemma FirstSeenWait(t: Tables, s: Submission, guild: Guild)
    ensures var (v, e) := FirstSeen(t, s, guild);
      v.TooSoon? ==>
        && 0 < v.wait < MinTimeBetweenPosts
        && exists a :: a in t.adverts && a.groupId == FetchGroupByDgroupId(t, guild.id).value.id
             && a.permalink == v.oldPermalink && v.wait == MinTimeBetweenPosts - (s.createdUtc - a.postedAt)
  {
    var found := FetchGroupByDgroupId(t, guild.id);
    if found.Some? {
      var earlier := FetchAdvertsByGroupId(t, found.value.id);
      var first := FirstIndex(earlier, TooSoonBefore(s.createdUtc));
      if first.Some? {
        var a := earlier[first.value];
        assert a in earlier;
      }
    }
  }

  /** The double post reports the row found, its submission id and the time left, and deletes a
    * saved row with the same permalink. */
  lemma DoublePostOfRow(saved: seq<Advert>, i: nat, created: int)
    requires i < |saved| && CommentsId(saved[i].permalink).Some?
    ensures var (v, e) := DoublePostOf(saved, i, created);
      && v == DoublePost(CommentsId(saved[i].permalink).value, saved[i].permalink,
                         MinTimeBetweenPosts - (saved[i].postedAt - created))
      && exists b :: b in saved && b.permalink == saved[i].permalink && e == DeleteRow(b.id)
  {
    var j := FirstIndex(saved, PermalinkIs(saved[i].permalink)).value;
    assert saved[j] in saved;
  }

  /** The recheck rules: a double post names a later advert of the same group posted within a
    * day after the submission, the id in its permalink and the time left, and deletes an
    * advert of the group with that permalink; a plain recheck means no later advert of the
    * group qualified. */
  lemma {:induction false} RecheckExact(t: Tables, s: Submission, tr: Tracked, guildId: string, replyFails: set<string>)
    ensures var (v, e) := Recheck(t, s, tr, guildId, replyFails);
      v.DoublePost? ==>
        && 0 < v.wait < MinTimeBetweenPosts
        && (exists a :: a in t.adverts && a.groupId == tr.group.id && a.permalink == v.savedPermalink
             && 0 < a.postedAt - s.createdUtc < MinTimeBetweenPosts
             && v.wait == MinTimeBetweenPosts - (a.postedAt - s.createdUtc))
        && CommentsId(v.savedPermalink) == Some(v.savedSubmissionId) && v.savedPermalink !in replyFails
        && exists b :: b in t.adverts && b.groupId == tr.group.id && b.permalink == v.savedPermalink
             && e == DeleteRow(b.id)
    ensures var (v, e) := Recheck(t, s, tr, guildId, replyFails);
      v == Rechecked ==>
        forall a :: a in t.adverts && a.groupId == tr.group.id ==>
          !(0 < a.postedAt - s.createdUtc < MinTimeBetweenPosts && CommentsId(a.permalink).Some? && a.permalink !in replyFails)
  {
    if guildId == tr.group.dgroupId {
      var saved := FetchAdvertsByGroupId(t, tr.group.id);
      var p := DoublePostAfter(s.createdUtc, replyFails);
      var first := FirstIndex(saved, p);
      if first.Some? {
        var a := saved[first.value];
        assert a in saved && p(a);
        DoublePostOfRow(saved, first.value, s.createdUtc);
      } else {
        forall a | a in t.adverts && a.groupId == tr.group.id
          ensures !(0 < a.postedAt - s.createdUtc < MinTimeBetweenPosts && CommentsId(a.permalink).Some? && a.permalink !in replyFails)
        {
          assert a in saved;
          var k :| 0 <= k < |saved| && saved[k] == a;
          assert !p(saved[k]);
        }
      }
    }
  }

  // ---------------------------------------------------------------- properties of the writes

  /** The advert row that recording a first-seen submission adds under group `g`. */
  function NewAdvert(t: Tables, fullname: string, permalink: string, g: Group, postedAt: int, now: int): Advert {
    Advert(t.advertSeq + 1, fullname, permalink, g.id, now, now, postedAt)
  }

  /** After the group step the guild has a group, created only when it had none, and the
    * adverts are untouched. */
  lemma EnsureGroupSpec(t: Tables, name: string, guildId: string, now: int)
    requires WellFormed(t)
    ensures var t1 := EnsureGroup(t, name, guildId, now);
      && WellFormed(t1) && (Linked(t) ==> Linked(t1))
      && t1.adverts == t.adverts && t1.advertSeq == t.advertSeq
      && (FetchGroupByDgroupId(t, guildId).Some? ==> t1.groups == t.groups)
      && (FetchGroupByDgroupId(t, guildId).None? ==> t1.groups == t.groups + [Group(t.groupSeq + 1, name, guildId, now)])
      && FetchGroupByDgroupId(t1, guildId).Some?
  {
    if FetchGroupByDgroupId(t, guildId).None? {
      SaveGroupSpec(t, name, guildId, now);
      var t1 := EnsureGroup(t, name, guildId, now);
      if Linked(t) {
        forall a | a in t1.adverts ensures exists h :: h in t1.groups && h.id == a.groupId {
          var h :| h in t.groups && h.id == a.groupId;
          assert h in t1.groups;
        }
      }
    }
  }

  /** Saving the advert of a submission that has none: the one new row is the only advert for
    * that submission, and it points at a stored group. */
  lemma AddFreshAdvert(t: Tables, fullname: string, permalink: string, g: Group, postedAt: int, now: int)
    requires WellFormed(t) && g in t.groups && FetchAdvertByFullname(t, fullname).None?
    ensures var t' := AddAdvert(t, fullname, permalink, g.id, postedAt, now).0;
      && WellFormed(t') && (Linked(t) ==> Linked(t'))
      && t'.groups == t.groups
      && t'.adverts == t.adverts + [NewAdvert(t, fullname, permalink, g, postedAt, now)]
      && forall a :: a in t'.adverts && a.fullname == fullname <==> a == NewAdvert(t, fullname, permalink, g, postedAt, now)
  {
    SaveAdvertSpec(t, fullname, permalink, g.id, postedAt, now);
    var t' := AddAdvert(t, fullname, permalink, g.id, postedAt, now).0;
    var row := NewAdvert(t, fullname, permalink, g, postedAt, now);
    if Linked(t) {
      forall a | a in t'.adverts ensures exists h :: h in t'.groups && h.id == a.groupId {
        if a != row {
          assert a in t.adverts;
        }
      }
    }
  }

  /** `t'` is `t` with one advert added, under the stored group `g` of the guild, and that
    * advert is the only one for the submission. */
  ghost predicate RecordedUnder(t: Tables, t': Tables, g: Group, guildId: string, fullname: string, permalink: string, postedAt: int, now: int) {
    && g in t'.groups && g.dgroupId == guildId
    && t'.adverts == t.adverts + [NewAdvert(t, fullname, permalink, g, postedAt, now)]
    && forall a :: a in t'.adverts && a.fullname == fullname <==> a == NewAdvert(t, fullname, permalink, g, postedAt, now)
  }

  /** Recording a submission that has no advert yet: the guild's group is created only if it
    * is absent, and exactly one advert for the submission ends up stored, posted at the given
    * time and linked to that group. */
  lemma RecordSpec(t: Tables, name: string, guildId: string, fullname: string, permalink: string, postedAt: int, now: int)
    requires WellFormed(t) && FetchAdvertByFullname(t, fullname).None?
    ensures var t' := Apply(t, Record(name, guildId, fullname, permalink, postedAt), now);
      && WellFormed(t') && (Linked(t) ==> Linked(t'))
      && (FetchGroupByDgroupId(t, guildId).Some? ==> t'.groups == t.groups)
      && (FetchGroupByDgroupId(t, guildId).None? ==> t'.groups == t.groups + [Group(t.groupSeq + 1, name, guildId, now)])
      && exists g :: RecordedUnder(t, t', g, guildId, fullname, permalink, postedAt, now)
  {
    var t1 := EnsureGroup(t, name, guildId, now);
    EnsureGroupSpec(t, name, guildId, now);
    var g := FetchGroupByDgroupId(t1, guildId).value;
    AddFreshAdvert(t1, fullname, permalink, g, postedAt, now);
    var t' := AddAdvert(t1, fullname, permalink, g.id, postedAt, now).0;
    assert Apply(t, Record(name, guildId, fullname, permalink, postedAt), now) == t';
    var row := NewAdvert(t, fullname, permalink, g, postedAt, now);
    assert NewAdvert(t1, fullname, permalink, g, postedAt, now) == row;
    assert RecordedUnder(t, t', g, guildId, fullname, permalink, postedAt, now);
  }

  /** Every write keeps the keys unique, and keeps every advert's group stored. */
  lemma ApplyPreserves(t: Tables, e: Effect, now: int)
    requires WellFormed(t)
    ensures WellFormed(Apply(t, e, now))
    ensures Linked(t) ==> Linked(Apply(t, e, now))
  {
    match e
    case NoWrite =>
    case TouchRow(id) => TouchAdvertSpec(t, id, now);
    case DeleteRow(id) => DeleteAdvertSpec(t, id);
    case Record(name, guildId, fullname, permalink, postedAt) =>
      if FetchAdvertByFullname(t, fullname).None? {
        RecordSpec(t, name, guildId, fullname, permalink, postedAt, now);
      } else {
        var t1 := EnsureGroup(t, name, guildId, now);
        EnsureGroupSpec(t, name, guildId, now);
        var g := FetchGroupByDgroupId(t1, guildId).value;
        SaveAdvertSpec(t1, fullname, permalink, g.id, postedAt, now);
      }
  }
  /** A recorded submission ends up with exactly one advert, posted at its creation time, under
    * the group that carries its guild's id. */
  lemma RecordedOnce(t: Tables, s: Submission, whitelist: seq<string>, blacklist: seq<string>,
                     resolved: Option<string>, invite: Option<Invite>, replyFails: set<string>, now: int)
    requires WellFormed(t)
    ensures var d := Decide(t, s, whitelist, blacklist, resolved, invite, replyFails, now);
      d.verdict == Recorded ==>
        && invite.Some? && invite.value.guild.Some?
        && var t' := Apply(t, d.effect, now);
        && WellFormed(t')
        && exists g :: RecordedUnder(t, t', g, invite.value.guild.value.id, s.fullname, s.permalink, s.createdUtc, now)
  {
    var d := Decide(t, s, whitelist, blacklist, resolved, invite, replyFails, now);
    if d.verdict == Recorded {
      assert FetchAdvertByFullname(t, s.fullname).None?;
      var guild := invite.value.guild.value;
      RecordSpec(t, guild.name, guild.id, s.fullname, s.permalink, s.createdUtc, now);
    }
  }

  // ---------------------------------------------------------------- against the store

  /** The scans over fetched rows that stop at the first row that qualifies. */
  method FindFirst<T>(rows: seq<T>, p: T -> bool) returns (r: Option<nat>)
    ensures r == FirstIndex(rows, p)
  {
    for i := 0 to |rows|
      invariant forall j :: 0 <= j < i ==> !p(rows[j])
    {
      if p(rows[i]) {
        return Some(i);
      }
    }
    return None;
  }

  /** The branch for a submission without an advert: the too-soon scan over the earlier
    * adverts of the guild's group. */
  method FirstSeenRows(t: Tables, s: Submission, guild: Guild) returns (verdict: Verdict, effect: Effect)
    ensures verdict == FirstSeen(t, s, guild).0
    ensures effect == FirstSeen(t, s, guild).1
  {
    var group := FetchGroupByDgroupId(t, guild.id);
    if group.Some? {
      var earlier := FetchAdvertsByGroupId(t, group.value.id);
      var i := FindFirst(earlier, TooSoonBefore(s.createdUtc));
      if i.Some? {
        var previous := earlier[i.value];
        return TooSoon(previous.permalink, MinTimeBetweenPosts - (s.createdUtc - previous.postedAt)), NoWrite;
      }
    }
    return Recorded, Record(guild.name, guild.id, s.fullname, s.permalink, s.createdUtc);
  }

  /** The double-post ending, with the scan for the row to delete. */
  method DoublePostRows(saved: seq<Advert>, i: nat, created: int) returns (verdict: Verdict, effect: Effect)
    requires i < |saved| && CommentsId(saved[i].permalink).Some?
    ensures verdict == DoublePostOf(saved, i, created).0
    ensures effect == DoublePostOf(saved, i, created).1
  {
    var savedPermalink := saved[i].permalink;
    verdict := DoublePost(CommentsId(savedPermalink).value, savedPermalink,
                          MinTimeBetweenPosts - (saved[i].postedAt - created));
    assert PermalinkIs(savedPermalink)(saved[i]);
    var j := FindFirst(saved, PermalinkIs(savedPermalink));
    effect := DeleteRow(saved[j.value].id);
  }

  /** The branch for a submission seen before: the server check, the double-post scan over
    * the group's saved adverts and the scan for the row to delete. */
  method RecheckRows(t: Tables, s: Submission, tr: Tracked, guildId: string, replyFails: set<string>)
    returns (verdict: Verdict, effect: Effect)
    ensures verdict == Recheck(t, s, tr, guildId, replyFails).0
    ensures effect == Recheck(t, s, tr, guildId, replyFails).1
  {
    if guildId != tr.group.dgroupId {
      return ChangedServer(tr.group.dgroupId, guildId), NoWrite;
    }
    var saved := FetchAdvertsByGroupId(t, tr.group.id);
    var i := FindFirst(saved, DoublePostAfter(s.createdUtc, replyFails));
    if i.None? {
      return Rechecked, TouchRow(tr.advert.id);
    }
    verdict, effect := DoublePostRows(saved, i.value, s.createdUtc);
  }

  /** The write of a decision against the store: `touch_advert`, `delete_advert`, or
    * `save_group` when the guild has no group followed by `save_advert`. */
  method Commit(store: Store, effect: Effect, now: int)
    requires store.Valid()
    modifies store
    ensures store.Valid()
    ensures store.State() == Apply(old(store.State()), effect, now)
  {
    match effect
    case NoWrite =>
    case TouchRow(id) => store.Touch(id, now);
    case DeleteRow(id) => store.Delete(id);
    case Record(name, guildId, fullname, permalink, postedAt) =>
      ghost var t := store.State();
      var group := FetchGroupByDgroupId(store.State(), guildId);
      if group.None? {
        var _ := store.SaveGroup(name, guildId, now);
        group := FetchGroupByDgroupId(store.State(), guildId);
      }
      assert store.State() == EnsureGroup(t, name, guildId, now);
      EnsureGroupSpec(t, name, guildId, now);
      var _ := store.SaveAdvert(fullname, permalink, group.value.id, postedAt, now);
  }

  /**
   * `handle_submission(subm)`: the rules in their order, each ending returning at once, and
   * the store left as the decision's write makes it.
   */
  method HandleSubmission(store: Store, s: Submission, whitelist: seq<string>, blacklist: seq<string>,
                          resolved: Option<string>, invite: Option<Invite>, replyFails: set<string>, now: int)
    returns (d: Decision)
    requires store.Valid()
    modifies store
    ensures store.Valid()
    ensures d == Decide(old(store.State()), s, whitelist, blacklist, resolved, invite, replyFails, now)
    ensures store.State() == Apply(old(store.State()), d.effect, now)
  {
    var reason := Screen(s, whitelist);
    if reason.Some? {
      return Quiet(Ignored(reason.value));
    }
    var t := store.State();
    var advert := FetchAdvertByFullname(t, s.fullname);
    var tracked: Option<Tracked> := None;
    if advert.Some? {
      var group := FetchGroupById(t, advert.value.groupId);
      if group.None? {
        return Quiet(Crashed(MissingGroup));
      }
      if now - advert.value.updatedAt < PostUpdateSeconds {
        return Quiet(Ignored(RecentlyChecked));
      }
      tracked := Some(Tracked(advert.value, group.value));
    }
    var followed := IsWhitelistedRedir(s.url);
    var officialLink := s.url;
    if followed {
      if resolved.None? || !IsOfficialLink(resolved.value) {
        if IsDiscordMeLink(s.url) {
          return Decision(Crashed(MissingBotcheckMessage), true, None, false, NoWrite);
        }
        return Decision(NotAnInvite, true, None, false, NoWrite);
      }
      officialLink := resolved.value;
    }
    var code := GetCodeFromOfficialLink(officialLink);
    if code == "" {
      return Decision(Crashed(EmptyCode), followed, None, false, NoWrite);
    }
    if invite.None? {
      if IsDiscordMeLink(s.url) {
        return Decision(Crashed(MissingBotcheckMessage), followed, Some(code), false, NoWrite);
      }
      return Decision(NoInvite(code), followed, Some(code), false, NoWrite);
    }
    if invite.value.guild.None? {
      return Decision(Crashed(MissingGuild), followed, Some(code), false, NoWrite);
    }
    var guild := invite.value.guild.value;
    if guild.id in blacklist {
      return Decision(Blacklisted(guild.id), followed, Some(code), false, NoWrite);
    }
    var flaired := NeedsFlair(s, guild);
    var verdict, effect;
    if tracked.None? {
      verdict, effect := FirstSeenRows(t, s, guild);
    } else {
      verdict, effect := RecheckRows(t, s, tracked.value, guild.id, replyFails);
    }
    d := Decision(verdict, followed, Some(code), flaired, effect);
    Commit(store, effect, now);
  }
}
