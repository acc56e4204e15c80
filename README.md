# RedditDSBot in Dafny

RedditDSBot moderates r/DiscordServers. It looks at every new link post and decides whether to keep the post.

- **Checks on the link.** The bot asks whether the post links to a Discord invite, either directly (discord.gg, discordapp.com) or through a whitelisted redirector (discord.plus, discord.me, discord.st). It then asks whether the invite is still live, and whether the server is blacklisted.
- **Timing rules.** The bot rejects a server advertised again within a day. It notices when a tracked post starts pointing at a different server. It notices when a later post of the same server makes an earlier one a double post.
- **Storage.** Adverts and their servers ("groups") are kept in a two-table sqlite store, pruned after a day.
- **The older scanner.** discordscan.py is an earlier standalone version of the pipeline, with its own rules.

This project models the bot's decision logic and proves what it does.
The outside world enters as values: the network, the invite endpoint, the clock, the list files, Reddit, and the failures of the calls the bot wraps in retries.

| module | file | models |
|---|---|---|
| `Common` | common.dfy | Option/Result, and the first-match, last-match and filter searches |
| `Strings` | strings.dfy | the `str` operations used: `startswith`, `split(c)[0]`, `split(c)[1]`, `rsplit('/', 1)[-1]`, `rstrip(c)` |
| `Retry` | retry.py | `backoff` and the `until_success` loop, over a script of attempt outcomes |
| `Redirects` | redirects.py | `find_redirect`, and `_follow`/`follow` over a network function |
| `Discord` | discord.py | `get_invite_from_code`: one endpoint reply classified into `(succ, retry, data)` |
| `Database` | database.py | the `groups`/`adverts` tables as a value `Tables`, every query and write as a function on it, and the class `Store` whose methods update the tables in place |
| `DiscordServers` | discordservers.py | the link predicates, code extraction, `make_printable`, the permalink regex, and the two retried lookups |
| `Handling` | discordservers.py | `handle_submission`: the rule chain `Decide`, the write `Apply`, and the method `HandleSubmission` over a `Store` |
| `StringLists` | stringlist.py | line-list parsing and the mtime-keyed cache of `StringList` |
| `Blacklist` | blacklist.py | the same cache kept in module globals, as the fields of one object |
| `DiscordScan` | discordscan.py | the older scanner: recursive `check_code`, the five-hop redirect walk, and `handle_subm` |

Timestamps are integers, and `now` is a parameter.
A Python exception that escapes `handle_submission` is a `Crashed` verdict. One that escapes `handle_subm` is a `ScanCrashed` verdict.
One such exception comes from the default reply of `reply_and_delete_submission`: for a post linking to discord.me it reads `config.response_message_botcheck`, which config.py does not define. So a discord.me post whose resolution fails, or whose code has no invite, ends as `Crashed(MissingBotcheckMessage)` instead of `NotAnInvite` or `NoInvite`, and is neither replied to nor removed.
The scanner's `safe_requests_get` retries a read timeout without limit. The model allows it a number of tries (`patience`); when every one of them times out, `handle_subm` ends as `StillRetrying`, meaning the scanner would still be sleeping and retrying.
Where a contract mentions a call to the outside world, that call is an input: the networks each retry sees, the replies of the invite endpoint on successive calls, the lines and mtime of a list file, and the set of saved permalinks whose double-post reply raises.

Where the written description of the bot and its code disagree, the model follows the code:

- `follow_redir_link` retries on every exception of `follow`. That includes `TooManyRedirects` and a malformed redirect, because `until_success` catches every `Exception`. A redirector that loops is therefore followed forever, not rejected.
- `check_code` in discordscan.py returns `(check_code(...), False)` after a retry. The first element is a tuple and is always truthy, so a server whose every reply is a 5xx error is treated as valid.

## Model

| member | source | states |
|---|---|---|
| `Retry.Backoff` | retry.py:9-24 | the sleep is `tries * 60` seconds below 30 tries and 1800 from then on, so never more than 1800 |
| `Retry.UntilSuccess` | retry.py:26-70 | returns the result of the first attempt with a truthy flag and makes no call after it; every earlier attempt failed or raised; the failure hook receives 1, 2, ... once per failed attempt, including after the last one before `RetryError`; `RetryError` is raised only when `max_attempts` calls were made; with no cap, only a success ends the loop |
| `Retry.NeverSucceeding` | retry.py:57-70 | for an operation that never succeeds: with a cap of N, exactly N calls and then `RetryError`, so none at all for N = 0; with no cap, the script of attempts is used up |
| `Redirects.RefreshTarget` | redirects.py:44-47 | fails exactly when `content` holds no `;`; a target never holds a `;` |
| `Redirects.RefreshTargetAfterKey` | redirects.py:45-47 | for `N;KKKKrest` the target is `rest`, with one leading `=` removed |
| `Redirects.RefreshTargetTolerant` | redirects.py:45-47 | `0;url=X` and `0;url==X` both give `X` |
| `Redirects.FindRedirect` | redirects.py:21-51 | a 301/302/303/307/308 status gives its `Location` header whatever the body, or fails without one; otherwise the first refresh meta tag in document order decides; with none, the result is None |
| `Redirects.StepAt` | redirects.py:58-72 | a failed fetch is a `RedirectError` naming the URL being fetched and its cause; a malformed response is a `Malformed` error naming the URL and what `find_redirect` found wrong; a hop goes only to a non-empty target the predicate accepts |
| `Redirects.StepMeaning` | redirects.py:58-74 | a step is a hop exactly when the response names an accepted non-empty target, and a stop exactly when the response names nothing (the URL is returned) or a rejected target (that target is returned) |
| `Redirects.StepsNeverOverBudget` | redirects.py:58-72 | no single fetch of `_follow` raises `TooManyRedirects`; only the budget test at its start does |
| `Redirects.FollowFromTrace` | redirects.py:54-74 | `_follow` fetches at most the budget left, starting at its URL, each URL the target of the one before; `TooManyRedirects` comes exactly when the budget is spent, after exactly the budget's worth of fetches, the last of which still named a target; otherwise the outcome is what the last step says |
| `Redirects.FollowSpec` | redirects.py:76-95 | `follow` fetches at most `max_redirects` URLs, starting at the given one, each later one an accepted hop; a returned URL is where the last response says to stop; a `RedirectError` names the last URL fetched and its cause; a `Malformed` error names the last URL fetched, whose response `find_redirect` rejects for the reason given; `TooManyRedirects` comes after exactly `max_redirects` fetches whose last response still names an accepted hop, so a budget of 0 raises it at once |
| `Redirects.FailureIsStartOrAccepted` | redirects.py:58-72 | a `RedirectError` names the start URL or a target the predicate accepted |
| `Redirects.ChainWithinBudget` | redirects.py:54-74 | a chain of accepted hops ending in a page with no redirect, and within the budget, is followed to its end, fetching exactly its URLs |
| `Redirects.ChainOverBudget` | redirects.py:55-56 | an accepted chain longer than the budget ends in `TooManyRedirects` after exactly a budget's worth of fetches |
| `Redirects.FollowFixedPoint` | redirects.py:68-74 | a URL whose response names no redirect is returned unchanged after one fetch |
| `Redirects.RejectedTargetNotFetched` | redirects.py:69-71 | a target the predicate rejects is returned without being fetched |
| `Discord.GetInviteFromCode` | discord.py:22-87 | `succ` and `retry` are never both true, and data comes exactly with `succ`; a body with code `10006` or a 404 gives `(False, False, None)`; another body gives `(True, False, body)`; every other HTTP error gives a retry; the function sleeps only on a 429 carrying the header with a reset in the future, for exactly `reset - now` seconds; a lost connection or a body without `code` raises |
| `Database.FetchGroupByDgroupId` | database.py:59-75 | the row found carries the discord id, and None means no row does |
| `Database.FetchGroupById` | database.py:77-93 | the row found carries the id, and None means no row does |
| `Database.FetchAdvertByFullname` | database.py:108-125 | the row found carries the fullname, and None means no row does |
| `Database.FetchAdvertsByGroupId` | database.py:127-143 | all and only the adverts of the group |
| `Database.GroupByDgroupIdExact` | database.py:51 | with unique discord ids, the lookup returns the stored group |
| `Database.GroupByIdExact` | database.py:49 | with unique ids, the lookup returns the stored group |
| `Database.AdvertByFullnameExact` | database.py:55 | with unique fullnames, the lookup returns the stored advert |
| `Database.LookupsAreExact` | database.py:59-125 | on well-formed tables, each lookup by key finds the stored row |
| `Database.TouchRows` | database.py:169 | only `updated_at` of the rows with the id changes |
| `Database.SaveGroupSpec` | database.py:95-106 | `save_group` adds exactly one row with `created_at = now` and an id above every id used, which the lookup then finds; an existing discord id is refused with no change; the keys stay unique |
| `Database.SaveAdvertSpec` | database.py:145-159 | `save_advert` adds exactly one row with `found_at = updated_at = now`, the given `posted_at` and a fresh id; a duplicate fullname is refused with no change |
| `Database.TouchAdvertSpec` | database.py:161-171 | `touch_advert` changes `updated_at` of the row with that id, and no other field or row |
| `Database.DeleteAdvertSpec` | database.py:173-183 | `delete_advert` removes exactly the row with that id; the groups and both AUTOINCREMENT counters are untouched |
| `Database.PruneSpec` | database.py:185-195 | `prune` keeps exactly the adverts with `posted_at >= now - 86400`, so one exactly a day old stays; it then keeps exactly the groups a surviving advert refers to; the keys stay unique, every advert's group stays stored, and both AUTOINCREMENT counters are unchanged |
| `Database.IdsNeverReused` | database.py:49-52 | AUTOINCREMENT ids are never reused: a group saved after a prune, or an advert saved after a delete, gets an id no earlier row had, the removed rows included |
| `Database.Store.constructor` | database.py:45-57 | a new database has both tables empty |
| `Database.Store.SaveGroup` | database.py:95-106 | the store's tables become `AddGroup` of the old ones |
| `Database.Store.SaveAdvert` | database.py:145-159 | the store's tables become `AddAdvert` of the old ones |
| `Database.Store.Touch` | database.py:161-171 | the store's tables become `TouchAdvert` of the old ones |
| `Database.Store.Delete` | database.py:173-183 | the store's tables become `DeleteAdvert` of the old ones |
| `Database.Store.PruneTables` | database.py:185-195 | the store's tables become `Prune` of the old ones |
| `DiscordServers.OfficialIsNotRedirector` | discordservers.py:24-72 | no URL is both an official link and a whitelisted redirector |
| `DiscordServers.PasswordPagesUnrecognised` | discordservers.py:66-85 | `discord.me/password/` URLs, over http and https, are neither official links nor redirectors |
| `DiscordServers.GetCodeFromOfficialLink` | discordservers.py:41-54 | the code holds no `/`; for a link without a trailing `/` it is the text after the last `/` |
| `DiscordServers.CodeIgnoresTrailingSlash` | discordservers.py:51-54 | `X + "/"` and `X` give the same code when `X` does not end in `/` |
| `DiscordServers.MakePrintable` | discordservers.py:166-175 | keeps exactly the characters of `string.printable`, and is never longer than its input |
| `DiscordServers.MakePrintableAppend` | discordservers.py:175 | filtering a concatenation filters each part, so the order of characters is kept |
| `DiscordServers.MakePrintableIdentity` | discordservers.py:175 | a printable string is unchanged |
| `DiscordServers.MakePrintableIdempotent` | discordservers.py:175 | filtering twice is filtering once |
| `DiscordServers.CommentsId` | discordservers.py:326-329 | a captured id is non-empty and ASCII letters and digits only |
| `DiscordServers.CommentsIdIsLastMatch` | discordservers.py:326-329 | the id is the capture at the last position where `/comments/<id>/` matches, case-insensitively, and there is none exactly when the pattern matches nowhere |
| `DiscordServers.InviteAttempt` | discordservers.py:126-133 | an attempt succeeds with the invite exactly on a body with a live code; it succeeds with None on an expired code or a 404; it fails on any other HTTP error; it raises on a lost connection or a body without `code` |
| `DiscordServers.GetInvite` | discordservers.py:114-135 | returns the first attempt that succeeds, every earlier one having failed or raised; a first reply of "not found" ends it at once with None; it never raises `RetryError` |
| `DiscordServers.ResumeIsLinkOrRedirector` | discordservers.py:99-108 | every attempt of `follow_redir_link` starts from the original link or from a whitelisted redirector reached on the way |
| `DiscordServers.RetryFollowing` | discordservers.py:99-112 | the loop resumes each attempt from the URL of the last `RedirectError`; it returns what the first successful `follow` returns, every earlier attempt having raised; it never raises `RetryError` |
| `DiscordServers.FollowRedirLink` | discordservers.py:87-112 | `follow_redir_link` is that loop around `follow` with `is_whitelisted_redir` as the predicate and a budget of 10 |
| `Handling.FirstSeen` | discordservers.py:279-294 | a first-seen post ends too soon, with no write, or is recorded with its guild, fullname, permalink and `created_utc` |
| `Handling.Recheck` | discordservers.py:296-347 | a tracked post whose guild changed ends with no write; a double post deletes a row; a plain recheck touches the post's own advert |
| `Handling.DoublePostOf` | discordservers.py:324-341 | a double post deletes a row |
| `Handling.Judge` | discordservers.py:240-357 | a missing invite is `NoInvite` of the code exactly for a post not linking to discord.me, and the botcheck crash of the default reply (lines 149-153) exactly for one that does; a guild-less invite crashes; the blacklist is decided exactly by the guild's id, before the flair step; a flair or a write needs an invite with a non-blacklisted guild; each kind of verdict goes with its own write |
| `Handling.Resolve` | discordservers.py:224-357 | redirects are followed exactly for a whitelisted redirector; the verdict is `NotAnInvite` exactly when that resolution is missing or not official and the post does not link to discord.me; the botcheck crash of the default reply (lines 149-153) comes exactly for a discord.me post whose resolution fails or whose code has no invite; a looked-up code is never empty |
| `Handling.ScreenPasses` | discordservers.py:190-209 | a submission passes the screening exactly when it is a link post, not removed, approved by nobody but AutoModerator, not by a whitelisted author, and to a discord or redirector URL |
| `Handling.IgnoredIsInert` | discordservers.py:190-219 | an ignored submission follows no redirect, looks up no invite, gets no flair and writes nothing; after the advert lookup, only a post touched less than 900 s ago is ignored |
| `Handling.WritesOnlyOnAcceptance` | discordservers.py:230-357 | only a recheck (a touch), a record or a double post (a delete) writes; every reject and every crash leaves the store as it was |
| `Handling.LinkedTablesFindTheGroup` | discordservers.py:211-216 | when every advert's group is stored, the group lookup of a tracked post never fails |
| `Handling.DedupDecides` | discordservers.py:266-357 | a submission that passes every earlier rule gets the flair its guild calls for, and the outcome of the first-seen or the recheck rules |
| `Handling.StoppedEarlyWritesNothing` | discordservers.py:190-264 | a submission stopped before the duplicate checks writes nothing and gets no flair |
| `Handling.TooSoonSearch` | discordservers.py:282-287 | the search over the group's adverts finds one exactly when some advert of the group was posted less than a day before |
| `Handling.FirstSeenTooSoonExact` | discordservers.py:279-294 | a first-seen post is rejected as too soon exactly when an advert of its guild's group has `0 < created_utc - posted_at < 86400` |
| `Handling.FirstSeenWait` | discordservers.py:286-293 | the reported wait is `86400 - (created_utc - posted_at)` for an advert of the guild's group, with that advert's permalink, and lies strictly between 0 and a day |
| `Handling.DoublePostOfRow` | discordservers.py:321-341 | a double post reports the submission id in the saved permalink, the permalink itself and the time left, and deletes a saved row with that permalink |
| `Handling.RecheckExact` | discordservers.py:319-347 | a double post names a same-group advert with `0 < posted_at - created_utc < 86400`, a permalink that carries an id and whose reply did not fail, and deletes a same-group row with that permalink; a plain recheck means that no same-group advert qualified |
| `Handling.EnsureGroupSpec` | discordservers.py:351-354 | the guild's group is created only when it is absent, and is found afterwards; the adverts are untouched |
| `Handling.AddFreshAdvert` | discordservers.py:357 | saving the advert of a post that has none adds exactly one row, the only one for that fullname, under a stored group |
| `Handling.RecordSpec` | discordservers.py:349-357 | recording a post creates the guild's group only if it is absent; it ends with exactly one advert for the fullname, `posted_at = created_utc`, linked to the group with the guild's id; the keys stay unique |
| `Handling.ApplyPreserves` | discordservers.py:337-357 | every write keeps the keys unique and every advert's group stored |
| `Handling.RecordedOnce` | discordservers.py:279-357 | a recorded submission ends with exactly one advert, under the group that carries its guild's id |
| `Handling.FindFirst` | discordservers.py:284-294 | the loop over the fetched rows stops at the first row that qualifies, or finds none |
| `Handling.FirstSeenRows` | discordservers.py:279-294 | the loop of the first-seen rules computes the verdict and write of `FirstSeen` |
| `Handling.DoublePostRows` | discordservers.py:337-341 | the loop that finds the row to delete computes the verdict and write of `DoublePostOf` |
| `Handling.RecheckRows` | discordservers.py:296-347 | the loops of the recheck rules compute the verdict and write of `Recheck` |
| `Handling.Commit` | discordservers.py:337-357 | the store writes of a decision change the tables exactly as `Apply` says |
| `Handling.HandleSubmission` | discordservers.py:177-357 | `handle_submission` run against the store returns the decision of `Decide` and leaves the tables as `Apply` of it |
| `StringLists.ItemOfLine` | stringlist.py:48 | an item is the line's text before the first `,`, with only trailing `\n` and `\r` removed; spaces are kept |
| `StringLists.ItemsAppend` | stringlist.py:45-51 | loading two files one after the other is loading each in turn |
| `StringLists.ItemsMembers` | stringlist.py:45-51 | an item is on the list exactly when it is non-empty and some line yields it |
| `StringLists.ItemsClean` | stringlist.py:48-50 | no item is empty, holds a `,` or ends in `\r` |
| `StringLists.CommentedLine` | stringlist.py:48-50 | a line holding an item, a comment and a newline yields the item |
| `StringLists.ReadItems` | stringlist.py:45-51 | the loop of `load` collects the non-empty items, in file order |
| `StringLists.StringList.constructor` | stringlist.py:22-33 | a new list has nothing cached |
| `StringLists.StringList.Fetch` | stringlist.py:53-80 | loads the file exactly when nothing is cached or the mtime changed, and otherwise returns the cached list; afterwards the stamp is the observed mtime and the list is cached, so a second fetch with the same mtime returns the same list |
| `Blacklist.Blacklist.constructor` | blacklist.py:8-10 | nothing is loaded at import |
| `Blacklist.Blacklist.Fetch` | blacklist.py:12-67 | reloads exactly when nothing is cached or the mtime changed, to the file's non-empty ids in order; otherwise it returns the cached ids; afterwards the stamp is the mtime and the cache holds the ids |
| `DiscordScan.CheckCodeSpec` | discordscan.py:14-48 | the flag is false only for a first reply of 404, and data comes exactly with a body; each retry sleeps 60 s times its try number; at most three sleeps happen, and there is none unless the first reply is a retried error; a first body, a 404, or an error past the third try always gives a result, and an unreachable API is the crash `ApiUnreachable` |
| `DiscordScan.OtherErrorsReadAsValid` | discordscan.py:38-48 | an HTTP error other than 404 never makes the flag false, however the retries go |
| `DiscordScan.SafeGetSpec` | discordscan.py:61-74 | `safe_requests_get` returns the first reply that is not a read timeout, a connection failure included; every try before it timed out and was followed by a sleep of 60 s times its try number; it returns nothing exactly when every try allowed timed out |
| `DiscordScan.TimeoutsThenReply` | discordscan.py:61-74 | read timeouts on the first `k` tries only delay the reply of the next try, by sleeps of 1, 2, ..., `k` minutes |
| `DiscordScan.ScanStepAt` | discordscan.py:77-95 | a step never ends the walk as over budget |
| `DiscordScan.ScanStepMeaning` | discordscan.py:61-114 | one fetch goes on exactly to a non-official target the response it finally gets names, ends exactly at an official one, or at a response without a redirect; it is stuck retrying exactly when every try timed out; a failed fetch names the URL fetched and its cause |
| `DiscordScan.ChaseTrace` | discordscan.py:98-116 | the walk fetches the start and then each target its step went on to, at most one more than the budget left; it ends where a step ends or fails, or when one more hop would exceed the budget |
| `DiscordScan.ChaseSpec` | discordscan.py:98-116 | from the link, every later fetch is a non-official target named by the response before it; an official end is named by the last response; an exhausted budget means 6 fetches (for a budget of 5) whose last names yet another non-official target; a failed fetch, or one still timing out, is the last one |
| `DiscordScan.CheckRedirectLink` | discordscan.py:98-116 | the loop of `check_redirect_link` returns `check_code` of the code of the official URL reached, or `(False, False)` with no redirect or an exhausted budget |
| `DiscordScan.PasswordPageHttpChecked` | discordscan.py:118-129 | the scanner counts `http://discord.me/password/` pages as redirectors, though `handle_submission` does not recognise them |
| `DiscordScan.PasswordPageHttpsChecked` | discordscan.py:118-129 | the same for the https password pages |
| `DiscordScan.CheckedUrl` | discordscan.py:149-150 | the URL checked always ends with `/` |
| `DiscordScan.PrefixOfSlashed` | discordscan.py:149-150 | appending `/` does not change whether a prefix test holds, for a prefix that does not end in `/` |
| `DiscordScan.CheckedUrlKeepsLink` | discordscan.py:56-59 | the appended `/` changes neither the kind of link nor its code, since only one trailing `/` is removed before the last segment is taken |
| `DiscordScan.ShouldDeleteSubm` | discordscan.py:131-139 | an official link is judged by `check_code` of its code, and anything else by the redirect walk with a budget of 5 |
| `DiscordScan.Settle` | discordscan.py:152-187 | the rules after the check never skip a submission; the scan is still retrying exactly when a fetch of the walk still times out, and then names that URL |
| `DiscordScan.HandleSubm` | discordscan.py:141-187 | `handle_subm` skips what `should_check_subm` rejects and settles the rest on the check of the URL with `/` appended |
| `DiscordScan.ScanRoutes` | discordscan.py:131-152 | a checked official link is settled on `check_code` of its code, and a redirector on the walk from the URL with `/` appended |
| `DiscordScan.TimedOutRedirectorRetries` | discordscan.py:61-74 | a redirector whose first fetch times out on every try allowed gets no verdict: the scanner is still retrying it |
| `DiscordScan.ErrorsOtherThanNotFoundKeep` | discordscan.py:43-48 | a code whose first reply is an HTTP error other than 404 is kept, unless an endpoint failure during a retry escapes |
| `DiscordScan.RemovedCodes` | discordscan.py:154-187 | a code is removed as invalid exactly when its first reply is a 404, and removed as expired exactly on a body with code `10006` |
| `DiscordScan.RedirectorInvalid` | discordscan.py:98-116 | a redirector is removed as invalid exactly when its walk reaches no official URL, or reaches one whose first reply is a 404 |
| `DiscordScan.VipPrecludesBlacklist` | discordscan.py:166-180 | a VIP guild with a live code is flaired even when blacklisted, and a blacklist removal names a blacklisted guild without VIP features |

Functions that define the behaviour, and whose properties are stated by the members above: `Redirects.FollowFrom` and `Redirects.Follow` (redirects.py:54-95), `Handling.Decide` (discordservers.py:177-357), `Handling.Apply` and `Handling.EnsureGroup` (discordservers.py:337-357), `Database.AddGroup`, `Database.AddAdvert`, `Database.TouchAdvert`, `Database.DeleteAdvert` and `Database.Prune` (database.py:95-195), `StringLists.Items` (stringlist.py:45-51), `DiscordScan.SafeGet` (discordscan.py:61-74), `DiscordScan.CheckCode` (discordscan.py:14-48), `DiscordScan.Chase` (discordscan.py:98-116), and `DiscordScan.Scan` (discordscan.py:141-187).

## Left out

- Reddit: login, the polling loops and their scheduling (discordservers.py:360-416, discordscan.py:190-288) are not modelled. This includes the scanner's list of recently checked ids and the blacklist its main loop rebuilds. They are unbounded I/O loops around the modelled handlers.
- Moderation actions: reply, distinguish, remove, flair selection and modmail are not performed. They appear only as the verdicts and the `flaired` flag. The source applies several of them to its global loop variable `submission`; the model records only the intended target. The message texts are not modelled.
- HTTP and HTML: `requests.get`, `urlopen`, and the parsing by BeautifulSoup and html5lib are inputs. A response is its status, its `Location` header and the attribute maps of its meta tags, in document order.
- `RetryError`'s message, `print`, `traceback` and every sleep are not modelled. Sleeps appear only as the seconds they would last (`Backoff`, `Lookup.slept`, `Probe.slept`).
- sqlite mechanics are not modelled: `connect`, `close`, `create_missing_tables` and transactions. A UNIQUE violation, which sqlite raises as `IntegrityError`, is the `false` that `AddGroup`/`AddAdvert` return, with the tables unchanged.
- The file system is not modelled: `open` and `os.stat` of the list files are inputs (the lines and one mtime).
- Clock: `time.time()` is the parameter `now`.
- `Database.Store.SaveAdvert`: `found_at` and `updated_at` come from one `now`, where the source reads the clock twice.
- `StringLists.StringList.Fetch`: one mtime serves both `is_stale` and the stamp, where the source stats the file twice.
- `Blacklist.Blacklist.Fetch`: one mtime serves both `is_stale` and the stamp, where the source stats the file twice.
- Floats: timestamps are integers, so `math.ceil` of a difference is the difference itself.
- The `X-RateLimit-Reset` header is an integer. Read literally as a string, the subtraction would raise, and `until_success` would take that as a failed attempt.
- `config.dry_run` is taken as False. `config.py` is not part of this model beyond the two constants it copies: 900 s (`post_update_time_seconds`) and 86400 s (`min_time_between_posts_seconds`).
- The double-post reply, with `reddit.get_submission` and the missing `config.double_post_response_message`, is an outside call. Its failures are the input `replyFails`: the saved permalinks whose reply raises, which the loop skips.
- `Handling.Decide`: the permalink regex is matched with `.` accepting any character. Python's `.` rejects a newline, which a reddit permalink never holds.
- Case-insensitive matching folds ASCII letters only.
- `DiscordScan.Settle`: an empty JSON object as the invite body, which is falsy in Python, is not distinguished from a body with fields.
- `DiscordScan.SafeGet`: the source retries a read timeout without limit, until Python's recursion limit ends the nesting. The model allows `patience` tries and then reports the fetch as still timing out (`StillRetrying`). A connection failure is not retried, because the builtin `ConnectionError` the function catches is not the exception `requests` raises; it escapes as `ScanCrashed(FetchFailed(...))`.
- `DiscordScan.CheckCode`: a non-HTTP failure of `urlopen`, a timeout included, is the single crash `ApiUnreachable`.
- `Handling.HandleSubmission`: one `now` serves both the 15-minute test and the store write, where the source reads the clock again inside `save_group`, `save_advert` and `touch_advert`.
- `Handling.Resolve` and `Handling.Judge`: the `AttributeError` is raised before any reply, so the botcheck message text is not modelled.
- `Retry.UntilSuccess`: an operation that never succeeds without a cap runs forever. The model runs it over a finite script of attempts and reports `StillTrying` when the script runs out.
