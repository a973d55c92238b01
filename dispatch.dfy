/**
 * The publish cycle as the plugin runs it: the status transition hook, the
 * insert handlers with their update cooldown, `publish` (checks, status
 * selection, building with the memoised tag replacements) and `send` (one API
 * call and one log entry per status, then the per-post result flags).
 */
module Dispatch {
  import opened Wrappers
  import PhpStrings
  import Common
  import TagResolver
  import opened StatusBuilder
  import Lifecycle
  import LogStore
  import Validation

  // ---------------------------------------------------------------------
  // Per-post meta and the world publish reads
  // ---------------------------------------------------------------------

  /**
   * The post meta this core reads and writes: the deferral flags, `_last_sent`,
   * `_success` (1 or 0), `_error` (set or deleted) and `_errors` (the error lines).
   */
  datatype PostMeta = PostMeta(
    flags: Lifecycle.Flags,
    lastSent: Option<int>,
    success: Option<bool>,
    error: bool,
    errors: Option<seq<string>>)

  /** The meta of a post with none stored. */
  function NoMeta(): PostMeta {
    PostMeta(Lifecycle.Flags(false, false), None, None, false, None)
  }

  function MetaOf(meta: map<nat, PostMeta>, postId: nat): PostMeta {
    if postId in meta then meta[postId] else NoMeta()
  }

  /**
   * What `publish` reads from WordPress and the API: posts by id, the settings
   * of each post type, the access token, the profile list (or the API's error)
   * and the `log` option.
   */
  datatype Site = Site(
    posts: map<nat, Post>,
    settings: map<string, Settings>,
    accessToken: string,
    profiles: Result<seq<Profile>, string>,
    logEnabled: bool)

  /** The settings of a post type; none stored reads as the empty (falsy) array. */
  function SettingsOf(site: Site, postType: string): Settings {
    if postType in site.settings then site.settings[postType] else []
  }

  /** What `updates_create` returns: the created update, or the API's error message. */
  datatype ApiResult =
    | ApiOk(profileId: string, message: string, statusText: string, statusCreatedAt: Option<int>, dueAt: Option<int>)
    | ApiError(message: string)

  /** The `WP_Error`s `publish` returns before anything is sent. */
  datatype Failure =
    | InvalidAction(action: string)
    | NoPost(postId: nat)
    | NoAccessToken
    | ProfilesUnavailable(message: string)
    | NoStatusesEnabled(action: string)

  /** What `publish` returns: an error, `false` (no settings for the post type), or the log of what was sent. */
  datatype PublishResult = Failed(failure: Failure) | NotConfigured | Sent(log: seq<LogEntry>)

  type LogEntry = LogStore.LogEntry

  /** The text of each error, with the plugin's own names and the settings link left out. */
  function FailureMessage(f: Failure): string {
    match f
    case InvalidAction(a) => "The " + a + " action is not supported."
    case NoPost(id) => "No WordPress Post could be found for Post ID " + PhpStrings.NatToString(id)
    case NoAccessToken => "The Plugin has not been authorized."
    case ProfilesUnavailable(m) => m
    case NoStatusesEnabled(a) => "No Plugin Settings are defined for sending statuses when you " + a + " a post."
  }

  // ---------------------------------------------------------------------
  // publish: the checks before anything is built
  // ---------------------------------------------------------------------

  /** Where `publish` stops, or the post, profiles and statuses it goes on with. */
  datatype Plan = Stop(result: PublishResult) | Go(post: Post, profiles: seq<Profile>, chosen: seq<Chosen>)

  /** The checks of `publish` in their order, then the status selection. */
  function PlanPublish(site: Site, postId: nat, action: string): (p: Plan)
    ensures p.Go? ==> p.chosen != [] && postId in site.posts && p.post == site.posts[postId]
  {
    if action !in Common.PostActions() then Stop(Failed(InvalidAction(action)))
    else if postId !in site.posts then Stop(Failed(NoPost(postId)))
    else
      var post := site.posts[postId];
      var settings := SettingsOf(site, post.postType);
      if settings == [] then Stop(NotConfigured)
      else if !Validation.ApiConnected(site.accessToken) then Stop(Failed(NoAccessToken))
      else match site.profiles
        case Err(m) => Stop(Failed(ProfilesUnavailable(m)))
        case Ok(profiles) =>
          var chosen := Choose(settings, profiles, action);
          if chosen == [] then Stop(Failed(NoStatusesEnabled(action)))
          else Go(post, profiles, chosen)
  }

  /** Each early exit of `publish` and the condition that leads to it. */
  lemma PlanPublishExits(site: Site, postId: nat, action: string)
    ensures PlanPublish(site, postId, action) == Stop(Failed(InvalidAction(action))) <==> action != "publish" && action != "update"
    ensures (action == "publish" || action == "update") ==>
      (PlanPublish(site, postId, action) == Stop(Failed(NoPost(postId))) <==> postId !in site.posts)
    ensures PlanPublish(site, postId, action) == Stop(NotConfigured) <==>
      (action == "publish" || action == "update") && postId in site.posts && SettingsOf(site, site.posts[postId].postType) == []
    ensures ((action == "publish" || action == "update") && postId in site.posts
             && SettingsOf(site, site.posts[postId].postType) != [])
      ==> (PlanPublish(site, postId, action) == Stop(Failed(NoAccessToken)) <==> (site.accessToken == "" || site.accessToken == "0"))
    ensures ((action == "publish" || action == "update") && postId in site.posts
             && SettingsOf(site, site.posts[postId].postType) != [] && site.accessToken != "" && site.accessToken != "0"
             && site.profiles.Err?)
      ==> PlanPublish(site, postId, action) == Stop(Failed(ProfilesUnavailable(site.profiles.error)))
    ensures var p := PlanPublish(site, postId, action);
      p.Stop? && p.result.Failed? && p.result.failure.ProfilesUnavailable? ==> site.profiles.Err?
    ensures ((action == "publish" || action == "update") && postId in site.posts
             && SettingsOf(site, site.posts[postId].postType) != [] && site.accessToken != "" && site.accessToken != "0"
             && site.profiles.Ok?)
      ==> var chosen := Choose(SettingsOf(site, site.posts[postId].postType), site.profiles.value, action);
          && (PlanPublish(site, postId, action) == Stop(Failed(NoStatusesEnabled(action))) <==> chosen == [])
          && (chosen != [] ==> PlanPublish(site, postId, action) == Go(site.posts[postId], site.profiles.value, chosen))
  {
  }

  /** A plan that goes on sends only statuses of enabled profiles the API still lists (or `default`), never Google. */
  lemma PlanPublishProfiles(site: Site, postId: nat, action: string)
    requires PlanPublish(site, postId, action).Go?
    ensures var p := PlanPublish(site, postId, action);
      forall c :: c in p.chosen ==>
        && !IsNonProfileKey(c.profileId)
        && (c.profileId == "default" || (FindProfile(p.profiles, c.profileId).Some?
                                         && FindProfile(p.profiles, c.profileId).value.service != "google"))
  {
    var p := PlanPublish(site, postId, action);
    var settings := SettingsOf(site, p.post.postType);
    ChooseFromSound(settings, 0, p.profiles, action, None);
    forall c | c in p.chosen
      ensures !IsNonProfileKey(c.profileId)
      ensures c.profileId == "default" || (FindProfile(p.profiles, c.profileId).Some?
                                           && FindProfile(p.profiles, c.profileId).value.service != "google")
    {
      var i :| 0 <= i < |settings| && settings[i].0 == c.profileId && c.status in EntryStatuses(settings, settings[i], p.profiles, action);
      assert Contributes(settings, settings[i], p.profiles, action);
    }
  }

  // ---------------------------------------------------------------------
  // Building the statuses, with the memo carried from one to the next
  // ---------------------------------------------------------------------

  /** The `build_args` calls in order: each parses its message against the memo the previous one left. */
  function BuildStatuses(memo: TagResolver.Memo, table: map<string, string>, post: Post, chosen: seq<Chosen>)
    : (r: (seq<Args>, TagResolver.Memo))
    ensures |r.0| == |chosen|
    decreases |chosen|
  {
    if chosen == [] then ([], memo)
    else
      var c := chosen[0];
      var p := TagResolver.ParseText(memo, table, c.status.message);
      var rest := BuildStatuses(p.memo, table, post, chosen[1..]);
      ([BuildArgs(post, c.profileId, c.service, c.status, p.text)] + rest.0, rest.1)
  }

  /**
   * Each built status goes to its chosen profile alone, with shortening on and
   * the template's schedule; the memo only grows, so earlier replacements stay.
   */
  lemma {:induction false} BuildStatusesArgs(memo: TagResolver.Memo, table: map<string, string>, post: Post, chosen: seq<Chosen>)
    ensures var r := BuildStatuses(memo, table, post, chosen);
      && (forall i :: 0 <= i < |chosen| ==>
            && r.0[i].profileIds == [chosen[i].profileId] && r.0[i].shorten
            && (r.0[i].top <==> chosen[i].status.schedule == "queue_top")
            && (r.0[i].now <==> chosen[i].status.schedule == "now"))
      && |memo| <= |r.1| && r.1[..|memo|] == memo
    decreases |chosen|
  {
    if chosen != [] {
      var c := chosen[0];
      var p := TagResolver.ParseText(memo, table, c.status.message);
      BuildStatusesArgs(p.memo, table, post, chosen[1..]);
      var rest := BuildStatuses(p.memo, table, post, chosen[1..]);
      assert rest.1[..|memo|] == rest.1[..|p.memo|][..|memo|];
      var r := BuildStatuses(memo, table, post, chosen);
      forall i | 0 <= i < |chosen|
        ensures r.0[i].profileIds == [chosen[i].profileId] && r.0[i].shorten
        ensures r.0[i].top <==> chosen[i].status.schedule == "queue_top"
        ensures r.0[i].now <==> chosen[i].status.schedule == "now"
      {
        if i > 0 {
          assert r.0[i] == rest.0[i - 1];
        }
      }
    }
  }

  /** One `build_args` call of the loop and the rest of the calls after it. */
  lemma BuildStatusesStep(memo: TagResolver.Memo, table: map<string, string>, post: Post, chosen: seq<Chosen>, k: nat)
    requires k < |chosen|
    ensures var c := chosen[k];
      var p := TagResolver.ParseText(memo, table, c.status.message);
      var rest := BuildStatuses(p.memo, table, post, chosen[k + 1..]);
      BuildStatuses(memo, table, post, chosen[k..]) == ([BuildArgs(post, c.profileId, c.service, c.status, p.text)] + rest.0, rest.1)
  {
    assert chosen[k..][0] == chosen[k];
    assert chosen[k..][1..] == chosen[k + 1..];
  }

  // ---------------------------------------------------------------------
  // send
  // ---------------------------------------------------------------------

  /** The first profile id of a status, or the empty string (PHP's null) when it has none. */
  function FirstProfileId(status: Args): string {
    if status.profileIds == [] then "" else status.profileIds[0]
  }

  /** `formatted_service: formatted_username` of the status's profile; ": " when the profiles do not list it. */
  function ProfileNameFor(profiles: seq<Profile>, status: Args): string {
    match FindProfile(profiles, FirstProfileId(status))
    case Some(p) => LogStore.ProfileLabel(p)
    case None => ": "
  }

  /** The log entry `send` records for one status and the API's answer. */
  function EntryFor(status: Args, result: ApiResult, profiles: seq<Profile>, now: int): (e: LogEntry)
    ensures e.success <==> result.ApiOk?
    ensures e.date == now && e.status == Some(status) && e.profileName == Some(ProfileNameFor(profiles, status))
    ensures e.message == result.message
  {
    var name := ProfileNameFor(profiles, status);
    match result
    case ApiError(m) => LogStore.LogEntry(now, false, Some(status), Some(name), Some(FirstProfileId(status)), m, None, None, None)
    case ApiOk(pid, m, text, created, due) => LogStore.LogEntry(now, true, Some(status), Some(name), Some(pid), m, Some(text), created, due)
  }

  /** One entry per status, in order; the API is asked about the `i`-th status as call `i`. */
  function SendLog(statuses: seq<Args>, api: (nat, Args) -> ApiResult, profiles: seq<Profile>, now: int): (log: seq<LogEntry>)
    ensures |log| == |statuses|
    ensures forall i :: 0 <= i < |statuses| ==> log[i] == EntryFor(statuses[i], api(i, statuses[i]), profiles, now)
  {
    seq(|statuses|, i requires 0 <= i < |statuses| => EntryFor(statuses[i], api(i, statuses[i]), profiles, now))
  }

  /** The `foreach` of `send`: one API call per status, logging each result and collecting the error lines. */
  method SendEach(statuses: seq<Args>, profiles: seq<Profile>, api: (nat, Args) -> ApiResult, now: int)
    returns (log: seq<LogEntry>, errors: bool, logError: seq<string>)
    ensures log == SendLog(statuses, api, profiles, now)
    ensures errors <==> AnyError(statuses, api, |statuses|)
    ensures logError == ErrorLines(statuses, api, profiles, |statuses|)
  {
    errors := false;
    logError := [];
    log := [];
    var i := 0;
    while i < |statuses|
      invariant 0 <= i <= |statuses|
      invariant |log| == i
      invariant forall k :: 0 <= k < i ==> log[k] == EntryFor(statuses[k], api(k, statuses[k]), profiles, now)
      invariant errors <==> AnyError(statuses, api, i)
      invariant logError == ErrorLines(statuses, api, profiles, i)
    {
      var result := api(i, statuses[i]);
      var name := ProfileNameFor(profiles, statuses[i]);
      var entry;
      if result.ApiError? {
        errors := true;
        entry := LogStore.LogEntry(now, false, Some(statuses[i]), Some(name), Some(FirstProfileId(statuses[i])),
                                   result.message, None, None, None);
        assert AnyError(statuses, api, i + 1);
        logError := logError + [name + ": " + result.message];
      } else {
        entry := LogStore.LogEntry(now, true, Some(statuses[i]), Some(name), Some(result.profileId),
                                   result.message, Some(result.statusText), result.statusCreatedAt, result.dueAt);
        assert ErrorLines(statuses, api, profiles, i + 1) == logError + [];
      }
      assert entry == EntryFor(statuses[i], result, profiles, now);
      log := log + [entry];
      i := i + 1;
    }
  }

  /** The lines stored in `_errors` for the first `n` statuses: `profile: message` per failed call. */
  function ErrorLines(statuses: seq<Args>, api: (nat, Args) -> ApiResult, profiles: seq<Profile>, n: nat): seq<string>
    requires n <= |statuses|
  {
    if n == 0 then []
    else
      var r := api(n - 1, statuses[n - 1]);
      ErrorLines(statuses, api, profiles, n - 1)
        + (if r.ApiError? then [ProfileNameFor(profiles, statuses[n - 1]) + ": " + r.message] else [])
  }

  /** Whether any of the first `n` calls failed. */
  predicate AnyError(statuses: seq<Args>, api: (nat, Args) -> ApiResult, n: nat)
    requires n <= |statuses|
  {
    exists i :: 0 <= i < n && api(i, statuses[i]).ApiError?
  }

  /** The meta after `send`: `_last_sent` always; then success, or the error flag and its lines. */
  function AfterSend(m: PostMeta, statuses: seq<Args>, api: (nat, Args) -> ApiResult, profiles: seq<Profile>, now: int): PostMeta {
    if !AnyError(statuses, api, |statuses|) then
      m.(lastSent := Some(now), success := Some(true), error := false, errors := None)
    else
      m.(lastSent := Some(now), success := Some(false), error := true,
         errors := Some(ErrorLines(statuses, api, profiles, |statuses|)))
  }

  /** There is an error line exactly when a call failed, one per failed call. */
  lemma {:induction false} ErrorLinesIff(statuses: seq<Args>, api: (nat, Args) -> ApiResult, profiles: seq<Profile>, n: nat)
    requires n <= |statuses|
    ensures ErrorLines(statuses, api, profiles, n) != [] <==> AnyError(statuses, api, n)
    ensures |ErrorLines(statuses, api, profiles, n)| <= n
  {
    if n > 0 {
      ErrorLinesIff(statuses, api, profiles, n - 1);
      var prev := ErrorLines(statuses, api, profiles, n - 1);
      var r := api(n - 1, statuses[n - 1]);
      if r.ApiError? {
        var line := ProfileNameFor(profiles, statuses[n - 1]) + ": " + r.message;
        assert ErrorLines(statuses, api, profiles, n) == prev + [line];
        assert AnyError(statuses, api, n);
      } else {
        assert ErrorLines(statuses, api, profiles, n) == prev + [];
        if AnyError(statuses, api, n) {
          var i :| 0 <= i < n && api(i, statuses[i]).ApiError?;
          assert i < n - 1;
          assert AnyError(statuses, api, n - 1);
        }
      }
    }
  }

  /**
   * `send` records a failed call as an error entry and a created update as a
   * success entry; an accepted update the API gave no creation time to reads as pending.
   */
  lemma SendLogClassified(statuses: seq<Args>, api: (nat, Args) -> ApiResult, profiles: seq<Profile>, now: int, i: nat)
    requires i < |statuses|
    ensures var e := SendLog(statuses, api, profiles, now)[i];
      var r := api(i, statuses[i]);
      && (r.ApiError? <==> LogStore.Classify(e) == LogStore.Error)
      && (r.ApiOk? && r.statusCreatedAt.Some? <==> LogStore.Classify(e) == LogStore.Success)
      && (r.ApiOk? && r.statusCreatedAt.Some? ==> !LogStore.IsPendingEntry(e))
  {
  }

  // ---------------------------------------------------------------------
  // The whole of publish, as a function of its inputs
  // ---------------------------------------------------------------------

  /** One turn of the `build_args` loop: the status built from the parsed text, then the rest from the new memo. */
  lemma BuildStatusesAdvance(done: seq<Args>, memo: TagResolver.Memo, table: map<string, string>, post: Post,
                             chosen: seq<Chosen>, k: nat, text: string, memo': TagResolver.Memo, args: Args)
    requires k < |chosen|
    requires text == TagResolver.ParseText(memo, table, chosen[k].status.message).text
    requires memo' == TagResolver.ParseText(memo, table, chosen[k].status.message).memo
    requires args == BuildArgs(post, chosen[k].profileId, chosen[k].service, chosen[k].status, text)
    ensures (done + [args]) + BuildStatuses(memo', table, post, chosen[k + 1..]).0
            == done + BuildStatuses(memo, table, post, chosen[k..]).0
    ensures BuildStatuses(memo', table, post, chosen[k + 1..]).1 == BuildStatuses(memo, table, post, chosen[k..]).1
  {
    BuildStatusesStep(memo, table, post, chosen, k);
  }

  /** The statuses `publish` sends for a plan that goes on; the memo starts empty, as the cycle cleared it. */
  function Built(post: Post, chosen: seq<Chosen>): (seq<Args>, TagResolver.Memo) {
    BuildStatuses([], post.replacements, post, chosen)
  }

  /** What `publish` returns. */
  function PublishOutcome(site: Site, postId: nat, action: string, api: (nat, Args) -> ApiResult, now: int): PublishResult {
    match PlanPublish(site, postId, action)
    case Stop(r) => r
    case Go(post, profiles, chosen) => Sent(SendLog(Built(post, chosen).0, api, profiles, now))
  }

  /** The post meta after `publish`. */
  function MetaAfterPublish(meta: map<nat, PostMeta>, site: Site, postId: nat, action: string, api: (nat, Args) -> ApiResult, now: int)
    : map<nat, PostMeta>
  {
    match PlanPublish(site, postId, action)
    case Stop(_) => meta
    case Go(post, profiles, chosen) => meta[postId := AfterSend(MetaOf(meta, postId), Built(post, chosen).0, api, profiles, now)]
  }

  /** The stored logs after `publish`: the sent entries appended when logging is on. */
  function LogsAfterPublish(logs: map<int, seq<LogEntry>>, site: Site, postId: nat, action: string, api: (nat, Args) -> ApiResult, now: int)
    : map<int, seq<LogEntry>>
  {
    match PublishOutcome(site, postId, action, api, now)
    case Sent(log) => if site.logEnabled then logs[postId := LogStore.Stored(logs, postId) + log] else logs
    case _ => logs
  }

  /** A publish that goes on sends every chosen status, once each and in order, and records one entry per status. */
  lemma PublishSendsEveryStatus(site: Site, postId: nat, action: string, api: (nat, Args) -> ApiResult, now: int)
    requires PlanPublish(site, postId, action).Go?
    ensures var p := PlanPublish(site, postId, action);
      var r := PublishOutcome(site, postId, action, api, now);
      && r.Sent? && |r.log| == |p.chosen| > 0
      && forall i :: 0 <= i < |p.chosen| ==>
           r.log[i].status.Some? && r.log[i].status.value.profileIds == [p.chosen[i].profileId]
           && (r.log[i].success <==> api(i, Built(p.post, p.chosen).0[i]).ApiOk?)
  {
    var p := PlanPublish(site, postId, action);
    BuildStatusesArgs([], p.post.replacements, p.post, p.chosen);
  }

  /** After a send, `_last_sent` is the send time, so an update within the next 5 seconds is suppressed. */
  lemma UpdateSuppressedAfterSend(meta: map<nat, PostMeta>, site: Site, postId: nat, action: string,
                                  api: (nat, Args) -> ApiResult, now: int, later: int)
    requires PlanPublish(site, postId, action).Go?
    requires now != 0 && now <= later < now + Lifecycle.Cooldown
    ensures MetaOf(MetaAfterPublish(meta, site, postId, action, api, now), postId).lastSent == Some(now)
    ensures !Lifecycle.UpdateAllowed(MetaOf(MetaAfterPublish(meta, site, postId, action, api, now), postId).lastSent, later)
  {
  }

  /** After a send the success flag is set exactly when every call succeeded, and error lines are kept otherwise. */
  lemma SendResultFlags(m: PostMeta, statuses: seq<Args>, api: (nat, Args) -> ApiResult, profiles: seq<Profile>, now: int)
    ensures var a := AfterSend(m, statuses, api, profiles, now);
      && a.lastSent == Some(now)
      && (a.success == Some(true) <==> forall i :: 0 <= i < |statuses| ==> api(i, statuses[i]).ApiOk?)
      && (a.error <==> a.errors.Some? && a.errors.value != [])
      && a.flags == m.flags
  {
    ErrorLinesIff(statuses, api, profiles, |statuses|);
  }

  /** The log entry the insert handlers add when `publish` fails before sending. */
  function FailureEntry(now: int, f: Failure): (e: LogEntry)
    ensures !e.success && e.status.None? && LogStore.Classify(e) == LogStore.Error
  {
    LogStore.LogEntry(now, false, None, None, None, FailureMessage(f), None, None, None)
  }

  /** The logs after an insert handler: a failure is logged (when logging is on) as one error entry. */
  function LogsAfterHandler(logs: map<int, seq<LogEntry>>, site: Site, postId: nat, action: string, api: (nat, Args) -> ApiResult, now: int)
    : map<int, seq<LogEntry>>
  {
    var after := LogsAfterPublish(logs, site, postId, action, api, now);
    match PublishOutcome(site, postId, action, api, now)
    case Failed(f) => if site.logEnabled then after[postId := LogStore.Stored(after, postId) + [FailureEntry(now, f)]] else after
    case _ => after
  }

  /** Every handler run with logging on leaves a trace in the post's log, except `false` (no settings). */
  lemma HandlerAlwaysLogs(logs: map<int, seq<LogEntry>>, site: Site, postId: nat, action: string, api: (nat, Args) -> ApiResult, now: int)
    requires site.logEnabled
    requires !PublishOutcome(site, postId, action, api, now).NotConfigured?
    ensures |LogStore.Stored(LogsAfterHandler(logs, site, postId, action, api, now), postId)| > |LogStore.Stored(logs, postId)|
  {
    match PlanPublish(site, postId, action)
    case Stop(_) =>
    case Go(post, profiles, chosen) =>
      assert |Built(post, chosen).0| > 0;
  }

  // ---------------------------------------------------------------------
  // The publisher object
  // ---------------------------------------------------------------------

  /**
   * The `Publish` class's state over one request: the replacement table and the
   * memo of resolved tags for the current cycle, the post meta, and the log store.
   */
  class Publisher {
    /** `$all_possible_searches_replacements`; `None` for `false`. */
    var allPossible: Option<map<string, string>>
    /** `$searches_replacements`; empty for `false`. */
    var memo: TagResolver.Memo
    var meta: map<nat, PostMeta>
    const store: LogStore.Log

    constructor(store: LogStore.Log, meta: map<nat, PostMeta>)
      ensures this.store == store && this.meta == meta
      ensures allPossible == None && memo == []
    {
      this.store := store;
      this.meta := meta;
      allPossible := None;
      memo := [];
    }

    /** `clear_search_replacements`: both memo fields back to `false`. */
    method ClearSearchReplacements()
      modifies this
      ensures allPossible == None && memo == [] && meta == old(meta)
    {
      allPossible := None;
      memo := [];
    }

    /**
     * `parse_text`: register the post's table if there is none yet, then resolve
     * each captured tag not memoised already, replace, and remove double spaces.
     */
    method ParseText(post: Post, message: string) returns (text: string)
      modifies this
      ensures allPossible == Some(if old(allPossible).None? || |old(allPossible).value| == 0 then post.replacements
                                  else old(allPossible).value)
      ensures var p := TagResolver.ParseText(old(memo), allPossible.value, message);
        text == p.text && memo == p.memo
      ensures meta == old(meta)
    {
      if allPossible.None? || |allPossible.value| == 0 {
        allPossible := Some(post.replacements);
      }
      var table := allPossible.value;
      var tags := TagResolver.FindTags(message, 0);
      if |table| == 0 || tags == [] {
        TagResolver.ParseTextUnchanged(memo, table, message);
        return message;
      }
      TagResolver.ParseTextRendered(memo, table, message);
      MemoiseTags(tags, TagResolver.Resolver(table));
      text := TagResolver.Render(memo, message);
    }

    /**
     * The `foreach` of `parse_text`: a braced tag already memoised is skipped,
     * any other is resolved against the table and stored.
     */
    method MemoiseTags(tags: seq<string>, resolve: string -> string)
      modifies this
      ensures memo == TagResolver.ExtendMemo(old(memo), tags, resolve)
      ensures allPossible == old(allPossible) && meta == old(meta)
    {
      var i := 0;
      while i < |tags|
        invariant 0 <= i <= |tags|
        invariant TagResolver.ExtendMemo(memo, tags[i..], resolve) == TagResolver.ExtendMemo(old(memo), tags, resolve)
        invariant allPossible == old(allPossible) && meta == old(meta)
      {
        TagResolver.ExtendMemoLoopStep(memo, tags, i, resolve);
        var braced := TagResolver.Braced(tags[i]);
        if braced !in TagResolver.Keys(memo) {
          memo := memo + [(braced, resolve(tags[i]))];
        }
        i := i + 1;
      }
      assert tags[i..] == [];
    }

    /** `send`: call the API for each status in order, log each answer, then write the result meta. */
    method Send(statuses: seq<Args>, postId: nat, profiles: seq<Profile>, api: (nat, Args) -> ApiResult, now: int, logEnabled: bool)
      returns (log: seq<LogEntry>)
      modifies this, store
      ensures log == SendLog(statuses, api, profiles, now)
      ensures meta == old(meta)[postId := AfterSend(MetaOf(old(meta), postId), statuses, api, profiles, now)]
      ensures store.logs == if logEnabled then old(store.logs)[postId := LogStore.Stored(old(store.logs), postId) + log]
                            else old(store.logs)
      ensures allPossible == old(allPossible) && memo == old(memo)
    {
      var errors, logError;
      log, errors, logError := SendEach(statuses, profiles, api, now);
      var m := MetaOf(meta, postId).(lastSent := Some(now));
      if !errors {
        m := m.(success := Some(true), error := false, errors := None);
      } else {
        m := m.(success := Some(false), error := true, errors := Some(logError));
      }
      meta := meta[postId := m];
      if logEnabled {
        var _ := store.UpdateLog(postId, log);
      }
    }

    /**
     * `publish`: the early exits, the memo cleared for the new cycle, the
     * statuses chosen and built in order, then `send`.
     */
    method Publish(site: Site, postId: nat, action: string, api: (nat, Args) -> ApiResult, now: int) returns (r: PublishResult)
      modifies this, store
      ensures r == PublishOutcome(site, postId, action, api, now)
      ensures meta == MetaAfterPublish(old(meta), site, postId, action, api, now)
      ensures store.logs == LogsAfterPublish(old(store.logs), site, postId, action, api, now)
      ensures action !in Common.PostActions() ==> allPossible == old(allPossible) && memo == old(memo)
      ensures action in Common.PostActions() && PlanPublish(site, postId, action).Stop? ==> allPossible == None && memo == []
      ensures PlanPublish(site, postId, action).Go? ==>
        var p := PlanPublish(site, postId, action);
        allPossible == Some(p.post.replacements) && memo == Built(p.post, p.chosen).1
    {
      if action !in Common.PostActions() {
        return Failed(InvalidAction(action));
      }
      ClearSearchReplacements();
      if postId !in site.posts {
        return Failed(NoPost(postId));
      }
      var post := site.posts[postId];
      var settings := SettingsOf(site, post.postType);
      if settings == [] {
        return NotConfigured;
      }
      if !Validation.ApiConnected(site.accessToken) {
        return Failed(NoAccessToken);
      }
      if site.profiles.Err? {
        return Failed(ProfilesUnavailable(site.profiles.error));
      }
      var profiles := site.profiles.value;
      var chosen := SelectStatuses(settings, profiles, action);
      if chosen == [] {
        return Failed(NoStatusesEnabled(action));
      }
      var statuses := BuildAll(post, chosen);
      var log := Send(statuses, postId, profiles, api, now, site.logEnabled);
      r := Sent(log);
    }

    /** The `build_args` calls of `publish`, each parsing its message through the cycle's memo. */
    method BuildAll(post: Post, chosen: seq<Chosen>) returns (statuses: seq<Args>)
      requires allPossible == None && memo == []
      modifies this
      ensures statuses == Built(post, chosen).0
      ensures memo == Built(post, chosen).1
      ensures chosen != [] ==> allPossible == Some(post.replacements)
      ensures chosen == [] ==> allPossible == None
      ensures meta == old(meta)
    {
      statuses := [];
      var k := 0;
      while k < |chosen|
        invariant 0 <= k <= |chosen|
        invariant k == 0 ==> allPossible == None
        invariant k > 0 ==> allPossible == Some(post.replacements)
        invariant statuses + BuildStatuses(memo, post.replacements, post, chosen[k..]).0 == Built(post, chosen).0
        invariant BuildStatuses(memo, post.replacements, post, chosen[k..]).1 == Built(post, chosen).1
        invariant meta == old(meta)
      {
        statuses := BuildNext(post, chosen, k, statuses);
        k := k + 1;
      }
      assert chosen[k..] == [];
    }

    /** One `build_args` call of `publish`: the next status, its message parsed through the memo. */
    method BuildNext(post: Post, chosen: seq<Chosen>, k: nat, done: seq<Args>) returns (statuses: seq<Args>)
      requires k < |chosen|
      requires allPossible == None || allPossible == Some(post.replacements)
      modifies this
      ensures allPossible == Some(post.replacements)
      ensures statuses + BuildStatuses(memo, post.replacements, post, chosen[k + 1..]).0
              == done + BuildStatuses(old(memo), post.replacements, post, chosen[k..]).0
      ensures BuildStatuses(memo, post.replacements, post, chosen[k + 1..]).1
              == BuildStatuses(old(memo), post.replacements, post, chosen[k..]).1
      ensures meta == old(meta)
    {
      var c := chosen[k];
      var text := ParseText(post, c.status.message);
      var args := BuildArgs(post, c.profileId, c.service, c.status, text);
      BuildStatusesAdvance(done, old(memo), post.replacements, post, chosen, k, text, memo, args);
      statuses := done + [args];
    }

    /** `wp_insert_post_publish`: publish, and log an error returned before anything was sent. */
    method InsertPostPublish(site: Site, postId: nat, api: (nat, Args) -> ApiResult, now: int) returns (r: PublishResult)
      modifies this, store
      ensures r == PublishOutcome(site, postId, "publish", api, now)
      ensures meta == MetaAfterPublish(old(meta), site, postId, "publish", api, now)
      ensures store.logs == LogsAfterHandler(old(store.logs), site, postId, "publish", api, now)
    {
      r := Publish(site, postId, "publish", api, now);
      if r.Failed? && site.logEnabled {
        var _ := store.UpdateLog(postId, [FailureEntry(now, r.failure)]);
      }
    }

    /**
     * `wp_insert_post_update`: nothing within 5 seconds of `_last_sent`;
     * otherwise publish as an update and log an early error.
     */
    method InsertPostUpdate(site: Site, postId: nat, api: (nat, Args) -> ApiResult, now: int) returns (r: Option<PublishResult>)
      modifies this, store
      ensures r.None? <==> !Lifecycle.UpdateAllowed(MetaOf(old(meta), postId).lastSent, now)
      ensures r.None? ==> meta == old(meta) && store.logs == old(store.logs)
                          && allPossible == old(allPossible) && memo == old(memo)
      ensures r.Some? ==>
        && r.value == PublishOutcome(site, postId, "update", api, now)
        && meta == MetaAfterPublish(old(meta), site, postId, "update", api, now)
        && store.logs == LogsAfterHandler(old(store.logs), site, postId, "update", api, now)
    {
      var lastSent := MetaOf(meta, postId).lastSent;
      if lastSent.Some? && lastSent.value != 0 && now - lastSent.value < Lifecycle.Cooldown {
        return None;
      }
      var result := Publish(site, postId, "update", api, now);
      if result.Failed? && site.logEnabled {
        var _ := store.UpdateLog(postId, [FailureEntry(now, result.failure)]);
      }
      r := Some(result);
    }

    /**
     * `transition_post_status`: decide which handler to hook, consuming or
     * setting the post's deferral flags.
     */
    method TransitionPostStatus(newStatus: string, oldStatus: string, post: Post, publicTypes: seq<string>,
                                isRest: bool, blockEditorEnabled: bool)
      returns (hooked: Option<Lifecycle.Handler>)
      modifies this
      ensures var d := Lifecycle.Transition(newStatus, oldStatus,
                                            post.postType in Common.UnsetAll(publicTypes, Common.ExcludedPostTypes()),
                                            isRest,
                                            Lifecycle.IsGutenbergPost(post.content, blockEditorEnabled),
                                            MetaOf(old(meta), post.id).flags);
        && hooked == d.handler
        && (d.flags == MetaOf(old(meta), post.id).flags ==> meta == old(meta))
        && (d.flags != MetaOf(old(meta), post.id).flags ==>
              meta == old(meta)[post.id := MetaOf(old(meta), post.id).(flags := d.flags)])
      ensures allPossible == old(allPossible) && memo == old(memo)
    {
      var types := Common.PostTypes(publicTypes);
      if post.postType !in types {
        return None;
      }
      if Lifecycle.IsIgnoredStatus(newStatus) {
        return None;
      }
      var isGutenberg := Lifecycle.IsGutenbergPost(post.content, blockEditorEnabled);
      var m := MetaOf(meta, post.id);
      if m.flags.needsPublishing {
        meta := meta[post.id := m.(flags := m.flags.(needsPublishing := false))];
        return Some(Lifecycle.InsertPublish);
      }
      if m.flags.needsUpdating {
        meta := meta[post.id := m.(flags := m.flags.(needsUpdating := false))];
        return Some(Lifecycle.InsertUpdate);
      }
      if newStatus == "publish" && newStatus != oldStatus {
        if !isRest {
          return Some(Lifecycle.InsertPublish);
        }
        if isGutenberg {
          meta := meta[post.id := m.(flags := m.flags.(needsPublishing := true))];
          return None;
        }
        return Some(Lifecycle.RestPublish);
      }
      if newStatus == "publish" && oldStatus == "publish" {
        if !isRest {
          return Some(Lifecycle.InsertUpdate);
        }
        if isGutenberg {
          meta := meta[post.id := m.(flags := m.flags.(needsUpdating := true))];
          return None;
        }
        return Some(Lifecycle.RestUpdate);
      }
      return None;
    }
  }
}
