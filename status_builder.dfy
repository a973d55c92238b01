/**
 * The pure parts of building the statuses a publish cycle sends: the API
 * arguments `build_args` assembles for one status, with the featured image mode
 * coerced to what the network accepts, and the choice of which profiles, which
 * action settings and which status templates take part.
 */
module StatusBuilder {
  import opened Wrappers
  import Common

  // ---------------------------------------------------------------------
  // Inputs
  // ---------------------------------------------------------------------

  /** The featured image of a post: the URLs of its `large` and `thumbnail` sizes. */
  datatype FeaturedImage = FeaturedImage(large: string, thumbnail: string)

  /**
   * What the publish cycle reads of a post. Title and excerpt are what the
   * plugin's own `get_title` / `get_excerpt` return; `featuredImage` is present
   * when the post has a thumbnail id greater than 0; `replacements` is the tag
   * table `register_all_possible_searches_replacements` builds for the post.
   */
  datatype Post = Post(
    id: nat,
    postType: string,
    content: string,
    title: string,
    excerpt: string,
    permalink: string,
    featuredImage: Option<FeaturedImage>,
    replacements: map<string, string>)

  /**
   * One status template of an action: its message, its schedule option and its
   * image mode. `image` is `None` for the empty string, `Some(n)` for a number.
   */
  datatype StatusSetting = StatusSetting(message: string, schedule: string, image: Option<int>)

  /** A social media profile as the API lists it. */
  datatype Profile = Profile(id: string, service: string, formattedService: string, formattedUsername: string)

  // ---------------------------------------------------------------------
  // build_args
  // ---------------------------------------------------------------------

  /** The `media` block: linked to the post (mode 1) or not (mode 2). */
  datatype Media =
    | LinkedMedia(link: string, description: string, title: string, picture: string)
    | UnlinkedMedia(description: string, title: string, picture: string, thumbnail: string)

  /** The API arguments of one status; `top` and `now` are present only when true. */
  datatype Args = Args(
    profileIds: seq<string>,
    text: string,
    shorten: bool,
    top: bool,
    now: bool,
    media: Option<Media>)

  /**
   * The image mode after the network's constraints: Twitter cannot link the
   * image to the post, Pinterest and Instagram always get a plain image.
   */
  function CoerceImage(service: Option<string>, image: Option<int>): (r: Option<int>)
    ensures service == Some("twitter") ==> r != Some(Common.LinkedImage)
    ensures service == Some("pinterest") || service == Some("instagram") ==> r == Some(Common.UnlinkedImage)
    ensures service != Some("twitter") && service != Some("pinterest") && service != Some("instagram") ==> r == image
  {
    match service
    case Some("twitter") => if image == Some(1) then Some(2) else image
    case Some("pinterest") => Some(2)
    case Some("instagram") => Some(2)
    case _ => image
  }

  /** Every image mode that reaches the API is one the network offers (no linked image on Twitter, only plain images on Pinterest and Instagram). */
  lemma CoercedImageAllowed(service: Option<string>, image: Option<int>)
    requires var r := CoerceImage(service, image); r.Some? && 0 <= r.value <= 2
    ensures Common.ImageModeAllowed(service, CoerceImage(service, image).value)
  {
  }

  /** The media block for an image mode, if the post has a featured image. */
  function MediaFor(post: Post, image: Option<int>): Option<Media> {
    match post.featuredImage
    case None => None
    case Some(f) =>
      if image == Some(1) then Some(LinkedMedia(post.permalink, post.excerpt, post.title, f.large))
      else if image == Some(2) then Some(UnlinkedMedia(post.excerpt, post.title, f.large, f.thumbnail))
      else None
  }

  /**
   * `build_args`, given the already parsed status text: one profile, URL
   * shortening on, the schedule flag, and the media block for the coerced mode.
   */
  function BuildArgs(post: Post, profileId: string, service: Option<string>, status: StatusSetting, text: string): (a: Args)
    ensures a.profileIds == [profileId] && a.text == text && a.shorten
    ensures a.top <==> status.schedule == "queue_top"
    ensures a.now <==> status.schedule == "now"
    ensures !(a.top && a.now)
    ensures a.media.Some? <==> post.featuredImage.Some? && CoerceImage(service, status.image) in {Some(1), Some(2)}
  {
    Args([profileId], text, true, status.schedule == "queue_top", status.schedule == "now",
         MediaFor(post, CoerceImage(service, status.image)))
  }

  /** A linked media block carries the post's permalink and the large image; a plain one adds the thumbnail instead. */
  lemma BuildArgsMedia(post: Post, profileId: string, service: Option<string>, status: StatusSetting, text: string)
    requires post.featuredImage.Some?
    ensures var a := BuildArgs(post, profileId, service, status, text);
      var f := post.featuredImage.value;
      && (CoerceImage(service, status.image) == Some(1) ==>
            a.media == Some(LinkedMedia(post.permalink, post.excerpt, post.title, f.large)))
      && (CoerceImage(service, status.image) == Some(2) ==>
            a.media == Some(UnlinkedMedia(post.excerpt, post.title, f.large, f.thumbnail)))
  {
  }

  /** Twitter never receives an image linked to the post. */
  lemma TwitterNeverLinked(post: Post, profileId: string, status: StatusSetting, text: string)
    ensures var a := BuildArgs(post, profileId, Some("twitter"), status, text);
      a.media.None? || a.media.value.UnlinkedMedia?
  {
  }

  /** Pinterest and Instagram get a plain image whenever the post has one, whatever the template says. */
  lemma ImageNetworksAlwaysGetImage(post: Post, profileId: string, service: string, status: StatusSetting, text: string)
    requires service == "pinterest" || service == "instagram"
    ensures var a := BuildArgs(post, profileId, Some(service), status, text);
      a.media.Some? <==> post.featuredImage.Some?
    ensures var a := BuildArgs(post, profileId, Some(service), status, text);
      a.media.Some? ==> a.media.value.UnlinkedMedia?
  {
  }

  // ---------------------------------------------------------------------
  // Settings and the choice of statuses in publish()
  // ---------------------------------------------------------------------

  /** The settings of one action of one profile; a missing one reads as disabled with no statuses. */
  datatype ActionSettings = ActionSettings(enabled: bool, statuses: seq<StatusSetting>)

  /** The settings stored under one key of a post type's settings. */
  datatype ProfileSettings = ProfileSettings(enabled: bool, override: bool, actions: map<string, ActionSettings>)

  /** A post type's settings, keyed by profile id (or `default`, or a non-profile key), in stored order. */
  type Settings = seq<(string, ProfileSettings)>

  function ActionOf(p: ProfileSettings, action: string): ActionSettings {
    if action in p.actions then p.actions[action] else ActionSettings(false, [])
  }

  /** `get_setting( $post_type, '[key][action]…' )`: the first entry stored under `key`. */
  function SettingsFor(settings: Settings, key: string): Option<ProfileSettings> {
    if settings == [] then None
    else if settings[0].0 == key then Some(settings[0].1)
    else SettingsFor(settings[1..], key)
  }

  /** `$profiles[ $id ]` and the service loop: the first profile listed with that id. */
  function FindProfile(profiles: seq<Profile>, id: string): (r: Option<Profile>)
    ensures r.Some? ==> r.value in profiles && r.value.id == id
    ensures r.Some? ==> exists k :: 0 <= k < |profiles| && profiles[k] == r.value && forall j :: 0 <= j < k ==> profiles[j].id != id
    ensures r.None? ==> forall p :: p in profiles ==> p.id != id
  {
    if profiles == [] then None
    else if profiles[0].id == id then Some(profiles[0])
    else FindProfile(profiles[1..], id)
  }

  /** Keys of a settings array that do not name a profile. */
  predicate IsNonProfileKey(key: string) {
    key == "featured_image" || key == "additional_images" || key == "override"
  }

  /** Whether the entry is a profile that still exists and is not a Google profile. */
  predicate KnownProfile(key: string, profiles: seq<Profile>) {
    && !IsNonProfileKey(key)
    && (key == "default" || FindProfile(profiles, key).Some?)
    && (key == "default" || FindProfile(profiles, key).value.service != "google")
  }

  /**
   * The action settings that apply to a profile: its own when it overrides the
   * defaults or is a Pinterest profile, the `default` ones otherwise.
   */
  function ActionSettingsFor(settings: Settings, key: string, own: ProfileSettings, profiles: seq<Profile>, action: string): ActionSettings {
    var pinterest := FindProfile(profiles, key).Some? && FindProfile(profiles, key).value.service == "pinterest";
    if own.override || pinterest then ActionOf(own, action)
    else match SettingsFor(settings, "default")
      case Some(d) => ActionOf(d, action)
      case None => ActionSettings(false, [])
  }

  /** The status templates one settings entry contributes: none unless the profile and the action are enabled. */
  function EntryStatuses(settings: Settings, entry: (string, ProfileSettings), profiles: seq<Profile>, action: string): seq<StatusSetting> {
    if Contributes(settings, entry, profiles, action) then ActionSettingsFor(settings, entry.0, entry.1, profiles, action).statuses
    else []
  }

  /** Whether an entry gets past every `continue` of the loop: a known profile, enabled, with its action enabled. */
  predicate Contributes(settings: Settings, entry: (string, ProfileSettings), profiles: seq<Profile>, action: string) {
    && KnownProfile(entry.0, profiles)
    && entry.1.enabled
    && ActionSettingsFor(settings, entry.0, entry.1, profiles, action).enabled
  }

  /** One status chosen to be built: its profile, the service in `$service` at that point, and its template. */
  datatype Chosen = Chosen(profileId: string, service: Option<string>, status: StatusSetting)

  /**
   * `$service` after an entry: replaced when a profile with the entry's id is
   * listed, left as it was otherwise (so `default` inherits the previous one).
   */
  function NextService(profiles: seq<Profile>, key: string, service: Option<string>): Option<string> {
    match FindProfile(profiles, key)
    case Some(p) => Some(p.service)
    case None => service
  }

  function Tag(profileId: string, service: Option<string>, statuses: seq<StatusSetting>): (r: seq<Chosen>)
    ensures |r| == |statuses|
    ensures forall k :: 0 <= k < |r| ==> r[k] == Chosen(profileId, service, statuses[k])
  {
    if statuses == [] then [] else [Chosen(profileId, service, statuses[0])] + Tag(profileId, service, statuses[1..])
  }

  /**
   * The statuses of `settings[from..]` in order, with `$service` as it stands
   * after `settings[..from]` (the service lookup runs only for enabled entries).
   */
  function ChooseFrom(all: Settings, from: nat, profiles: seq<Profile>, action: string, service: Option<string>): seq<Chosen>
    requires from <= |all|
    decreases |all| - from
  {
    if from == |all| then []
    else
      var entry := all[from];
      var statuses := EntryStatuses(all, entry, profiles, action);
      var enabled := Contributes(all, entry, profiles, action);
      var s := if enabled then NextService(profiles, entry.0, service) else service;
      Tag(entry.0, s, statuses) + ChooseFrom(all, from + 1, profiles, action, s)
  }

  /** The statuses `publish` builds for one action, before any service is known. */
  function Choose(settings: Settings, profiles: seq<Profile>, action: string): seq<Chosen> {
    ChooseFrom(settings, 0, profiles, action, None)
  }

  /**
   * The `foreach` over the settings in `publish`: skip keys that are not
   * profiles, profiles the API no longer lists and Google profiles; take the
   * action settings from the profile or from `default`; skip disabled profiles
   * and actions; look up `$service`; queue every status template.
   */
  method SelectStatuses(settings: Settings, profiles: seq<Profile>, action: string) returns (chosen: seq<Chosen>)
    ensures chosen == Choose(settings, profiles, action)
  {
    chosen := [];
    var service: Option<string> := None;
    var i := 0;
    while i < |settings|
      invariant 0 <= i <= |settings|
      invariant chosen + ChooseFrom(settings, i, profiles, action, service) == Choose(settings, profiles, action)
    {
      var key := settings[i].0;
      var own := settings[i].1;
      ghost var before := service;
      var skip := IsNonProfileKey(key)
        || (key != "default" && FindProfile(profiles, key).None?)
        || (key != "default" && FindProfile(profiles, key).value.service == "google");
      assert skip <==> !KnownProfile(key, profiles);
      var contributes := false;
      if !skip {
        var a := ActionSettingsFor(settings, key, own, profiles, action);
        contributes := own.enabled && a.enabled;
      }
      assert contributes == Contributes(settings, settings[i], profiles, action);
      var queued: seq<Chosen> := [];
      if contributes {
        var statuses := ActionSettingsFor(settings, key, own, profiles, action).statuses;
        assert statuses == EntryStatuses(settings, settings[i], profiles, action);
        service := NextService(profiles, key, service);
        queued := QueueStatuses(key, service, statuses);
      } else {
        assert EntryStatuses(settings, settings[i], profiles, action) == [];
      }
      ChooseAdvance(chosen, settings, i, profiles, action, before, service, queued);
      chosen := chosen + queued;
      i := i + 1;
    }
  }

  /** The inner `foreach`: one `build_args` per status template of the profile, in order. */
  method QueueStatuses(key: string, service: Option<string>, statuses: seq<StatusSetting>) returns (queued: seq<Chosen>)
    ensures queued == Tag(key, service, statuses)
  {
    queued := [];
    var k := 0;
    while k < |statuses|
      invariant 0 <= k <= |statuses|
      invariant |queued| == k
      invariant forall j :: 0 <= j < k ==> queued[j] == Chosen(key, service, statuses[j])
    {
      queued := queued + [Chosen(key, service, statuses[k])];
      k := k + 1;
    }
  }

  /** One turn of the profile loop: what the entry adds, then the rest with the service it leaves behind. */
  lemma ChooseAdvance(done: seq<Chosen>, all: Settings, from: nat, profiles: seq<Profile>, action: string,
                      service: Option<string>, service': Option<string>, added: seq<Chosen>)
    requires from < |all|
    requires service' == if Contributes(all, all[from], profiles, action) then NextService(profiles, all[from].0, service) else service
    requires added == Tag(all[from].0, service', EntryStatuses(all, all[from], profiles, action))
    ensures (done + added) + ChooseFrom(all, from + 1, profiles, action, service')
            == done + ChooseFrom(all, from, profiles, action, service)
  {
    ChooseFromUnfold(all, from, profiles, action, service);
    var rest := ChooseFrom(all, from + 1, profiles, action, service');
    assert ChooseFrom(all, from, profiles, action, service) == added + rest;
    assert (done + added) + rest == done + (added + rest);
  }

  lemma ChooseFromUnfold(all: Settings, from: nat, profiles: seq<Profile>, action: string, service: Option<string>)
    requires from < |all|
    ensures var e := all[from];
      var s := if Contributes(all, e, profiles, action) then NextService(profiles, e.0, service) else service;
      ChooseFrom(all, from, profiles, action, service)
        == Tag(e.0, s, EntryStatuses(all, e, profiles, action)) + ChooseFrom(all, from + 1, profiles, action, s)
  {
  }

  /** Every chosen status comes from an enabled, still existing, non-Google profile and an enabled action. */
  lemma {:induction false} ChooseFromSound(all: Settings, from: nat, profiles: seq<Profile>, action: string, service: Option<string>)
    requires from <= |all|
    ensures forall c :: c in ChooseFrom(all, from, profiles, action, service) ==>
      exists i :: from <= i < |all| && all[i].0 == c.profileId && c.status in EntryStatuses(all, all[i], profiles, action)
    decreases |all| - from
  {
    if from < |all| {
      var entry := all[from];
      var statuses := EntryStatuses(all, entry, profiles, action);
      var enabled := Contributes(all, entry, profiles, action);
      var s := if enabled then NextService(profiles, entry.0, service) else service;
      ChooseFromSound(all, from + 1, profiles, action, s);
      var head := Tag(entry.0, s, statuses);
      forall c | c in ChooseFrom(all, from, profiles, action, service)
        ensures exists i :: from <= i < |all| && all[i].0 == c.profileId && c.status in EntryStatuses(all, all[i], profiles, action)
      {
        if c in head {
          var k :| 0 <= k < |head| && head[k] == c;
          assert all[from].0 == c.profileId && c.status == statuses[k];
        } else {
          assert c in ChooseFrom(all, from + 1, profiles, action, s);
        }
      }
    }
  }

  /** Every status template of every contributing entry is chosen. */
  lemma {:induction false} ChooseFromComplete(all: Settings, from: nat, profiles: seq<Profile>, action: string, service: Option<string>)
    requires from <= |all|
    ensures forall i, st :: from <= i < |all| && st in EntryStatuses(all, all[i], profiles, action) ==>
      exists c :: c in ChooseFrom(all, from, profiles, action, service) && c.profileId == all[i].0 && c.status == st
    decreases |all| - from
  {
    if from < |all| {
      var entry := all[from];
      var statuses := EntryStatuses(all, entry, profiles, action);
      var enabled := Contributes(all, entry, profiles, action);
      var s := if enabled then NextService(profiles, entry.0, service) else service;
      ChooseFromComplete(all, from + 1, profiles, action, s);
      var head := Tag(entry.0, s, statuses);
      var r := ChooseFrom(all, from, profiles, action, service);
      assert r == head + ChooseFrom(all, from + 1, profiles, action, s);
      forall i, st | from <= i < |all| && st in EntryStatuses(all, all[i], profiles, action)
        ensures exists c :: c in r && c.profileId == all[i].0 && c.status == st
      {
        if i == from {
          var k :| 0 <= k < |statuses| && statuses[k] == st;
          assert head[k] in r;
        } else {
          var c :| c in ChooseFrom(all, from + 1, profiles, action, s) && c.profileId == all[i].0 && c.status == st;
          assert c in r;
        }
      }
    }
  }

  /** A status chosen for a listed profile is sent with that profile's own service. */
  lemma {:induction false} ChooseFromService(all: Settings, from: nat, profiles: seq<Profile>, action: string, service: Option<string>)
    requires from <= |all|
    ensures forall c :: c in ChooseFrom(all, from, profiles, action, service) && FindProfile(profiles, c.profileId).Some? ==>
      c.service == Some(FindProfile(profiles, c.profileId).value.service)
    decreases |all| - from
  {
    if from < |all| {
      var entry := all[from];
      var statuses := EntryStatuses(all, entry, profiles, action);
      var enabled := Contributes(all, entry, profiles, action);
      var s := if enabled then NextService(profiles, entry.0, service) else service;
      ChooseFromService(all, from + 1, profiles, action, s);
      var head := Tag(entry.0, s, statuses);
      forall c | c in head && FindProfile(profiles, c.profileId).Some?
        ensures c.service == Some(FindProfile(profiles, c.profileId).value.service)
      {
        var k :| 0 <= k < |head| && head[k] == c;
        assert statuses != [];
      }
    }
  }

  /**
   * `$service` as the settings loop leaves it after `all[from..i]`, starting
   * from `service`: each contributing entry runs the service lookup in turn.
   */
  function ServiceAfter(all: Settings, from: nat, i: nat, profiles: seq<Profile>, action: string, service: Option<string>): Option<string>
    requires from <= i <= |all|
    decreases i - from
  {
    if from == i then service
    else
      var s := if Contributes(all, all[from], profiles, action) then NextService(profiles, all[from].0, service) else service;
      ServiceAfter(all, from + 1, i, profiles, action, s)
  }

  /**
   * A status chosen for an entry whose key the API does not list (the
   * `default` entry) is built with `$service` exactly as the entries before it
   * left it, wherever that entry stands in the settings.
   */
  lemma {:induction false} DefaultInheritsService(all: Settings, from: nat, i: nat, profiles: seq<Profile>, action: string,
                                                  service: Option<string>, st: StatusSetting)
    requires from <= i < |all|
    requires FindProfile(profiles, all[i].0).None?
    requires st in EntryStatuses(all, all[i], profiles, action)
    ensures Chosen(all[i].0, ServiceAfter(all, from, i, profiles, action, service), st)
      in ChooseFrom(all, from, profiles, action, service)
    decreases i - from
  {
    var e := all[from];
    var s := if Contributes(all, e, profiles, action) then NextService(profiles, e.0, service) else service;
    ChooseFromUnfold(all, from, profiles, action, service);
    if from == i {
      var statuses := EntryStatuses(all, e, profiles, action);
      assert s == service;
      var k :| 0 <= k < |statuses| && statuses[k] == st;
      assert Tag(e.0, s, statuses)[k] == Chosen(e.0, service, st);
    } else {
      DefaultInheritsService(all, from + 1, i, profiles, action, s, st);
    }
  }

}
