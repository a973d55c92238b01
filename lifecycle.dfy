/**
 * The decision `transition_post_status` takes when WordPress moves a post from
 * one status to another: which publish handler, if any, to hook for later in
 * the request, and how the per-post deferral flags change. The flags carry a
 * publish or update across the two requests the block editor sends (a REST
 * request with the post, then a classic request with the meta boxes).
 */
module Lifecycle {
  import opened Wrappers
  import PhpStrings

  /** The handlers that can be hooked: on `wp_insert_post`, or on the REST API's late `rest_after_insert_*` action. */
  datatype Handler = InsertPublish | InsertUpdate | RestPublish | RestUpdate

  /** The per-post `_needs_publishing` / `_needs_updating` meta flags. */
  datatype Flags = Flags(needsPublishing: bool, needsUpdating: bool)

  /** The handler hooked by this call, if any, and the flags it leaves. */
  datatype Decision = Decision(handler: Option<Handler>, flags: Flags)

  /** The block markup marker `is_gutenberg_post_content` looks for. */
  const BlockMarker := "<!-- wp:"

  /** `is_gutenberg_post_content`: the content holds block markup. */
  function IsGutenbergPostContent(content: string): (b: bool)
    ensures b <==> exists i :: PhpStrings.OccursAt(content, BlockMarker, i)
  {
    PhpStrings.ContainsIff(content, BlockMarker);
    PhpStrings.Contains(content, BlockMarker)
  }

  /**
   * `is_gutenberg_post`: block markup in the content, or else what the post type
   * registry says about the block editor (passed in, since it is WordPress state).
   */
  function IsGutenbergPost(content: string, blockEditorEnabled: bool): (b: bool)
    ensures IsGutenbergPostContent(content) ==> b
    ensures !blockEditorEnabled ==> (b <==> IsGutenbergPostContent(content))
  {
    IsGutenbergPostContent(content) || blockEditorEnabled
  }

  /** Statuses on which nothing happens: the new post screen, a saved draft, a revision, the trash. */
  predicate IsIgnoredStatus(status: string) {
    status == "auto-draft" || status == "draft" || status == "inherit" || status == "trash"
  }

  /** A first publish or an update, on the classic path, the deferred block editor path or the REST path. */
  function Dispatch(isRest: bool, isGutenberg: bool, flags: Flags, publish: bool): Decision {
    if !isRest then Decision(Some(if publish then InsertPublish else InsertUpdate), flags)
    else if isGutenberg then
      Decision(None, if publish then flags.(needsPublishing := true) else flags.(needsUpdating := true))
    else Decision(Some(if publish then RestPublish else RestUpdate), flags)
  }

  /**
   * `transition_post_status`: nothing for a post type that is not offered or an
   * ignored status; a pending deferral is consumed first; then publish (the
   * status became `publish`) or update (it stayed `publish`).
   */
  function Transition(newStatus: string, oldStatus: string, typeSupported: bool,
                      isRest: bool, isGutenberg: bool, flags: Flags): (d: Decision)
    ensures d.handler.Some? ==> d.flags == flags || d.flags == flags.(needsPublishing := false) || d.flags == flags.(needsUpdating := false)
  {
    if !typeSupported || IsIgnoredStatus(newStatus) then Decision(None, flags)
    else if flags.needsPublishing then Decision(Some(InsertPublish), flags.(needsPublishing := false))
    else if flags.needsUpdating then Decision(Some(InsertUpdate), flags.(needsUpdating := false))
    else if newStatus == "publish" && newStatus != oldStatus then Dispatch(isRest, isGutenberg, flags, true)
    else if newStatus == "publish" && oldStatus == "publish" then Dispatch(isRest, isGutenberg, flags, false)
    else Decision(None, flags)
  }

  /** Drafts, revisions, the trash and unsupported post types change nothing and hook nothing. */
  lemma IgnoredTransitionsHaveNoEffect(newStatus: string, oldStatus: string, typeSupported: bool,
                                       isRest: bool, isGutenberg: bool, flags: Flags)
    requires !typeSupported || IsIgnoredStatus(newStatus)
    ensures Transition(newStatus, oldStatus, typeSupported, isRest, isGutenberg, flags) == Decision(None, flags)
  {
  }

  /** A pending deferral is consumed before anything else and hooks exactly its own insert handler. */
  lemma PendingFlagConsumedFirst(newStatus: string, oldStatus: string, isRest: bool, isGutenberg: bool, flags: Flags)
    requires !IsIgnoredStatus(newStatus)
    requires flags.needsPublishing || flags.needsUpdating
    ensures var d := Transition(newStatus, oldStatus, true, isRest, isGutenberg, flags);
      && (flags.needsPublishing ==> d == Decision(Some(InsertPublish), flags.(needsPublishing := false)))
      && (!flags.needsPublishing ==> d == Decision(Some(InsertUpdate), Flags(false, false)))
  {
  }

  /** A REST request on a block editor post, with no deferral pending, only sets the flag and hooks nothing. */
  lemma RestGutenbergOnlyDefers(newStatus: string, oldStatus: string, flags: Flags)
    requires newStatus == "publish" && flags == Flags(false, false)
    ensures var d := Transition(newStatus, oldStatus, true, true, true, flags);
      && d.handler == None
      && d.flags == (if oldStatus == "publish" then Flags(false, true) else Flags(true, false))
  {
  }

  /** A handler is hooked only when the post is (or stays) published, or a deferral was pending. */
  lemma HandlerNeedsPublishOrPending(newStatus: string, oldStatus: string, typeSupported: bool,
                                     isRest: bool, isGutenberg: bool, flags: Flags)
    requires Transition(newStatus, oldStatus, typeSupported, isRest, isGutenberg, flags).handler.Some?
    ensures typeSupported && !IsIgnoredStatus(newStatus)
    ensures newStatus == "publish" || flags.needsPublishing || flags.needsUpdating
  {
  }

  /** An update that is not a publish never hooks a publish handler, and a first publish never hooks an update handler. */
  lemma HandlerMatchesTransition(newStatus: string, oldStatus: string, isRest: bool, isGutenberg: bool)
    requires newStatus == "publish"
    ensures var d := Transition(newStatus, oldStatus, true, isRest, isGutenberg, Flags(false, false));
      && (oldStatus != "publish" ==> d.handler != Some(InsertUpdate) && d.handler != Some(RestUpdate))
      && (oldStatus == "publish" ==> d.handler != Some(InsertPublish) && d.handler != Some(RestPublish))
  {
  }

  /**
   * The block editor's two requests on a first publish: the REST request
   * defers, the classic request that follows (which WordPress reports as
   * publish to publish) runs the publish handler once and clears the flag.
   */
  lemma BlockEditorPublishRunsOnce(oldStatus: string)
    requires oldStatus != "publish"
    ensures var first := Transition("publish", oldStatus, true, true, true, Flags(false, false));
      var second := Transition("publish", "publish", true, false, true, first.flags);
      && first.handler == None
      && second == Decision(Some(InsertPublish), Flags(false, false))
  {
  }

  // ---------------------------------------------------------------------
  // The update cooldown of wp_insert_post_update
  // ---------------------------------------------------------------------

  /** Seconds after `_last_sent` during which an update is not sent again. */
  const Cooldown := 5

  /**
   * Whether `wp_insert_post_update` goes on to publish: no `_last_sent`
   * (missing or 0 both count as empty) or at least 5 seconds have passed.
   */
  function UpdateAllowed(lastSent: Option<int>, now: int): (b: bool)
    ensures !b <==> lastSent.Some? && lastSent.value != 0 && now - lastSent.value < Cooldown
  {
    match lastSent
    case None => true
    case Some(t) => t == 0 || now - t >= Cooldown
  }

  /** An update requested within 5 seconds of a send is suppressed; one 5 or more seconds later goes through. */
  lemma CooldownWindow(sent: int, now: int)
    requires sent != 0
    ensures UpdateAllowed(Some(sent), now) <==> now >= sent + 5
  {
  }
}
