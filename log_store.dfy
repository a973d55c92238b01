/**
 * The per-post log of requests sent to the API: appending results, clearing the
 * log, clearing only pending (cron) entries, and classifying each entry for
 * display as success, pending or error.
 */
module LogStore {
  import opened Wrappers
  import PhpStrings
  import StatusBuilder

  /**
   * One log entry. Optional fields are `None` when the key is not set; an entry
   * without `success` reads as not successful, as it does everywhere the log is read.
   */
  datatype LogEntry = LogEntry(
    date: int,
    success: bool,
    status: Option<StatusBuilder.Args>,
    profileName: Option<string>,
    profile: Option<string>,
    message: string,
    statusText: Option<string>,
    statusCreatedAt: Option<int>,
    statusDueAt: Option<int>)

  /** The log stored for a post, or the empty log when there is none. */
  function Stored(logs: map<int, seq<LogEntry>>, postId: int): seq<LogEntry> {
    if postId in logs then logs[postId] else []
  }

  // ---------------------------------------------------------------------
  // clear_pending_log's test and filter
  // ---------------------------------------------------------------------

  /** The test `clear_pending_log` removes by: successful, but with no status created at the API yet. */
  predicate IsPendingEntry(e: LogEntry) {
    e.success && e.statusCreatedAt.None?
  }

  /** The log after `clear_pending_log`'s `foreach` / `unset` and `array_values`. */
  function WithoutPending(log: seq<LogEntry>): (r: seq<LogEntry>)
    ensures |r| <= |log|
  {
    if log == [] then []
    else (if IsPendingEntry(log[0]) then [] else [log[0]]) + WithoutPending(log[1..])
  }

  /** Filtering distributes over appending, so the order of the kept entries is the order they had. */
  lemma {:induction false} WithoutPendingAppend(a: seq<LogEntry>, b: seq<LogEntry>)
    ensures WithoutPending(a + b) == WithoutPending(a) + WithoutPending(b)
    decreases |a|
  {
    if a == [] {
      assert a + b == b;
    } else {
      assert (a + b)[0] == a[0];
      assert (a + b)[1..] == a[1..] + b;
      WithoutPendingAppend(a[1..], b);
    }
  }

  /** Exactly the entries that are not pending are kept. */
  lemma {:induction false} WithoutPendingMembers(log: seq<LogEntry>)
    ensures forall e :: e in WithoutPending(log) <==> e in log && !IsPendingEntry(e)
  {
    if log != [] {
      WithoutPendingMembers(log[1..]);
      assert log == [log[0]] + log[1..];
    }
  }

  /** Clearing a second time removes nothing more. */
  lemma {:induction false} WithoutPendingIdempotent(log: seq<LogEntry>)
    ensures WithoutPending(WithoutPending(log)) == WithoutPending(log)
  {
    if log != [] {
      WithoutPendingIdempotent(log[1..]);
      var head := if IsPendingEntry(log[0]) then [] else [log[0]];
      WithoutPendingAppend(head, WithoutPending(log[1..]));
      if !IsPendingEntry(log[0]) {
        assert WithoutPending(head) == head by {
          assert head[1..] == [];
        }
      }
    }
  }

  /** The number of entries removed is the number of pending ones. */
  function CountPending(log: seq<LogEntry>): nat {
    if log == [] then 0 else (if IsPendingEntry(log[0]) then 1 else 0) + CountPending(log[1..])
  }

  lemma {:induction false} WithoutPendingLength(log: seq<LogEntry>)
    ensures |WithoutPending(log)| == |log| - CountPending(log)
  {
    if log != [] {
      WithoutPendingLength(log[1..]);
    }
  }

  // ---------------------------------------------------------------------
  // The store
  // ---------------------------------------------------------------------

  /** `absint( $_REQUEST['post'] )` when no post id is given, the given id otherwise. */
  function ResolvePostId(postId: int, requestPost: Option<string>): (id: int)
    ensures postId != 0 ==> id == postId
    ensures postId == 0 && requestPost.None? ==> id == 0
    ensures id >= 0 || id == postId
  {
    if postId == 0 && requestPost.Some? then PhpStrings.AbsInt(requestPost.value) else postId
  }

  /** The logs of all posts, as stored in post meta. */
  class Log {
    var logs: map<int, seq<LogEntry>>

    constructor(initial: map<int, seq<LogEntry>>)
      ensures logs == initial
    {
      logs := initial;
    }

    /** `update_log`: the old log followed by the new entries, or the new entries alone. */
    method UpdateLog(postId: int, entries: seq<LogEntry>) returns (ok: bool)
      modifies this
      ensures ok
      ensures logs == old(logs)[postId := Stored(old(logs), postId) + entries]
    {
      var merged := if postId in logs then logs[postId] + entries else entries;
      assert merged == Stored(logs, postId) + entries;
      logs := logs[postId := merged];
      ok := true;
    }

    /**
     * `clear_log`: resolve the post id, then delete its log. `delete_post_meta`
     * reports whether there was one to delete.
     */
    method ClearLog(postId: int, requestPost: Option<string>) returns (ok: bool)
      modifies this
      ensures var id := ResolvePostId(postId, requestPost);
        && (ok <==> id != 0 && id in old(logs))
        && (id != 0 ==> logs == old(logs) - {id})
        && (id == 0 ==> logs == old(logs))
    {
      var id := if postId == 0 && requestPost.Some? then PhpStrings.AbsInt(requestPost.value) else postId;
      if id == 0 {
        ok := false;
        return;
      }
      ok := id in logs;
      logs := logs - {id};
    }

    /**
     * `clear_pending_log`: for a post with a non-empty log, remove the pending
     * entries one by one and store what remains.
     */
    method ClearPendingLog(postId: int) returns (ok: bool)
      modifies this
      ensures ok <==> postId != 0 && Stored(old(logs), postId) != []
      ensures ok ==> logs == old(logs)[postId := WithoutPending(old(logs)[postId])]
      ensures !ok ==> logs == old(logs)
    {
      if postId == 0 || postId !in logs || logs[postId] == [] {
        ok := false;
        return;
      }
      var log := logs[postId];
      var kept: seq<LogEntry> := [];
      var i := 0;
      while i < |log|
        invariant 0 <= i <= |log|
        invariant kept == WithoutPending(log[..i])
        invariant logs == old(logs)
      {
        WithoutPendingAppend(log[..i], [log[i]]);
        assert log[..i + 1] == log[..i] + [log[i]];
        if !IsPendingEntry(log[i]) {
          kept := kept + [log[i]];
        }
        i := i + 1;
      }
      assert log[..i] == log;
      logs := logs[postId := kept];
      ok := true;
    }
  }

  /** Entries appended after a clear are cleared the same way: clearing the merged log is clearing each part. */
  lemma ClearPendingAfterUpdate(old_: seq<LogEntry>, entries: seq<LogEntry>)
    ensures WithoutPending(old_ + entries) == WithoutPending(old_) + WithoutPending(entries)
    ensures (forall e :: e in entries ==> !IsPendingEntry(e)) ==>
      WithoutPending(old_ + entries) == WithoutPending(old_) + entries
  {
    WithoutPendingAppend(old_, entries);
    if forall e :: e in entries ==> !IsPendingEntry(e) {
      NoPendingKept(entries);
    }
  }

  lemma {:induction false} NoPendingKept(log: seq<LogEntry>)
    requires forall e :: e in log ==> !IsPendingEntry(e)
    ensures WithoutPending(log) == log
  {
    if log != [] {
      assert log[0] in log;
      NoPendingKept(log[1..]);
    }
  }

  // ---------------------------------------------------------------------
  // build_log_output_array
  // ---------------------------------------------------------------------

  /** The value of a row's `status_created` key. */
  datatype Classification = Success | Pending | Error

  /**
   * A date cell: a message shown as is, a timestamp to be formatted for display,
   * or `date_i18n` given no timestamp at all (it then formats the current time).
   */
  datatype Shown = Text(text: string) | Timestamp(time: int) | CurrentTime

  /** One output row; an `Option` field is `None` where the row holds `false`. */
  datatype Row = Row(
    requestSent: int,
    statusCreated: Classification,
    profile: string,
    statusText: Option<string>,
    statusCreatedAt: Option<Shown>,
    statusDueAt: Option<Shown>)

  /** success: sent and created at the API; pending: sent, not yet created; error: anything else. */
  function Classify(e: LogEntry): (c: Classification)
    ensures c == Success <==> e.success && e.statusCreatedAt.Some?
    ensures c == Pending <==> e.success && e.statusCreatedAt.None?
    ensures c == Error <==> !e.success
  {
    if e.success && e.statusCreatedAt.Some? then Success
    else if e.success then Pending
    else Error
  }

  /** The entries `clear_pending_log` removes are exactly those shown as pending. */
  lemma PendingIff(e: LogEntry)
    ensures IsPendingEntry(e) <==> Classify(e) == Pending
  {
  }

  /** The `formatted_service: formatted_username` label of a listed profile. */
  function ProfileLabel(p: StatusBuilder.Profile): string {
    p.formattedService + ": " + p.formattedUsername
  }

  /**
   * The profile column: the stored profile name, else the label of the status's
   * first profile if the profiles are given and list it, else that raw id
   * (empty when the status has none), else "N/A".
   */
  function ProfileColumn(e: LogEntry, profiles: Option<seq<StatusBuilder.Profile>>): string {
    match e.profileName
    case Some(name) => name
    case None =>
      match e.status
      case None => "N/A"
      case Some(s) =>
        if s.profileIds == [] then ""
        else if profiles.Some? && StatusBuilder.FindProfile(profiles.value, s.profileIds[0]).Some? then
          ProfileLabel(StatusBuilder.FindProfile(profiles.value, s.profileIds[0]).value)
        else s.profileIds[0]
  }

  /** The status text a success or pending row shows: the stored one, else the text of the status sent. */
  function SentText(e: LogEntry): Option<string> {
    if e.statusText.Some? then e.statusText
    else if e.status.Some? then Some(e.status.value.text)
    else None
  }

  /** The row for one entry. */
  function RowOf(e: LogEntry, profiles: Option<seq<StatusBuilder.Profile>>): (r: Row)
    ensures r.statusCreated == Classify(e)
    ensures r.requestSent == e.date
  {
    var base := Row(e.date, Classify(e), ProfileColumn(e, profiles), None, None, None);
    match Classify(e)
    case Error => base.(statusText := Some(e.message))
    case Pending => base.(statusText := SentText(e), statusCreatedAt := Some(Text(e.message)))
    case Success =>
      base.(statusText := SentText(e),
            statusCreatedAt := Some(Timestamp(e.statusCreatedAt.value)),
            statusDueAt := if e.statusDueAt.Some? then Some(Timestamp(e.statusDueAt.value)) else Some(CurrentTime))
  }

  /** What each kind of row shows: the error message, the pending message as its creation cell, the API's times. */
  lemma RowCells(e: LogEntry, profiles: Option<seq<StatusBuilder.Profile>>)
    ensures var r := RowOf(e, profiles);
      && (!e.success ==> r.statusText == Some(e.message) && r.statusCreatedAt.None? && r.statusDueAt.None?)
      && (IsPendingEntry(e) ==>
            && r.statusCreatedAt == Some(Text(e.message))
            && r.statusDueAt.None?
            && (e.statusText.None? && e.status.Some? ==> r.statusText == Some(e.status.value.text)))
      && (e.success && e.statusCreatedAt.Some? ==> r.statusCreatedAt == Some(Timestamp(e.statusCreatedAt.value)))
      && (e.success && e.statusCreatedAt.Some? ==>
            r.statusDueAt == Some(if e.statusDueAt.Some? then Timestamp(e.statusDueAt.value) else CurrentTime))
  {
  }

  /** The profile column's precedence: stored name, then a listed profile's label, then the raw id, then "N/A". */
  lemma ProfileColumnPrecedence(e: LogEntry, profiles: Option<seq<StatusBuilder.Profile>>)
    ensures e.profileName.Some? ==> ProfileColumn(e, profiles) == e.profileName.value
    ensures e.profileName.None? && e.status.None? ==> ProfileColumn(e, profiles) == "N/A"
    ensures e.profileName.None? && e.status.Some? && e.status.value.profileIds != [] ==>
      var id := e.status.value.profileIds[0];
      (profiles.Some? && StatusBuilder.FindProfile(profiles.value, id).Some? ==>
         exists p :: p in profiles.value && p.id == id && ProfileColumn(e, profiles) == ProfileLabel(p))
      && (profiles.None? ==> ProfileColumn(e, profiles) == id)
      && (profiles.Some? && StatusBuilder.FindProfile(profiles.value, id).None? ==> ProfileColumn(e, profiles) == id)
  {
    if e.profileName.None? && e.status.Some? && e.status.value.profileIds != [] {
      var id := e.status.value.profileIds[0];
      if profiles.Some? && StatusBuilder.FindProfile(profiles.value, id).Some? {
        var p := StatusBuilder.FindProfile(profiles.value, id).value;
        assert p in profiles.value && p.id == id && ProfileColumn(e, profiles) == ProfileLabel(p);
      }
    }
  }

  /** `build_log_output_array`: one row per entry, at the same position. */
  method BuildLogOutputArray(log: seq<LogEntry>, profiles: Option<seq<StatusBuilder.Profile>>) returns (rows: seq<Row>)
    ensures |rows| == |log|
    ensures forall i :: 0 <= i < |log| ==> rows[i] == RowOf(log[i], profiles)
  {
    rows := [];
    var i := 0;
    while i < |log|
      invariant 0 <= i <= |log|
      invariant |rows| == i
      invariant forall k :: 0 <= k < i ==> rows[k] == RowOf(log[k], profiles)
    {
      rows := rows + [RowOf(log[i], profiles)];
      i := i + 1;
    }
  }

  /** After `clear_pending_log` no row of the log is shown as pending, and every other row survives. */
  lemma NoPendingRowsAfterClear(log: seq<LogEntry>, profiles: Option<seq<StatusBuilder.Profile>>)
    ensures forall e :: e in WithoutPending(log) ==> RowOf(e, profiles).statusCreated != Pending
    ensures forall e :: e in log && Classify(e) != Pending ==> e in WithoutPending(log)
  {
    WithoutPendingMembers(log);
  }
}
