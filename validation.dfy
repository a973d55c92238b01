/**
 * Checks run on the settings screens: whether the API is connected, whether
 * PHP's `max_input_vars` can hold every settings field, and whether a profile's
 * action repeats a status message.
 */
module Validation {
  import opened Wrappers

  /** `api_connected`: PHP's `empty()` holds for the access token exactly when it is "" or "0". */
  function ApiConnected(accessToken: string): (b: bool)
    ensures !b <==> accessToken == "" || accessToken == "0"
  {
    !(accessToken == "" || accessToken == "0")
  }

  // ---------------------------------------------------------------------
  // max_query_vars_valid
  // ---------------------------------------------------------------------

  /** Settings fields per status on the settings screen. */
  const SettingsPerStatus := 20

  /** The verdict: fine, or too low, with the configured value and the value recommended instead. */
  datatype QueryVarsCheck = Valid | TooLow(maxInputVars: int, recommended: int)

  /** The number of fields the settings screen may post for these profiles and actions. */
  function TotalFields(profiles: nat, actions: nat): nat {
    profiles * actions * SettingsPerStatus
  }

  /**
   * `max_query_vars_valid`: no limit (0) is fine; otherwise too many fields is an
   * error recommending 1.2 times the field count (a whole number, as the count is a multiple of 20).
   */
  function MaxQueryVarsValid(profiles: nat, actions: nat, maxInputVars: int): (r: QueryVarsCheck)
    ensures maxInputVars == 0 ==> r == Valid
    ensures maxInputVars != 0 ==> (r.TooLow? <==> TotalFields(profiles, actions) > maxInputVars)
    ensures r.TooLow? ==> r.maxInputVars == maxInputVars && 5 * r.recommended == 6 * TotalFields(profiles, actions)
  {
    var total := TotalFields(profiles, actions);
    if maxInputVars == 0 then Valid
    else if total > maxInputVars then TooLow(maxInputVars, total * 6 / 5)
    else Valid
  }

  /** The recommended value always leaves room for every field, with a fifth to spare. */
  lemma RecommendedCovers(profiles: nat, actions: nat, maxInputVars: int)
    requires MaxQueryVarsValid(profiles, actions, maxInputVars).TooLow?
    ensures var r := MaxQueryVarsValid(profiles, actions, maxInputVars);
      r.recommended >= TotalFields(profiles, actions) && r.recommended > r.maxInputVars
  {
  }

  /** Adding a profile never turns a failing check into a passing one. */
  lemma MoreProfilesStillTooLow(profiles: nat, actions: nat, maxInputVars: int)
    requires MaxQueryVarsValid(profiles, actions, maxInputVars).TooLow?
    ensures MaxQueryVarsValid(profiles + 1, actions, maxInputVars).TooLow?
  {
    assert TotalFields(profiles + 1, actions) == TotalFields(profiles, actions) + actions * SettingsPerStatus;
  }

  // ---------------------------------------------------------------------
  // check_for_duplicates
  // ---------------------------------------------------------------------

  /** One action's settings as this check sees them: its `enabled` flag and each status's `message`, if set. */
  datatype ActionStatuses = ActionStatuses(enabled: bool, messages: seq<Option<string>>)

  /** A profile's actions in stored order. */
  type ProfileActions = seq<(string, ActionStatuses)>

  /** The value compared for a status: its message, or '' when the key is missing. */
  function CompareKey(message: Option<string>): string {
    message.GetOr("")
  }

  function CompareKeys(messages: seq<Option<string>>): (keys: seq<string>)
    ensures |keys| == |messages|
    ensures forall k :: 0 <= k < |keys| ==> keys[k] == CompareKey(messages[k])
  {
    if messages == [] then [] else [CompareKey(messages[0])] + CompareKeys(messages[1..])
  }

  lemma CompareKeysExtend(messages: seq<Option<string>>, k: nat)
    requires k < |messages|
    ensures CompareKeys(messages[..k + 1]) == CompareKeys(messages[..k]) + [CompareKey(messages[k])]
  {
    var longer := CompareKeys(messages[..k + 1]);
    var shorter := CompareKeys(messages[..k]);
    assert forall j :: 0 <= j < k ==> longer[j] == shorter[j];
  }

  /** Two positions of the list hold the same value. */
  predicate Repeats(keys: seq<string>) {
    exists i, j :: 0 <= i < j < |keys| && keys[i] == keys[j]
  }

  /** An enabled action has two statuses comparing equal. */
  predicate ActionHasDuplicates(a: ActionStatuses) {
    a.enabled && Repeats(CompareKeys(a.messages))
  }

  /** What `check_for_duplicates` decides: some enabled action of some profile repeats a message. */
  predicate HasDuplicates(settings: seq<(string, ProfileActions)>) {
    exists p, a :: 0 <= p < |settings| && 0 <= a < |settings[p].1| && ActionHasDuplicates(settings[p].1[a].1)
  }

  /** `array_count_values` followed by a search for a count above one. */
  method AnyCountAboveOne(keys: seq<string>) returns (found: bool)
    ensures found <==> Repeats(keys)
  {
    var seen: set<string> := {};
    var i := 0;
    while i < |keys|
      invariant 0 <= i <= |keys|
      invariant seen == set k | 0 <= k < i :: keys[k]
      invariant !Repeats(keys[..i])
    {
      if keys[i] in seen {
        var k :| 0 <= k < i && keys[k] == keys[i];
        assert keys[k] == keys[i];
        return true;
      }
      var next := keys[..i + 1];
      assert !Repeats(next) by {
        forall a, b | 0 <= a < b < |next| ensures next[a] != next[b] {
          if b < i {
            assert keys[..i][a] != keys[..i][b];
          } else {
            assert keys[a] in seen;
          }
        }
      }
      seen := seen + {keys[i]};
      i := i + 1;
    }
    assert keys[..i] == keys;
    return false;
  }

  /** The body of the inner `foreach`: an enabled action's messages, collected and counted. */
  method ActionRepeats(statuses: ActionStatuses) returns (found: bool)
    ensures found <==> ActionHasDuplicates(statuses)
  {
    if !statuses.enabled {
      return false;
    }
    var keys: seq<string> := [];
    var k := 0;
    while k < |statuses.messages|
      invariant 0 <= k <= |statuses.messages|
      invariant keys == CompareKeys(statuses.messages[..k])
    {
      CompareKeysExtend(statuses.messages, k);
      keys := keys + [CompareKey(statuses.messages[k])];
      k := k + 1;
    }
    assert statuses.messages[..k] == statuses.messages;
    found := AnyCountAboveOne(keys);
  }

  /** `check_for_duplicates`: the nested `foreach`, returning true at the first repeated message. */
  method CheckForDuplicates(settings: seq<(string, ProfileActions)>) returns (found: bool)
    ensures found <==> HasDuplicates(settings)
  {
    var p := 0;
    while p < |settings|
      invariant 0 <= p <= |settings|
      invariant forall q, a :: 0 <= q < p && 0 <= a < |settings[q].1| ==> !ActionHasDuplicates(settings[q].1[a].1)
    {
      var actions := settings[p].1;
      var a := 0;
      while a < |actions|
        invariant 0 <= a <= |actions|
        invariant forall b :: 0 <= b < a ==> !ActionHasDuplicates(actions[b].1)
      {
        var repeated := ActionRepeats(actions[a].1);
        if repeated {
          return true;
        }
        a := a + 1;
      }
      p := p + 1;
    }
    return false;
  }

  /** A disabled action never counts, whatever its statuses. */
  lemma DisabledActionsIgnored(settings: seq<(string, ProfileActions)>)
    requires forall p, a :: 0 <= p < |settings| && 0 <= a < |settings[p].1| ==> !settings[p].1[a].1.enabled
    ensures !HasDuplicates(settings)
  {
  }

  /** A status without a message clashes with one whose message is empty. */
  lemma MissingMessageIsEmpty(id: string, action: string, rest: seq<Option<string>>)
    ensures HasDuplicates([(id, [(action, ActionStatuses(true, [None, Some("")] + rest))])])
  {
    var st := ActionStatuses(true, [None, Some("")] + rest);
    var s: seq<(string, ProfileActions)> := [(id, [(action, st)])];
    var keys := CompareKeys(st.messages);
    assert keys[0] == keys[1];
    assert ActionHasDuplicates(s[0].1[0].1);
  }

  /** The same message under two actions of one profile is not a duplicate: messages are compared per action. */
  lemma DuplicatesArePerAction(id: string, first: string, second: string, m: string)
    ensures !HasDuplicates([(id, [(first, ActionStatuses(true, [Some(m)])), (second, ActionStatuses(true, [Some(m)]))])])
  {
  }
}
