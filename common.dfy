/**
 * Lookup tables and small helpers shared by the publish pipeline: character
 * limits per network, the tags that are never limited, the featured image and
 * schedule options each plugin edition offers, the post types and actions that
 * can send statuses, and the conversion of WordPress' GMT offset to a
 * `+HHMM` / `+HH:30` value.
 */
module Common {
  import opened Wrappers
  import opened PhpStrings

  /** The plugin editions built from this code base (`$this->base->plugin->name`). */
  datatype Plugin =
    | WpToBuffer | WpToBufferPro
    | WpToHootsuite | WpToHootsuitePro
    | WpToSocialPilot | WpToSocialPilotPro
    | OtherPlugin

  predicate IsProEdition(p: Plugin) {
    p == WpToBufferPro || p == WpToHootsuitePro || p == WpToSocialPilotPro
  }

  // ---------------------------------------------------------------------
  // Character limits
  // ---------------------------------------------------------------------

  /** The maximum status length per social network. */
  function CharacterLimits(): map<string, nat> {
    map["twitter" := 280, "pinterest" := 500, "instagram" := 2200,
        "facebook" := 5000, "linkedin" := 700, "google" := 5000]
  }

  /**
   * The limit for one service, 0 (no limit) when the service is unknown or was
   * never determined.
   */
  function CharacterLimit(service: Option<string>): (n: nat)
    ensures n > 0 <==> service.Some? && service.value in CharacterLimits()
    ensures service.Some? && service.value in CharacterLimits() ==> n == CharacterLimits()[service.value]
    ensures n <= 5000
  {
    match service
    case Some(s) => if s in CharacterLimits() then CharacterLimits()[s] else 0
    case None => 0
  }

  // ---------------------------------------------------------------------
  // Tags, actions and post types
  // ---------------------------------------------------------------------

  /** Tags whose value would be corrupted by truncation (dates, URLs, ids, author contact). */
  function TagsExcludedFromCharacterLimit(): seq<string> {
    ["date", "url", "id", "author_user_email", "author_user_url"]
  }

  /** The actions that can send statuses. */
  function PostActions(): seq<string> {
    ["publish", "update"]
  }

  function ExcludedPostTypes(): seq<string> {
    ["attachment", "revision", "elementor_library"]
  }

  /** `unset( $types[ $key ] )` on an ordered list of keys. */
  function Unset(types: seq<string>, key: string): (r: seq<string>)
    ensures forall t :: t in r <==> t in types && t != key
    ensures |r| <= |types|
  {
    if types == [] then []
    else if types[0] == key then Unset(types[1..], key)
    else [types[0]] + Unset(types[1..], key)
  }

  /** Every key of `excluded` unset from `types`, one after the other. */
  function UnsetAll(types: seq<string>, excluded: seq<string>): seq<string>
    decreases |excluded|
  {
    if excluded == [] then types else UnsetAll(Unset(types, excluded[0]), excluded[1..])
  }

  /**
   * `get_post_types()`: the public post types, in their registered order, with
   * each excluded type unset in turn.
   */
  method PostTypes(publicTypes: seq<string>) returns (types: seq<string>)
    ensures types == UnsetAll(publicTypes, ExcludedPostTypes())
    ensures forall t :: t in types <==> t in publicTypes && t !in ExcludedPostTypes()
  {
    var excluded := ExcludedPostTypes();
    types := publicTypes;
    var i := 0;
    while i < |excluded|
      invariant 0 <= i <= |excluded|
      invariant UnsetAll(types, excluded[i..]) == UnsetAll(publicTypes, excluded)
      invariant forall t :: t in types <==> t in publicTypes && t !in excluded[..i]
    {
      assert excluded[i..][1..] == excluded[i + 1..];
      assert excluded[..i + 1] == excluded[..i] + [excluded[i]];
      types := Unset(types, excluded[i]);
      i := i + 1;
    }
    assert excluded[..i] == excluded;
  }

  // ---------------------------------------------------------------------
  // Featured image options
  // ---------------------------------------------------------------------

  /** Featured image modes: use OpenGraph, image linked to the post, image not linked. */
  const OpenGraph := 0
  const LinkedImage := 1
  const UnlinkedImage := 2

  /** The image modes an edition offers before the network is taken into account. */
  function BaseImageOptions(plugin: Plugin): seq<int> {
    match plugin
    case WpToBuffer => [OpenGraph, UnlinkedImage]
    case WpToBufferPro => [OpenGraph, LinkedImage, UnlinkedImage]
    case WpToHootsuite => [OpenGraph]
    case WpToHootsuitePro => [OpenGraph, UnlinkedImage]
    case WpToSocialPilot => [OpenGraph, UnlinkedImage]
    case WpToSocialPilotPro => [OpenGraph, LinkedImage, UnlinkedImage]
    case OtherPlugin => []
  }

  predicate IsNetwork(network: Option<string>, name: string) {
    network == Some(name)
  }

  /** Whether a network accepts an image mode at all. */
  predicate ImageModeAllowed(network: Option<string>, mode: int) {
    && !(IsNetwork(network, "twitter") && mode == LinkedImage)
    && !((IsNetwork(network, "instagram") || IsNetwork(network, "pinterest"))
         && (mode == OpenGraph || mode == LinkedImage))
  }

  function UnsetMode(options: seq<int>, mode: int): (r: seq<int>)
    ensures forall m :: m in r <==> m in options && m != mode
  {
    if options == [] then []
    else if options[0] == mode then UnsetMode(options[1..], mode)
    else [options[0]] + UnsetMode(options[1..], mode)
  }

  /**
   * `get_featured_image_options( $network )`: the edition's options with those
   * the network cannot use unset. Twitter loses "linked to post"; Instagram and
   * Pinterest keep at most "not linked to post".
   */
  method FeaturedImageOptions(plugin: Plugin, network: Option<string>) returns (options: seq<int>)
    ensures forall m :: m in options <==> m in BaseImageOptions(plugin) && ImageModeAllowed(network, m)
    ensures IsNetwork(network, "twitter") ==> LinkedImage !in options
    ensures IsNetwork(network, "instagram") || IsNetwork(network, "pinterest") ==>
      forall m :: m in options ==> m == UnlinkedImage
  {
    options := BaseImageOptions(plugin);
    if IsNetwork(network, "twitter") {
      options := UnsetMode(options, LinkedImage);
    } else if IsNetwork(network, "instagram") || IsNetwork(network, "pinterest") {
      options := UnsetMode(options, OpenGraph);
      options := UnsetMode(options, LinkedImage);
    }
  }

  // ---------------------------------------------------------------------
  // Schedule options
  // ---------------------------------------------------------------------

  /**
   * `get_schedule_options( $post_type, $is_post_screen )`, as the list of option
   * keys. `eventsCalendar` says whether The Events Calendar is active.
   */
  function ScheduleOptions(plugin: Plugin, postType: string, isPostScreen: bool, eventsCalendar: bool): seq<string> {
    var events := if eventsCalendar && postType == "tribe_events" then ["_EventStartDate", "_EventEndDate"] else [];
    var specific := if isPostScreen then ["specific"] else [];
    match plugin
    case WpToBuffer => ["queue_bottom"]
    case WpToBufferPro => ["queue_bottom", "queue_top", "now", "custom", "custom_field"] + events + specific
    case WpToHootsuite => ["now"]
    case WpToHootsuitePro => ["now", "custom", "custom_field"] + events + specific
    case WpToSocialPilot => ["queue_bottom"]
    case WpToSocialPilotPro => ["queue_bottom", "now", "custom", "custom_field"] + events + specific
    case OtherPlugin => []
  }

  /** A specific date and time can be chosen only in a Pro edition, and only on the post screen. */
  lemma SpecificOnlyOnPostScreen(plugin: Plugin, postType: string, isPostScreen: bool, eventsCalendar: bool)
    ensures "specific" in ScheduleOptions(plugin, postType, isPostScreen, eventsCalendar)
      <==> IsProEdition(plugin) && isPostScreen
  {
  }

  /** The free Buffer edition only ever adds to the end of the queue. */
  lemma FreeBufferQueuesOnly(postType: string, isPostScreen: bool, eventsCalendar: bool)
    ensures ScheduleOptions(WpToBuffer, postType, isPostScreen, eventsCalendar) == ["queue_bottom"]
  {
  }

  // ---------------------------------------------------------------------
  // GMT offset
  // ---------------------------------------------------------------------

  /**
   * How PHP renders `abs( $offset )` for an offset of `halfHours` / 2 hours:
   * the whole hours, then ".5" for an odd number of half hours.
   */
  function AbsOffsetString(halfHours: int): string {
    var a := if halfHours < 0 then -halfHours else halfHours;
    NatToString(a / 2) + (if a % 2 == 1 then ".5" else "")
  }

  /** The offset value as a `DateTimeZone` reads it: sign, at least two hour digits, minutes. */
  function OffsetValue(halfHours: int): (r: string)
    ensures |r| >= 5
  {
    if halfHours == 0 then "+0000"
    else
      var a := if halfHours < 0 then -halfHours else halfHours;
      var hours := NatToString(a / 2);
      (if halfHours > 0 then "+" else "-")
      + (if a / 2 < 10 then "0" + hours else hours)
      + (if a % 2 == 1 then ":30" else "00")
  }

  lemma {:induction false} NoHalfInDigits(s: string)
    requires AllDigits(s)
    ensures !Contains(s, ".5")
    decreases |s|
  {
    if |s| >= 2 {
      assert s[..2][0] == s[0];
      NoHalfInDigits(s[1..]);
    }
  }

  /** Digits followed by ".5" contain ".5" exactly once, at the end. */
  lemma {:induction false} ReplaceHalfAfterDigits(p: string)
    requires AllDigits(p)
    ensures Contains(p + ".5", ".5")
    ensures ReplaceAll(p + ".5", ".5", ":30") == p + ":30"
    decreases |p|
  {
    var s := p + ".5";
    if p == [] {
      assert s[..2] == ".5";
      assert s[2..] == [];
    } else {
      assert s[..2][0] == p[0];
      assert s[1..] == p[1..] + ".5";
      ReplaceHalfAfterDigits(p[1..]);
    }
  }

  /** A signed value `±dd.5` has its half hour rewritten to `:30`. */
  lemma ReplaceHalfSigned(sign: char, digits: string)
    requires sign == '+' || sign == '-'
    requires AllDigits(digits)
    ensures Contains([sign] + digits + ".5", ".5")
    ensures ReplaceAll([sign] + digits + ".5", ".5", ":30") == [sign] + digits + ":30"
  {
    var s := [sign] + digits + ".5";
    ReplaceHalfAfterDigits(digits);
    assert s[..2][0] == sign;
    assert s[1..] == digits + ".5";
  }

  /** A signed whole number of hours `±dd` holds no ".5". */
  lemma NoHalfSigned(sign: char, digits: string)
    requires sign == '+' || sign == '-'
    requires AllDigits(digits)
    ensures !Contains([sign] + digits, ".5")
  {
    var s := [sign] + digits;
    NoHalfInDigits(digits);
    if |s| >= 2 {
      assert s[..2][0] == sign;
    }
    assert s[1..] == digits;
  }

  /**
   * `convert_wordpress_gmt_offset_to_offset_value( $gmt_offset )` for offsets
   * that are a whole number of half hours, rewriting the value step by step as
   * the source does.
   */
  method ConvertGmtOffset(halfHours: int) returns (value: string)
    ensures value == OffsetValue(halfHours)
  {
    if halfHours == 0 {
      return "+0000";
    }
    if halfHours > 0 {
      if halfHours < 20 {
        value := "0" + AbsOffsetString(halfHours);
      } else {
        value := AbsOffsetString(halfHours);
      }
      value := "+" + value;
    } else {
      if halfHours > -20 {
        value := "0" + AbsOffsetString(halfHours);
      } else {
        value := AbsOffsetString(halfHours);
      }
      value := "-" + value;
    }
    ghost var a := if halfHours < 0 then -halfHours else halfHours;
    ghost var sign := if halfHours > 0 then '+' else '-';
    ghost var digits := if a / 2 < 10 then "0" + NatToString(a / 2) else NatToString(a / 2);
    assert AllDigits(digits);
    if a % 2 == 1 {
      assert value == [sign] + digits + ".5";
      ReplaceHalfSigned(sign, digits);
    } else {
      assert value == [sign] + digits;
      NoHalfSigned(sign, digits);
    }
    if Contains(value, ".5") {
      value := ReplaceAll(value, ".5", ":30");
    } else {
      value := value + "00";
    }
  }

  /** Reads an offset value back into half hours. */
  function ParseOffsetValue(s: string): Option<int> {
    if |s| < 2 || (s[0] != '+' && s[0] != '-') then None
    else
      match OffsetMagnitude(s[1..])
      case None => None
      case Some(m) => Some(if s[0] == '+' then m else -m)
  }

  /** The half hours written after the sign: `H:30` or `H00`. */
  function OffsetMagnitude(body: string): Option<int> {
    if |body| >= 3 && body[|body| - 3..] == ":30" && AllDigits(body[..|body| - 3]) then
      Some(2 * DigitsValue(body[..|body| - 3]) + 1)
    else if |body| >= 2 && body[|body| - 2..] == "00" && AllDigits(body[..|body| - 2]) then
      Some(2 * DigitsValue(body[..|body| - 2]))
    else None
  }

  function Signed(sign: char, m: int): int {
    if sign == '+' then m else -m
  }

  /** The sign applies to whatever magnitude the rest of the value reads as. */
  lemma ParseSigned(sign: char, body: string)
    requires sign == '+' || sign == '-'
    requires body != []
    ensures ParseOffsetValue([sign] + body) ==
      match OffsetMagnitude(body)
      case None => None
      case Some(m) => Some(Signed(sign, m))
  {
    assert ([sign] + body)[1..] == body;
  }

  lemma HalfHourMagnitude(digits: string)
    requires AllDigits(digits)
    ensures OffsetMagnitude(digits + ":30") == Some(2 * DigitsValue(digits) + 1)
  {
    var body := digits + ":30";
    assert body[..|body| - 3] == digits;
    assert body[|body| - 3..] == ":30";
  }

  lemma WholeHourMagnitude(digits: string)
    requires AllDigits(digits) && digits != []
    ensures OffsetMagnitude(digits + "00") == Some(2 * DigitsValue(digits))
  {
    var body := digits + "00";
    assert body[|body| - 3] == digits[|digits| - 1];
    assert body[..|body| - 2] == digits;
    assert body[|body| - 2..] == "00";
  }

  lemma ParseHalfHour(sign: char, digits: string)
    requires sign == '+' || sign == '-'
    requires AllDigits(digits)
    ensures ParseOffsetValue([sign] + digits + ":30") == Some(Signed(sign, 2 * DigitsValue(digits) + 1))
  {
    HalfHourMagnitude(digits);
    ParseSigned(sign, digits + ":30");
    assert [sign] + digits + ":30" == [sign] + (digits + ":30");
  }

  lemma ParseWholeHour(sign: char, digits: string)
    requires sign == '+' || sign == '-'
    requires AllDigits(digits) && digits != []
    ensures ParseOffsetValue([sign] + digits + "00") == Some(Signed(sign, 2 * DigitsValue(digits)))
  {
    var body := digits + "00";
    WholeHourMagnitude(digits);
    assert OffsetMagnitude(body) == Some(2 * DigitsValue(digits));
    ParseSigned(sign, body);
    assert [sign] + digits + "00" == [sign] + body;
  }

  /** The hour digits of a non-zero offset: at least two, zero-padded. */
  function HourDigits(a: nat): (r: string)
    ensures AllDigits(r) && r != []
    ensures DigitsValue(r) == a / 2
  {
    DigitsValueOfNatToString(a / 2);
    DigitsValueLeadingZero(NatToString(a / 2));
    if a / 2 < 10 then "0" + NatToString(a / 2) else NatToString(a / 2)
  }

  lemma OffsetValueParts(halfHours: int)
    requires halfHours != 0
    ensures var a := if halfHours < 0 then -halfHours else halfHours;
      OffsetValue(halfHours)
        == [if halfHours > 0 then '+' else '-'] + HourDigits(a) + (if a % 2 == 1 then ":30" else "00")
  {
  }

  /** The conversion loses nothing: every offset value reads back as its offset. */
  lemma OffsetValueRoundTrip(halfHours: int)
    ensures ParseOffsetValue(OffsetValue(halfHours)) == Some(halfHours)
  {
    if halfHours == 0 {
      assert OffsetValue(0) == ['+'] + "00" + "00";
      ParseWholeHour('+', "00");
      assert DigitsValue("00") == 0;
    } else {
      var a: nat := if halfHours < 0 then -halfHours else halfHours;
      var sign := if halfHours > 0 then '+' else '-';
      OffsetValueParts(halfHours);
      var digits := HourDigits(a);
      if a % 2 == 1 {
        ParseHalfHour(sign, digits);
        assert 2 * (a / 2) + 1 == a;
        assert Signed(sign, a) == halfHours;
      } else {
        ParseWholeHour(sign, digits);
        assert 2 * (a / 2) == a;
        assert Signed(sign, a) == halfHours;
      }
    }
  }
}
