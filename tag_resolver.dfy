/**
 * The value-level part of `parse_text`: finding `{tag}` occurrences in a status
 * message, reading an optional word or character limit from a tag, resolving a
 * tag against the table of registered replacements, growing the per-cycle memo
 * of search/replacement pairs, and rendering the final text.
 */
module TagResolver {
  import opened Wrappers
  import opened PhpStrings
  import Common

  // ---------------------------------------------------------------------
  // Finding tags: preg_match_all( "|{(.+?)}|", $message )
  // ---------------------------------------------------------------------

  /** No newline in `s[lo..hi]` (PCRE's `.` matches anything but a newline). */
  predicate NoNewline(s: string, lo: int, hi: int)
    requires 0 <= lo <= hi <= |s|
  {
    forall j :: lo <= j < hi ==> s[j] != '\n'
  }

  /** The first `}` at or after `k`, provided no newline comes before it. */
  function FirstClose(s: string, k: nat): (r: Option<nat>)
    ensures r.Some? ==> k <= r.value < |s| && s[r.value] == '}' && NoNewline(s, k, r.value)
    ensures r.Some? ==> forall j :: k <= j < r.value ==> s[j] != '}'
    ensures r.None? ==> forall m :: k <= m < |s| && s[m] == '}' ==> !NoNewline(s, k, m)
    decreases |s| - k
  {
    if k >= |s| then None
    else if s[k] == '}' then Some(k)
    else if s[k] == '\n' then None
    else FirstClose(s, k + 1)
  }

  /**
   * The index of the closing brace of the match starting at `i`: an opening
   * brace, at least one character, then the first closing brace after it.
   */
  function TagEnd(s: string, i: nat): Option<nat> {
    if i + 1 < |s| && s[i] == '{' && s[i + 1] != '\n' then FirstClose(s, i + 2) else None
  }

  /** `s[i..k+1]` is a brace pair enclosing at least one character and no newline. */
  predicate TagSpan(s: string, i: int, k: int) {
    0 <= i && i + 2 <= k < |s| && s[i] == '{' && s[k] == '}' && NoNewline(s, i + 1, k)
  }

  lemma TagEndIff(s: string, i: nat)
    ensures TagEnd(s, i).Some? <==> exists k :: TagSpan(s, i, k)
    ensures TagEnd(s, i).Some? ==> TagSpan(s, i, TagEnd(s, i).value)
  {
    if TagEnd(s, i).Some? {
      assert TagSpan(s, i, TagEnd(s, i).value);
    } else if exists k :: TagSpan(s, i, k) {
      var k :| TagSpan(s, i, k);
      assert NoNewline(s, i + 2, k);
    }
  }

  /** The captured contents of every match, scanning left to right from `from`. */
  function FindTags(s: string, from: nat): seq<string>
    decreases |s| - from
  {
    if from >= |s| then []
    else match TagEnd(s, from)
      case Some(k) => [s[from + 1..k]] + FindTags(s, k + 1)
      case None => FindTags(s, from + 1)
  }

  /** A captured tag: at least one character and no newline. */
  predicate IsTagText(t: string) {
    t != [] && forall j :: 0 <= j < |t| ==> t[j] != '\n'
  }

  function Braced(t: string): string {
    "{" + t + "}"
  }

  /** `t` is a well-formed captured tag that occurs, braced, in `s`. */
  ghost predicate SoundTag(s: string, t: string) {
    IsTagText(t) && exists i :: OccursAt(s, Braced(t), i)
  }

  /** Every captured tag is well formed and occurs, braced, in the message. */
  lemma {:induction false} FindTagsSound(s: string, from: nat)
    ensures forall t :: t in FindTags(s, from) ==> SoundTag(s, t)
    decreases |s| - from
  {
    if from < |s| {
      match TagEnd(s, from)
      case Some(k) =>
        TagEndIff(s, from);
        FindTagsSound(s, k + 1);
        var t := s[from + 1..k];
        assert s[from..k + 1] == Braced(t);
        assert OccursAt(s, Braced(t), from);
        assert SoundTag(s, t);
        assert FindTags(s, from) == [t] + FindTags(s, k + 1);
      case None =>
        FindTagsSound(s, from + 1);
    }
  }

  /** The scan finds nothing exactly when the message holds no brace pair around a newline-free text. */
  lemma {:induction false} FindTagsEmptyIff(s: string, from: nat)
    ensures FindTags(s, from) == [] <==> forall i, k :: from <= i ==> !TagSpan(s, i, k)
    decreases |s| - from
  {
    if from < |s| {
      TagEndIff(s, from);
      match TagEnd(s, from)
      case Some(k) =>
        assert TagSpan(s, from, k);
      case None =>
        FindTagsEmptyIff(s, from + 1);
        if FindTags(s, from) == [] {
          forall i, k | from <= i ensures !TagSpan(s, i, k) {
            if i == from {
              assert !exists k' :: TagSpan(s, from, k');
            }
          }
        }
    }
  }

  // ---------------------------------------------------------------------
  // Word and character limits inside a tag: {content(50)}, {content(10_words)}
  // ---------------------------------------------------------------------

  /** The first index at or after `from` where `t` occurs. */
  function FindFrom(s: string, t: string, from: nat): (r: Option<nat>)
    ensures r.Some? ==> from <= r.value && OccursAt(s, t, r.value)
    ensures r.Some? ==> forall j :: from <= j < r.value ==> !OccursAt(s, t, j)
    ensures r.None? ==> forall j :: from <= j ==> !OccursAt(s, t, j)
    decreases |s| - from
  {
    if from + |t| > |s| then None
    else if s[from..from + |t|] == t then Some(from)
    else FindFrom(s, t, from + 1)
  }

  lemma FindFromIs(s: string, t: string, from: nat, x: nat)
    requires from <= x && OccursAt(s, t, x)
    requires forall j :: from <= j < x ==> !OccursAt(s, t, j)
    ensures FindFrom(s, t, from) == Some(x)
  {
  }

  datatype Limit = NoLimit | WordLimit(words: nat) | CharLimit(chars: nat)

  /** A tag's name (the key looked up in the replacement table) and its limit. */
  datatype TagParams = TagParams(name: string, limit: Limit)

  /**
   * `/(.*?)\((.*?)_words\)/` and, failing that, `/(.*?)\((.*?)\)/`: the name is
   * everything before the first `(`, the limit is `absint` of the text between
   * that `(` and the first following `_words)` (or `)`).
   */
  function ParseTag(inner: string): (p: TagParams)
    ensures |p.name| <= |inner| && p.name == inner[..|p.name|]
    ensures p.limit.NoLimit? ==> p.name == inner
    ensures !p.limit.NoLimit? ==> |p.name| < |inner| && inner[|p.name|] == '('
    ensures !p.limit.NoLimit? ==> forall j :: 0 <= j < |p.name| ==> p.name[j] != '('
  {
    match FindFrom(inner, "(", 0)
    case None => TagParams(inner, NoLimit)
    case Some(open) =>
      OccursAtChar(inner, '(', open);
      assert forall j :: 0 <= j < open ==> inner[j] != '(' by {
        forall j | 0 <= j < open ensures inner[j] != '(' {
          OccursAtChar(inner, '(', j);
        }
      }
      match FindFrom(inner, "_words)", open + 1)
      case Some(close) => TagParams(inner[..open], WordLimit(AbsInt(inner[open + 1..close])))
      case None =>
        match FindFrom(inner, ")", open + 1)
        case Some(close) => TagParams(inner[..open], CharLimit(AbsInt(inner[open + 1..close])))
        case None => TagParams(inner, NoLimit)
  }

  predicate HasParenPair(s: string) {
    exists a, b :: 0 <= a < b < |s| && s[a] == '(' && s[b] == ')'
  }

  lemma OccursAtChar(s: string, c: char, j: int)
    requires 0 <= j < |s|
    ensures OccursAt(s, [c], j) <==> s[j] == c
  {
    assert s[j..j + 1] == [s[j]];
  }

  /** A tag carries a limit exactly when it holds a `(` followed somewhere by a `)`. */
  lemma ParseTagLimitIff(inner: string)
    ensures !ParseTag(inner).limit.NoLimit? <==> HasParenPair(inner)
  {
    match FindFrom(inner, "(", 0)
    case None =>
      forall a | 0 <= a < |inner| ensures inner[a] != '(' {
        OccursAtChar(inner, '(', a);
      }
    case Some(open) =>
      OccursAtChar(inner, '(', open);
      match FindFrom(inner, "_words)", open + 1)
      case Some(close) =>
        assert inner[close..close + 7] == "_words)";
        assert inner[close + 6] == ')';
      case None =>
        match FindFrom(inner, ")", open + 1)
        case Some(close) =>
          OccursAtChar(inner, ')', close);
        case None =>
          forall a, b | 0 <= a < b < |inner| && inner[a] == '(' ensures inner[b] != ')' {
            OccursAtChar(inner, '(', a);
            OccursAtChar(inner, ')', b);
          }
  }

  /** Digits contain neither `_` nor `)`, so neither `_words)` nor `)` starts inside them. */
  lemma NoMarkerInDigits(s: string, lo: nat, hi: nat, marker: string)
    requires lo <= hi <= |s| && forall j :: lo <= j < hi ==> IsDigit(s[j])
    requires marker != [] && !IsDigit(marker[0])
    ensures forall j :: lo <= j < hi ==> !OccursAt(s, marker, j)
  {
    forall j | lo <= j < hi ensures !OccursAt(s, marker, j) {
      if j + |marker| <= |s| {
        assert s[j..j + |marker|][0] == s[j];
      }
    }
  }

  /** `name(N_words)` reads back as a word limit of N on `name`. */
  lemma ParseWordLimitTag(name: string, n: nat)
    requires forall j :: 0 <= j < |name| ==> name[j] != '('
    ensures ParseTag(name + "(" + NatToString(n) + "_words)") == TagParams(name, WordLimit(n))
  {
    var digits := NatToString(n);
    var s := name + "(" + digits + "_words)";
    var open := |name|;
    var close := open + 1 + |digits|;
    forall j | 0 <= j < open ensures !OccursAt(s, "(", j) {
      OccursAtChar(s, '(', j);
    }
    OccursAtChar(s, '(', open);
    FindFromIs(s, "(", 0, open);
    NoMarkerInDigits(s, open + 1, close, "_words)");
    assert s[close..close + 7] == "_words)";
    FindFromIs(s, "_words)", open + 1, close);
    assert s[..open] == name;
    assert s[open + 1..close] == digits;
    AbsIntOfNatToString(n);
  }

  /** `name(N)` reads back as a character limit of N on `name`. */
  lemma ParseCharLimitTag(name: string, n: nat)
    requires forall j :: 0 <= j < |name| ==> name[j] != '('
    ensures ParseTag(name + "(" + NatToString(n) + ")") == TagParams(name, CharLimit(n))
  {
    var digits := NatToString(n);
    var s := name + "(" + digits + ")";
    var open := |name|;
    var close := open + 1 + |digits|;
    forall j | 0 <= j < open ensures !OccursAt(s, "(", j) {
      OccursAtChar(s, '(', j);
    }
    OccursAtChar(s, '(', open);
    FindFromIs(s, "(", 0, open);
    NoMarkerInDigits(s, open + 1, close, "_words)");
    assert !OccursAt(s, "_words)", close);
    assert FindFrom(s, "_words)", open + 1).None?;
    NoMarkerInDigits(s, open + 1, close, ")");
    OccursAtChar(s, ')', close);
    FindFromIs(s, ")", open + 1, close);
    assert s[..open] == name;
    assert s[open + 1..close] == digits;
    AbsIntOfNatToString(n);
  }

  // ---------------------------------------------------------------------
  // Applying limits and resolving a tag
  // ---------------------------------------------------------------------

  /** `apply_character_limit`: the first `limit` bytes, or the whole text when it fits or the limit is 0. */
  function ApplyCharacterLimit(text: string, limit: nat): (r: string)
    ensures |r| <= |text| && r == text[..|r|]
    ensures limit == 0 ==> r == text
    ensures limit > 0 ==> |r| == if |text| <= limit then |text| else limit
  {
    if limit == 0 || |text| <= limit then text else text[..limit]
  }

  /** `apply_word_limit`: the first `limit` words joined by single spaces, or the text itself for 0. */
  function ApplyWordLimit(text: string, limit: nat): (r: string)
    ensures limit == 0 ==> r == text
    ensures limit > 0 ==> Words(r) == Take(Words(text), limit)
  {
    if limit == 0 then text
    else
      TrimWordsKeepsFirstWords(text, limit);
      TrimWords(text, limit)
  }

  /** `can_apply_character_limit_to_tag`: the tag is not one whose value truncation would corrupt. */
  predicate CanApplyCharacterLimitToTag(tag: string) {
    tag !in Common.TagsExcludedFromCharacterLimit()
  }

  /** The registered replacement for a tag name, or the empty string. */
  function RawValue(name: string, table: map<string, string>): string {
    if name in table then table[name] else ""
  }

  function LimitedValue(raw: string, name: string, limit: Limit): string {
    if !CanApplyCharacterLimitToTag(name) then raw
    else match limit
      case WordLimit(n) => ApplyWordLimit(raw, n)
      case CharLimit(n) => ApplyCharacterLimit(raw, n)
      case NoLimit => raw
  }

  /** The replacement stored for one captured tag: looked up, limited where allowed, trimmed. */
  function ResolveTag(inner: string, table: map<string, string>): (r: string)
    ensures r == [] || (!IsTrimmable(r[0]) && !IsTrimmable(r[|r| - 1]))
  {
    var p := ParseTag(inner);
    Trim(LimitedValue(RawValue(p.name, table), p.name, p.limit))
  }

  /** A tag with no registered replacement is replaced by nothing. */
  lemma ResolveUnknownTag(inner: string, table: map<string, string>)
    requires ParseTag(inner).name !in table
    ensures ResolveTag(inner, table) == ""
  {
    var p := ParseTag(inner);
    assert RawValue(p.name, table) == "";
    assert LimitedValue("", p.name, p.limit) == "";
  }

  /** Dates, URLs, ids and author contact details are never cut, whatever limit the tag asks for. */
  lemma ResolveExcludedTag(inner: string, table: map<string, string>)
    requires ParseTag(inner).name in Common.TagsExcludedFromCharacterLimit()
    ensures ResolveTag(inner, table) == Trim(RawValue(ParseTag(inner).name, table))
  {
  }

  /** A character limit bounds the stored value, which is a piece of the registered one. */
  lemma ResolveCharLimitTag(inner: string, table: map<string, string>)
    requires ParseTag(inner).limit.CharLimit? && ParseTag(inner).limit.chars > 0
    requires CanApplyCharacterLimitToTag(ParseTag(inner).name)
    ensures |ResolveTag(inner, table)| <= ParseTag(inner).limit.chars
    ensures exists i :: OccursAt(RawValue(ParseTag(inner).name, table), ResolveTag(inner, table), i)
  {
    var p := ParseTag(inner);
    var raw := RawValue(p.name, table);
    var n := p.limit.chars;
    assert LimitedValue(raw, p.name, p.limit) == ApplyCharacterLimit(raw, n);
    assert ResolveTag(inner, table) == Trim(ApplyCharacterLimit(raw, n));
    TrimmedPrefixOccurs(raw, n);
  }

  lemma TrimmedPrefixOccurs(raw: string, n: nat)
    ensures n > 0 ==> |Trim(ApplyCharacterLimit(raw, n))| <= n
    ensures exists i :: OccursAt(raw, Trim(ApplyCharacterLimit(raw, n)), i)
  {
    var cut := ApplyCharacterLimit(raw, n);
    var r := Trim(cut);
    var i :| OccursAt(cut, r, i);
    OccursInPrefix(raw, cut, r, i);
  }

  /** What occurs in a prefix of a text occurs, at the same place, in the text. */
  lemma OccursInPrefix(s: string, p: string, t: string, i: int)
    requires |p| <= |s| && p == s[..|p|] && OccursAt(p, t, i)
    ensures OccursAt(s, t, i)
  {
    assert s[..|p|][i..i + |t|] == s[i..i + |t|];
  }

  /** Every character of every word comes from the text. */
  lemma {:induction false} WordsCharsFrom(s: string)
    ensures forall k, j :: 0 <= k < |Words(s)| && 0 <= j < |Words(s)[k]| ==> Words(s)[k][j] in s
    decreases |s|
  {
    if s != [] {
      if IsWordSeparator(s[0]) {
        WordsCharsFrom(s[1..]);
        assert forall c :: c in s[1..] ==> c in s;
      } else {
        var n := LeadingWordLength(s);
        WordsCharsFrom(s[n..]);
        assert forall c :: c in s[n..] ==> c in s;
        assert forall c :: c in s[..n] ==> c in s;
        var ws := Words(s);
        forall k, j | 0 <= k < |ws| && 0 <= j < |ws[k]| ensures ws[k][j] in s {
          if k > 0 {
            assert ws[k] == Words(s[n..])[k - 1];
          } else {
            assert ws[0] == s[..n];
          }
        }
      }
    }
  }

  /** Text free of NUL and vertical tab: the only trimmable characters are word separators. */
  predicate NoNulOrVerticalTab(s: string) {
    forall j :: 0 <= j < |s| ==> s[j] != '\0' && s[j] != '\U{0B}'
  }

  /**
   * A word limit keeps exactly the first N words of the registered value,
   * joined by single spaces; trimming then changes nothing.
   */
  lemma ResolveWordLimitTag(inner: string, table: map<string, string>)
    requires ParseTag(inner).limit.WordLimit? && ParseTag(inner).limit.words > 0
    requires CanApplyCharacterLimitToTag(ParseTag(inner).name)
    requires NoNulOrVerticalTab(RawValue(ParseTag(inner).name, table))
    ensures ResolveTag(inner, table) == TrimWords(RawValue(ParseTag(inner).name, table), ParseTag(inner).limit.words)
    ensures Words(ResolveTag(inner, table)) == Take(Words(RawValue(ParseTag(inner).name, table)), ParseTag(inner).limit.words)
  {
    var p := ParseTag(inner);
    var raw := RawValue(p.name, table);
    var n := p.limit.words;
    var ws := Take(Words(raw), n);
    var text := JoinWords(ws);
    assert LimitedValue(raw, p.name, p.limit) == text;
    if ws != [] {
      assert forall k :: 0 <= k < |ws| ==> ws[k] == Words(raw)[k];
      JoinWordsEnds(ws);
      WordsCharsFrom(raw);
      var first := ws[0][0];
      var last := ws[|ws| - 1][|ws[|ws| - 1]| - 1];
      assert first in raw && last in raw;
      assert !IsTrimmable(first) && !IsTrimmable(last);
      TrimNoop(text);
    }
    TrimWordsKeepsFirstWords(raw, n);
  }

  // ---------------------------------------------------------------------
  // The memo of searches and replacements
  // ---------------------------------------------------------------------

  /** `$this->searches_replacements`: braced tag to replacement, in insertion order. */
  type Memo = seq<(string, string)>

  function Keys(memo: Memo): set<string> {
    set n | 0 <= n < |memo| :: memo[n].0
  }

  predicate DistinctKeys(memo: Memo) {
    forall a, b :: 0 <= a < b < |memo| ==> memo[a].0 != memo[b].0
  }

  /** Resolution against one replacement table, as a function of the captured tag. */
  function Resolver(table: map<string, string>): string -> string {
    t => ResolveTag(t, table)
  }

  /** The pair stored for a captured tag: its braced form and its resolution. */
  function Entry(t: string, resolve: string -> string): (string, string) {
    (Braced(t), resolve(t))
  }

  /** One iteration of the loop: a braced tag already present is skipped, any other appended. */
  function Step(memo: Memo, t: string, resolve: string -> string): (r: Memo)
    ensures Braced(t) in Keys(memo) ==> r == memo
    ensures Braced(t) !in Keys(memo) ==> r == memo + [Entry(t, resolve)]
  {
    if Braced(t) in Keys(memo) then memo else memo + [Entry(t, resolve)]
  }

  /**
   * The `foreach` over captured tags: a braced tag already in the memo keeps its
   * earlier replacement; any other is resolved and appended.
   */
  function ExtendMemo(memo: Memo, tags: seq<string>, resolve: string -> string): (r: Memo)
    ensures |memo| <= |r| && r[..|memo|] == memo
    decreases |tags|
  {
    if tags == [] then memo
    else
      var next := Step(memo, tags[0], resolve);
      assert next[..|memo|] == memo;
      var r := ExtendMemo(next, tags[1..], resolve);
      assert r[..|memo|] == r[..|next|][..|memo|];
      r
  }

  /** After the loop every captured tag has a replacement. */
  lemma {:induction false} ExtendMemoCovers(memo: Memo, tags: seq<string>, resolve: string -> string)
    ensures forall t :: t in tags ==> Braced(t) in Keys(ExtendMemo(memo, tags, resolve))
    ensures Keys(memo) <= Keys(ExtendMemo(memo, tags, resolve))
    decreases |tags|
  {
    if tags != [] {
      var key := Braced(tags[0]);
      var next := Step(memo, tags[0], resolve);
      assert key in Keys(next) by {
        if key !in Keys(memo) {
          assert next[|memo|].0 == key;
        }
      }
      assert Keys(memo) <= Keys(next) by {
        forall x | x in Keys(memo) ensures x in Keys(next) {
          var n :| 0 <= n < |memo| && memo[n].0 == x;
          assert next[n].0 == x;
        }
      }
      ExtendMemoCovers(next, tags[1..], resolve);
    }
  }

  /** Each braced tag is stored at most once. */
  lemma {:induction false} ExtendMemoDistinct(memo: Memo, tags: seq<string>, resolve: string -> string)
    requires DistinctKeys(memo)
    ensures DistinctKeys(ExtendMemo(memo, tags, resolve))
    decreases |tags|
  {
    if tags != [] {
      var key := Braced(tags[0]);
      var next := Step(memo, tags[0], resolve);
      assert DistinctKeys(next) by {
        if key !in Keys(memo) {
          forall a, b | 0 <= a < b < |next| ensures next[a].0 != next[b].0 {
            if b == |memo| {
              assert next[a].0 == memo[a].0 && memo[a].0 in Keys(memo);
            }
          }
        }
      }
      ExtendMemoDistinct(next, tags[1..], resolve);
    }
  }

  /** `e` is the entry of one of the tags. */
  predicate EntryOfSome(e: (string, string), tags: seq<string>, resolve: string -> string) {
    exists t :: t in tags && e == Entry(t, resolve)
  }

  /** Every entry the loop adds is a captured tag paired with its resolution. */
  lemma {:induction false} ExtendMemoNewEntries(memo: Memo, tags: seq<string>, resolve: string -> string)
    ensures forall n :: |memo| <= n < |ExtendMemo(memo, tags, resolve)| ==>
      EntryOfSome(ExtendMemo(memo, tags, resolve)[n], tags, resolve)
    decreases |tags|
  {
    if tags != [] {
      var next := Step(memo, tags[0], resolve);
      ExtendMemoNewEntries(next, tags[1..], resolve);
      var r := ExtendMemo(next, tags[1..], resolve);
      assert r[..|next|] == next;
      forall n | |memo| <= n < |r| ensures EntryOfSome(r[n], tags, resolve) {
        if n < |next| {
          assert r[n] == next[n] == Entry(tags[0], resolve);
          assert tags[0] in tags;
        } else {
          assert EntryOfSome(r[n], tags[1..], resolve);
          var t :| t in tags[1..] && r[n] == Entry(t, resolve);
          assert t in tags;
        }
      }
    }
  }

  /** Tags that are all already in the memo leave it untouched (replacements persist for the cycle). */
  lemma {:induction false} ExtendMemoKnown(memo: Memo, tags: seq<string>, resolve: string -> string)
    requires forall t :: t in tags ==> Braced(t) in Keys(memo)
    ensures ExtendMemo(memo, tags, resolve) == memo
    decreases |tags|
  {
    if tags != [] {
      ExtendMemoKnown(memo, tags[1..], resolve);
    }
  }

  /** Running the loop a second time over the same tags changes nothing. */
  lemma ExtendMemoIdempotent(memo: Memo, tags: seq<string>, resolve: string -> string)
    ensures ExtendMemo(ExtendMemo(memo, tags, resolve), tags, resolve) == ExtendMemo(memo, tags, resolve)
  {
    ExtendMemoCovers(memo, tags, resolve);
    ExtendMemoKnown(ExtendMemo(memo, tags, resolve), tags, resolve);
  }

  // ---------------------------------------------------------------------
  // Rendering
  // ---------------------------------------------------------------------

  /**
   * `str_replace( array_keys( $memo ), $memo, $text )`: each pair in order, on
   * the result of the previous ones; an empty search string is skipped.
   */
  function ReplaceEach(memo: Memo, text: string): string
    decreases |memo|
  {
    if memo == [] then text
    else if memo[0].0 == [] then ReplaceEach(memo[1..], text)
    else ReplaceEach(memo[1..], ReplaceAll(text, memo[0].0, memo[0].1))
  }

  /** Replacement, then `str_replace( '  ', '', $text )`. */
  function Render(memo: Memo, text: string): (r: string)
    ensures NoDoubleSpace(r)
  {
    RemoveDoubleSpacesLeavesNone(ReplaceEach(memo, text));
    RemoveDoubleSpaces(ReplaceEach(memo, text))
  }

  /** Pairs whose search string is absent from the text leave it as it is. */
  lemma {:induction false} ReplaceEachAbsent(memo: Memo, text: string)
    requires forall n :: 0 <= n < |memo| && memo[n].0 != [] ==> !Contains(text, memo[n].0)
    ensures ReplaceEach(memo, text) == text
    decreases |memo|
  {
    if memo != [] {
      if memo[0].0 != [] {
        ReplaceAllAbsent(text, memo[0].0, memo[0].1);
      }
      ReplaceEachAbsent(memo[1..], text);
    }
  }

  // ---------------------------------------------------------------------
  // parse_text as a whole
  // ---------------------------------------------------------------------

  /** The text `parse_text` returns and the memo it leaves behind. */
  datatype Parsed = Parsed(text: string, memo: Memo)

  /**
   * The value of `parse_text` given the registered replacement table and the
   * memo left by earlier calls in the same cycle.
   */
  function ParseText(memo: Memo, table: map<string, string>, message: string): (p: Parsed)
    ensures |memo| <= |p.memo| && p.memo[..|memo|] == memo
  {
    if |table| == 0 then Parsed(message, memo)
    else
      var tags := FindTags(message, 0);
      if tags == [] then Parsed(message, memo)
      else
        var m := ExtendMemo(memo, tags, Resolver(table));
        Parsed(Render(m, message), m)
  }

  /** The two ways `parse_text` returns the message untouched: an empty table, or no tag in the message. */
  lemma ParseTextUnchanged(memo: Memo, table: map<string, string>, message: string)
    requires |table| == 0 || FindTags(message, 0) == []
    ensures ParseText(memo, table, message) == Parsed(message, memo)
  {
  }

  /** Otherwise the memo is extended by the message's tags and the text rendered with it. */
  lemma ParseTextRendered(memo: Memo, table: map<string, string>, message: string)
    requires |table| > 0 && FindTags(message, 0) != []
    ensures var m := ExtendMemo(memo, FindTags(message, 0), Resolver(table));
      ParseText(memo, table, message) == Parsed(Render(m, message), m)
  {
  }

  /** One turn of the loop over captured tags. */
  lemma ExtendMemoLoopStep(memo: Memo, tags: seq<string>, i: nat, resolve: string -> string)
    requires i < |tags|
    ensures ExtendMemo(memo, tags[i..], resolve) ==
      ExtendMemo(if Braced(tags[i]) in Keys(memo) then memo else memo + [(Braced(tags[i]), resolve(tags[i]))],
                 tags[i + 1..], resolve)
  {
    assert tags[i..][0] == tags[i];
    assert tags[i..][1..] == tags[i + 1..];
  }

  /** A message without tags comes back exactly as it went in, double spaces included. */
  lemma ParseTextNoTags(memo: Memo, table: map<string, string>, message: string)
    requires forall i, k :: 0 <= i ==> !TagSpan(message, i, k)
    ensures ParseText(memo, table, message) == Parsed(message, memo)
  {
    FindTagsEmptyIff(message, 0);
  }

  /**
   * A message with a tag, against a non-empty table: every tag it holds is in the
   * memo afterwards, keys stay distinct, and the text has no double space left.
   */
  lemma ParseTextCovers(memo: Memo, table: map<string, string>, message: string)
    requires |table| > 0 && DistinctKeys(memo)
    requires exists i, k :: TagSpan(message, i, k)
    ensures var p := ParseText(memo, table, message);
      && (forall t :: t in FindTags(message, 0) ==> Braced(t) in Keys(p.memo))
      && DistinctKeys(p.memo)
      && NoDoubleSpace(p.text)
  {
    FindTagsEmptyIff(message, 0);
    ExtendMemoCovers(memo, FindTags(message, 0), Resolver(table));
    ExtendMemoDistinct(memo, FindTags(message, 0), Resolver(table));
  }

  /** A braced tag stored earlier in the cycle keeps its replacement, even if the table changed since. */
  lemma ParseTextKeepsEarlierReplacement(memo: Memo, table: map<string, string>, message: string, n: nat)
    requires n < |memo|
    ensures n < |ParseText(memo, table, message).memo|
    ensures ParseText(memo, table, message).memo[n] == memo[n]
  {
    var p := ParseText(memo, table, message);
    assert p.memo[..|memo|][n] == memo[n];
  }

  /**
   * Once a message has been parsed, parsing it again in the same cycle finds
   * every tag already memoised: the memo is unchanged and the text is the same.
   */
  lemma ParseTextRepeatable(memo: Memo, table: map<string, string>, message: string)
    ensures var p := ParseText(memo, table, message);
      ParseText(p.memo, table, message) == p
  {
    var tags := FindTags(message, 0);
    if |table| > 0 && tags != [] {
      var m := ExtendMemo(memo, tags, Resolver(table));
      ExtendMemoCovers(memo, tags, Resolver(table));
      ExtendMemoKnown(m, tags, Resolver(table));
    }
  }

  lemma NoDoubleSpaceKept(s: string)
    requires NoDoubleSpace(s)
    ensures RemoveDoubleSpaces(s) == s
  {
    NoDoubleSpaceNotContained(s);
    ReplaceAllAbsent(s, "  ", "");
  }

  /** A tag without `(` carries no limit and is looked up whole. */
  lemma ParseTagNoParen(inner: string)
    requires forall j :: 0 <= j < |inner| ==> inner[j] != '('
    ensures ParseTag(inner) == TagParams(inner, NoLimit)
  {
    forall j | 0 <= j < |inner| ensures !OccursAt(inner, "(", j) {
      OccursAtChar(inner, '(', j);
    }
    assert FindFrom(inner, "(", 0).None?;
  }

  /** A tag without `(` resolves to its registered value, trimmed. */
  lemma ResolvePlainTag(inner: string, table: map<string, string>)
    requires forall j :: 0 <= j < |inner| ==> inner[j] != '('
    ensures ResolveTag(inner, table) == Trim(RawValue(inner, table))
  {
    ParseTagNoParen(inner);
    ResolveWithParams(inner, table, TagParams(inner, NoLimit));
  }

  /** A tag without `(` whose registered value has no trimmable ends resolves to exactly that value. */
  lemma ResolveCleanPlainTag(inner: string, table: map<string, string>)
    requires forall j :: 0 <= j < |inner| ==> inner[j] != '('
    requires inner in table && table[inner] != []
    requires !IsTrimmable(table[inner][0]) && !IsTrimmable(table[inner][|table[inner]| - 1])
    ensures ResolveTag(inner, table) == table[inner]
  {
    ResolvePlainTag(inner, table);
    TrimNoop(table[inner]);
  }

  /** The resolution of a tag whose parameters are known. */
  lemma ResolveWithParams(inner: string, table: map<string, string>, p: TagParams)
    requires ParseTag(inner) == p
    ensures ResolveTag(inner, table) == Trim(LimitedValue(RawValue(p.name, table), p.name, p.limit))
  {
  }
}
