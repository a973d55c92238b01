/**
 * A worked example of `parse_text`: the message `{title}: {content(11)}` with
 * title `Hello` and content `World wide web`, followed tag by tag.
 */
module TagResolverExamples {
  import opened Wrappers
  import opened PhpStrings
  import opened TagResolver
  import Common

  const ExampleMessage := "{title}: {content(11)}"

  function ExampleTable(): map<string, string> {
    map["title" := "Hello", "content" := "World wide web"]
  }

  lemma ExampleFirstTag(s: string)
    requires s == ExampleMessage
    ensures |s| == 22 && TagEnd(s, 0) == Some(6) && s[1..6] == "title"
  {
    assert s[0] == '{' && s[1] != '\n' && s[6] == '}';
    assert forall j :: 2 <= j < 6 ==> s[j] != '}' && s[j] != '\n';
    FirstCloseIs(s, 2, 6);
  }

  lemma ExampleSecondTag(s: string)
    requires s == ExampleMessage
    ensures TagEnd(s, 9) == Some(21) && s[10..21] == "content(11)"
  {
    assert s[9] == '{' && s[10] != '\n' && s[21] == '}';
    assert forall j :: 11 <= j < 21 ==> s[j] != '}' && s[j] != '\n';
    FirstCloseIs(s, 11, 21);
  }

  lemma ExampleGap(s: string)
    requires s == ExampleMessage
    ensures FindTags(s, 7) == FindTags(s, 9)
  {
    assert s[7] == ':' && s[8] == ' ';
    assert FindTags(s, 7) == FindTags(s, 8);
  }

  lemma ExampleTags(s: string)
    requires s == ExampleMessage
    ensures FindTags(s, 0) == ["title", "content(11)"]
  {
    ExampleFirstTag(s);
    ExampleSecondTag(s);
    ExampleGap(s);
    assert FindTags(s, 22) == [];
    assert FindTags(s, 9) == ["content(11)"];
    assert FindTags(s, 0) == ["title"] + FindTags(s, 7);
  }

  lemma ExampleContentTag()
    ensures ParseTag("content(11)") == TagParams("content", CharLimit(11))
  {
    assert NatToString(11) == "11";
    assert "content" + "(" + NatToString(11) + ")" == "content(11)";
    ParseCharLimitTag("content", 11);
  }

  lemma ExampleContentCut()
    ensures Trim(ApplyCharacterLimit("World wide web", 11)) == "World wide"
  {
    var raw := "World wide web";
    assert raw[..11] == "World wide" + " ";
    TrimTrailingSpace("World wide");
  }

  lemma ExampleResolveContent(inner: string, table: map<string, string>)
    requires inner == "content(11)" && table == ExampleTable()
    ensures ResolveTag(inner, table) == "World wide"
  {
    ExampleContentTag();
    var raw := RawValue("content", table);
    assert raw == "World wide web";
    CharLimitedValue(raw, "content", 11);
    ExampleContentCut();
    ResolveWithParams(inner, table, TagParams("content", CharLimit(11)));
  }

  lemma ExampleMemo(tags: seq<string>, resolve: string -> string)
    requires tags == ["title", "content(11)"]
    requires resolve("title") == "Hello" && resolve("content(11)") == "World wide"
    ensures ExtendMemo([], tags, resolve) == [("{title}", "Hello"), ("{content(11)}", "World wide")]
  {
    assert Braced("title") == "{title}";
    assert Braced("content(11)") == "{content(11)}";
    assert Keys([]) == {};
    var m1 := Step([], "title", resolve);
    assert m1 == [] + [("{title}", "Hello")];
    assert "{content(11)}" !in Keys(m1) by {
      assert "{content(11)}"[1] != "{title}"[1];
    }
    var m2 := Step(m1, "content(11)", resolve);
    assert m2 == m1 + [("{content(11)}", "World wide")];
    assert tags[1..] == ["content(11)"];
    assert ExtendMemo([], tags, resolve) == ExtendMemo(m1, ["content(11)"], resolve);
    assert ExtendMemo(m1, ["content(11)"], resolve) == ExtendMemo(m2, [], resolve);
  }

  lemma ExampleTitleAbsent(rest: string, key: string)
    requires rest == ": {content(11)}" && key == "{title}"
    ensures !Contains(rest, key)
  {
    assert forall j :: 0 <= j < |rest| ==> rest[j] != '{' || j == 2;
    assert rest[2..2 + |key|][1] == rest[3];
    NoOccurrenceBut(rest, key, 2);
  }

  lemma ExampleTitleFirst(s: string, key: string, value: string)
    requires s == "{title}: {content(11)}" && key == "{title}" && value == "Hello"
    ensures ReplaceAll(s, key, value) == value + ReplaceAll(s[7..], key, value)
  {
    assert s[..7] == key;
    ReplaceAllPrefix(s, key, value);
  }

  lemma ExampleTitleRest(s: string, key: string, value: string)
    requires s == "{title}: {content(11)}" && key == "{title}" && value == "Hello"
    ensures ReplaceAll(s[7..], key, value) == s[7..]
  {
    ExampleTitleAbsent(s[7..], key);
    ReplaceAllAbsent(s[7..], key, value);
  }

  lemma ExampleTitleJoin(s: string, value: string)
    requires s == "{title}: {content(11)}" && value == "Hello"
    ensures value + s[7..] == "Hello: {content(11)}"
  {
    assert s[7..] == ": {content(11)}";
  }

  lemma ExampleReplaceTitle(s: string, key: string, value: string)
    requires s == "{title}: {content(11)}" && key == "{title}" && value == "Hello"
    ensures ReplaceAll(s, key, value) == "Hello: {content(11)}"
  {
    ExampleTitleFirst(s, key, value);
    ExampleTitleRest(s, key, value);
    ExampleTitleJoin(s, value);
  }

  lemma ExampleReplaceContent(s: string, key: string, value: string)
    requires s == "Hello: {content(11)}" && key == "{content(11)}" && value == "World wide"
    ensures ReplaceAll(s, key, value) == "Hello: World wide"
  {
    assert s == "Hello: " + key;
    ReplaceAfterPlain("Hello: ", key, value);
  }

  lemma ExampleNoDoubleSpace(t: string)
    requires t == "Hello: World wide"
    ensures RemoveDoubleSpaces(t) == t
  {
    assert NoDoubleSpace(t);
    NoDoubleSpaceKept(t);
  }

  lemma ExampleRender(memo: Memo, s: string)
    requires memo == [("{title}", "Hello"), ("{content(11)}", "World wide")]
    requires s == "{title}: {content(11)}"
    ensures Render(memo, s) == "Hello: World wide"
  {
    var mid := ReplaceAll(s, memo[0].0, memo[0].1);
    ExampleReplaceTitle(s, memo[0].0, memo[0].1);
    var out := ReplaceAll(mid, memo[1].0, memo[1].1);
    ExampleReplaceContent(mid, memo[1].0, memo[1].1);
    assert memo[1..][1..] == [];
    assert ReplaceEach(memo, s) == ReplaceEach(memo[1..], mid);
    assert ReplaceEach(memo[1..], mid) == ReplaceEach([], out);
    ExampleNoDoubleSpace(out);
  }

  /**
   * `{title}: {content(11)}` with title "Hello" and content "World wide web":
   * the content is cut to "World wide " and then trimmed.
   */
  lemma ParseTextExample(table: map<string, string>, message: string)
    requires table == ExampleTable() && message == ExampleMessage
    ensures ParseText([], table, message).text == "Hello: World wide"
  {
    ExampleTags(message);
    ExampleResolver(table);
    ExampleMemo(FindTags(message, 0), Resolver(table));
    var memo := [("{title}", "Hello"), ("{content(11)}", "World wide")];
    ExampleRender(memo, message);
    ParseTextSteps([], table, message, memo, "Hello: World wide");
  }

  lemma ExampleResolver(table: map<string, string>)
    requires table == ExampleTable()
    ensures |table| > 0
    ensures Resolver(table)("title") == "Hello" && Resolver(table)("content(11)") == "World wide"
  {
    assert table["title"] == "Hello";
    ResolveCleanPlainTag("title", table);
    ExampleResolveContent("content(11)", table);
  }

  lemma FirstCloseIs(s: string, k: nat, m: nat)
    requires k <= m < |s| && s[m] == '}'
    requires forall j :: k <= j < m ==> s[j] != '}' && s[j] != '\n'
    ensures FirstClose(s, k) == Some(m)
  {
  }

  /** Trimming a text with untrimmable ends and one trailing space gives the text. */
  lemma TrimTrailingSpace(s: string)
    requires s != [] && !IsTrimmable(s[0]) && !IsTrimmable(s[|s| - 1])
    ensures Trim(s + " ") == s
  {
    var t := s + " ";
    assert TrimStart(t) == t;
    assert t[..|t| - 1] == s;
    assert TrimEnd(t) == TrimEnd(s);
    TrimNoop(s);
  }

  /** A tag that may be limited, with a character limit, gets `apply_character_limit`. */
  lemma CharLimitedValue(raw: string, name: string, n: nat)
    requires name == "content"
    ensures LimitedValue(raw, name, CharLimit(n)) == ApplyCharacterLimit(raw, n)
  {
    assert CanApplyCharacterLimitToTag(name) by {
      assert forall t :: t in Common.TagsExcludedFromCharacterLimit() ==> |t| != 7 || t[0] != 'c';
    }
  }

  /** A string whose only possible start of `t` is at `at`, where `t` does not occur, does not contain `t`. */
  lemma NoOccurrenceBut(s: string, t: string, at: nat)
    requires t != [] && forall j :: 0 <= j < |s| ==> s[j] != t[0] || j == at
    requires !OccursAt(s, t, at)
    ensures !Contains(s, t)
  {
    ContainsIff(s, t);
    forall i | 0 <= i ensures !OccursAt(s, t, i) {
      if i != at && i + |t| <= |s| {
        assert s[i..i + |t|][0] == s[i];
      }
    }
  }

  /** Replacing a key that follows a prefix free of the key's first character changes only the key. */
  lemma ReplaceAfterPlain(p: string, key: string, value: string)
    requires key != [] && forall j :: 0 <= j < |p| ==> p[j] != key[0]
    ensures ReplaceAll(p + key, key, value) == p + value
  {
    var s := p + key;
    assert s[|p|..] == key && s[..|p|] == p;
    ReplaceAllAfter(s, |p|, key, value);
  }

  /** A text that ends with the only occurrence of `search`, at `at`, has just that one replaced. */
  lemma ReplaceAllAfter(s: string, at: nat, search: string, replace: string)
    requires search != [] && at + |search| == |s| && s[at..] == search
    requires forall j :: 0 <= j < at ==> s[j] != search[0]
    ensures ReplaceAll(s, search, replace) == s[..at] + replace
  {
    assert s == s[..at] + search;
    ReplaceAllFreePrefix(s[..at], search, search, replace);
    ReplaceAllPrefix(search, search, replace);
    assert search[|search|..] == [];
  }

  /** `parse_text` on a message with tags renders it with the memo extended by those tags. */
  lemma ParseTextSteps(memo: Memo, table: map<string, string>, message: string, m: Memo, text: string)
    requires |table| > 0 && FindTags(message, 0) != []
    requires ExtendMemo(memo, FindTags(message, 0), Resolver(table)) == m && Render(m, message) == text
    ensures ParseText(memo, table, message) == Parsed(text, m)
  {
  }
}
