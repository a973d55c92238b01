/**
 * The PHP and WordPress string built-ins that the publish pipeline relies on:
 * `strpos`, `str_replace`, `trim`, `absint`, `wp_trim_words` and the decimal
 * rendering of integers. A PHP string is a sequence of bytes; here each byte is
 * one `char`, so `strlen` is `|s|` and `substr( $s, 0, $n )` is `s[..n]`.
 */
module PhpStrings {

  /** `t` occurs in `s` starting at index `i`. */
  predicate OccursAt(s: string, t: string, i: int) {
    0 <= i && i + |t| <= |s| && s[i..i + |t|] == t
  }

  /** `strpos( $s, $t ) !== false` */
  function Contains(s: string, t: string): bool
    decreases |s|
  {
    if |s| < |t| then false
    else if s[..|t|] == t then true
    else Contains(s[1..], t)
  }

  lemma {:induction false} ContainsIff(s: string, t: string)
    ensures Contains(s, t) <==> exists i :: OccursAt(s, t, i)
    decreases |s|
  {
    if |s| < |t| {
    } else if s[..|t|] == t {
      assert OccursAt(s, t, 0);
    } else {
      ContainsIff(s[1..], t);
      if exists i :: OccursAt(s[1..], t, i) {
        var i :| OccursAt(s[1..], t, i);
        assert s[1..][i..i + |t|] == s[i + 1..i + 1 + |t|];
        assert OccursAt(s, t, i + 1);
      }
      if exists i :: OccursAt(s, t, i) {
        var i :| OccursAt(s, t, i);
        assert i != 0;
        assert s[1..][i - 1..i - 1 + |t|] == s[i..i + |t|];
        assert OccursAt(s[1..], t, i - 1);
      }
    }
  }

  /**
   * `str_replace( $search, $replace, $s )` for one non-empty search string:
   * occurrences are found from left to right and never overlap.
   */
  function ReplaceAll(s: string, search: string, replace: string): string
    requires search != []
    decreases |s|
  {
    if |s| < |search| then s
    else if s[..|search|] == search then replace + ReplaceAll(s[|search|..], search, replace)
    else [s[0]] + ReplaceAll(s[1..], search, replace)
  }

  /** A string in which the search string does not occur is left as it is. */
  lemma {:induction false} ReplaceAllAbsent(s: string, search: string, replace: string)
    requires search != [] && !Contains(s, search)
    ensures ReplaceAll(s, search, replace) == s
    decreases |s|
  {
    if |s| >= |search| {
      ReplaceAllAbsent(s[1..], search, replace);
    }
  }

  /** A string that starts with `search` has that occurrence replaced first. */
  lemma ReplaceAllPrefix(s: string, search: string, replace: string)
    requires search != [] && |search| <= |s| && s[..|search|] == search
    ensures ReplaceAll(s, search, replace) == replace + ReplaceAll(s[|search|..], search, replace)
  {
  }

  /** A string that does not start with `search` keeps its first character. */
  lemma ReplaceAllSkip(s: string, search: string, replace: string)
    requires search != [] && |search| <= |s| && s[..|search|] != search
    ensures ReplaceAll(s, search, replace) == [s[0]] + ReplaceAll(s[1..], search, replace)
  {
  }

  /** A prefix holding no first character of `search` passes through unchanged. */
  lemma {:induction false} ReplaceAllFreePrefix(p: string, t: string, search: string, replace: string)
    requires search != []
    requires forall j :: 0 <= j < |p| ==> p[j] != search[0]
    ensures ReplaceAll(p + t, search, replace) == p + ReplaceAll(t, search, replace)
    decreases |p|
  {
    if p == [] {
      assert p + t == t;
    } else {
      var u := p + t;
      if |u| < |search| {
        assert ReplaceAll(t, search, replace) == t;
      } else {
        assert u[..|search|][0] == p[0] != search[0];
        ReplaceAllSkip(u, search, replace);
        assert u[1..] == p[1..] + t;
        forall j | 0 <= j < |p| - 1 ensures p[1..][j] != search[0] {
          assert p[1..][j] == p[j + 1];
        }
        ReplaceAllFreePrefix(p[1..], t, search, replace);
      }
    }
  }

  // ---------------------------------------------------------------------
  // Double spaces: `str_replace( '  ', '', $text )`
  // ---------------------------------------------------------------------

  function Spaces(k: nat): (r: string)
    ensures |r| == k && forall i :: 0 <= i < k ==> r[i] == ' '
  {
    seq(k, _ => ' ')
  }

  /** Deletes every non-overlapping pair of spaces, scanning once from the left. */
  function RemoveDoubleSpaces(s: string): string {
    ReplaceAll(s, "  ", "")
  }

  predicate NoDoubleSpace(s: string) {
    forall i :: 0 <= i < |s| - 1 ==> !(s[i] == ' ' && s[i + 1] == ' ')
  }

  /** A string that does not start with a space keeps its first character. */
  lemma RemoveDoubleSpacesHead(s: string)
    requires s != [] && s[0] != ' '
    ensures RemoveDoubleSpaces(s) != [] && RemoveDoubleSpaces(s)[0] == s[0]
  {
    if |s| >= 2 {
      assert s[..2] != "  ";
    }
  }

  /**
   * A maximal run of k spaces becomes k mod 2 spaces: "a    b" gives "ab" and
   * "a   b" gives "a b".
   */
  lemma {:induction false} RemoveDoubleSpacesRun(k: nat, t: string)
    requires t == [] || t[0] != ' '
    ensures RemoveDoubleSpaces(Spaces(k) + t) == Spaces(k % 2) + RemoveDoubleSpaces(t)
    decreases k
  {
    var s := Spaces(k) + t;
    if k >= 2 {
      assert s[..2] == "  ";
      assert s[2..] == Spaces(k - 2) + t;
      RemoveDoubleSpacesRun(k - 2, t);
    } else if k == 1 {
      if t == [] {
        assert s == " ";
      } else {
        assert s[1] == t[0];
        assert s[..2] != "  ";
        assert s[1..] == t;
      }
    } else {
      assert s == t;
    }
  }

  /** A character other than a space is copied to the output. */
  lemma RemoveDoubleSpacesCons(c: char, t: string)
    requires c != ' '
    ensures RemoveDoubleSpaces([c] + t) == [c] + RemoveDoubleSpaces(t)
  {
    var s := [c] + t;
    if |s| >= 2 {
      assert s[..2][0] == c;
      assert s[..2] != "  ";
    }
    assert s[1..] == t;
  }

  lemma RemoveDoubleSpacesExamples()
    ensures RemoveDoubleSpaces("a    b") == "ab"
    ensures RemoveDoubleSpaces("a   b") == "a b"
  {
    RemoveDoubleSpacesRun(4, "b");
    RemoveDoubleSpacesRun(3, "b");
    assert "a    b" == ['a'] + (Spaces(4) + "b");
    assert "a   b" == ['a'] + (Spaces(3) + "b");
    RemoveDoubleSpacesCons('a', Spaces(4) + "b");
    RemoveDoubleSpacesCons('a', Spaces(3) + "b");
    RemoveDoubleSpacesCons('b', "");
  }

  /** The single pass leaves no two adjacent spaces behind. */
  lemma {:induction false} RemoveDoubleSpacesLeavesNone(s: string)
    ensures NoDoubleSpace(RemoveDoubleSpaces(s))
    decreases |s|
  {
    if |s| < 2 {
    } else if s[..2] == "  " {
      RemoveDoubleSpacesLeavesNone(s[2..]);
    } else {
      var rest := RemoveDoubleSpaces(s[1..]);
      RemoveDoubleSpacesLeavesNone(s[1..]);
      assert RemoveDoubleSpaces(s) == [s[0]] + rest;
      if s[0] == ' ' {
        assert s[1] != ' ';
        RemoveDoubleSpacesHead(s[1..]);
      }
    }
  }

  lemma {:induction false} NoDoubleSpaceNotContained(s: string)
    requires NoDoubleSpace(s)
    ensures !Contains(s, "  ")
    decreases |s|
  {
    if |s| >= 2 {
      assert !(s[0] == ' ' && s[1] == ' ');
      assert s[..2] != "  " by {
        assert s[..2][0] == s[0] && s[..2][1] == s[1];
      }
      assert NoDoubleSpace(s[1..]) by {
        forall i | 0 <= i < |s[1..]| - 1 ensures !(s[1..][i] == ' ' && s[1..][i + 1] == ' ') {
          assert s[1..][i] == s[i + 1] && s[1..][i + 1] == s[i + 2];
        }
      }
      NoDoubleSpaceNotContained(s[1..]);
    }
  }

  /** Removing double spaces a second time changes nothing. */
  lemma RemoveDoubleSpacesIdempotent(s: string)
    ensures RemoveDoubleSpaces(RemoveDoubleSpaces(s)) == RemoveDoubleSpaces(s)
  {
    RemoveDoubleSpacesLeavesNone(s);
    NoDoubleSpaceNotContained(RemoveDoubleSpaces(s));
    ReplaceAllAbsent(RemoveDoubleSpaces(s), "  ", "");
  }

  // ---------------------------------------------------------------------
  // trim()
  // ---------------------------------------------------------------------

  /** The characters PHP's `trim` strips by default: " \t\n\r\0\x0B". */
  predicate IsTrimmable(c: char) {
    c == ' ' || c == '\t' || c == '\n' || c == '\r' || c == '\0' || c == '\U{0B}'
  }

  function TrimStart(s: string): (r: string)
    ensures |r| <= |s| && r == s[|s| - |r|..]
    ensures r == [] || !IsTrimmable(r[0])
    ensures forall k :: 0 <= k < |s| - |r| ==> IsTrimmable(s[k])
    decreases |s|
  {
    if s != [] && IsTrimmable(s[0]) then TrimStart(s[1..]) else s
  }

  function TrimEnd(s: string): (r: string)
    ensures |r| <= |s| && r == s[..|r|]
    ensures r == [] || !IsTrimmable(r[|r| - 1])
    ensures forall k :: |r| <= k < |s| ==> IsTrimmable(s[k])
    decreases |s|
  {
    if s != [] && IsTrimmable(s[|s| - 1]) then TrimEnd(s[..|s| - 1]) else s
  }

  /** `trim( $s )`: the longest infix whose first and last characters are not trimmable. */
  function Trim(s: string): (r: string)
    ensures r == [] || (!IsTrimmable(r[0]) && !IsTrimmable(r[|r| - 1]))
    ensures exists i :: OccursAt(s, r, i)
  {
    var t := TrimStart(s);
    var r := TrimEnd(t);
    assert OccursAt(s, r, |s| - |t|) by {
      assert r == t[..|r|];
      assert t == s[|s| - |t|..];
      assert t[..|r|] == s[|s| - |t|..|s| - |t| + |r|];
    }
    r
  }

  /** A string that already has no trimmable ends is returned unchanged. */
  lemma TrimNoop(s: string)
    requires s == [] || (!IsTrimmable(s[0]) && !IsTrimmable(s[|s| - 1]))
    ensures Trim(s) == s
  {
  }

  /** `r` is `s` with trimmable characters, and only those, cut from the front (i of them) and the back. */
  predicate TrimmedAt(s: string, r: string, i: int) {
    OccursAt(s, r, i)
    && (forall k :: 0 <= k < i ==> IsTrimmable(s[k]))
    && (forall k :: i + |r| <= k < |s| ==> IsTrimmable(s[k]))
  }

  /** Only trimmable characters are removed, from both ends. */
  lemma TrimRemovesOnlyTrimmable(s: string)
    ensures exists i :: TrimmedAt(s, Trim(s), i)
  {
    var t := TrimStart(s);
    var i := |s| - |t|;
    var r := TrimEnd(t);
    assert Trim(s) == r;
    assert r == t[..|r|] && t == s[i..];
    assert r == s[i..i + |r|];
    forall k | i + |r| <= k < |s| ensures IsTrimmable(s[k]) {
      assert s[k] == t[k - i];
    }
    assert TrimmedAt(s, r, i);
  }

  // ---------------------------------------------------------------------
  // Decimal digits, intval() and absint()
  // ---------------------------------------------------------------------

  predicate IsDigit(c: char) {
    '0' <= c <= '9'
  }

  predicate AllDigits(s: string) {
    forall k :: 0 <= k < |s| ==> IsDigit(s[k])
  }

  function DigitChar(d: nat): (c: char)
    requires d < 10
    ensures IsDigit(c) && c as int - '0' as int == d
  {
    "0123456789"[d]
  }

  /** The decimal rendering PHP gives a non-negative integer. */
  function NatToString(n: nat): (r: string)
    ensures r != [] && AllDigits(r)
    ensures n < 10 <==> |r| == 1
    decreases n
  {
    if n < 10 then [DigitChar(n)] else NatToString(n / 10) + [DigitChar(n % 10)]
  }

  /** The value of a string of decimal digits (leading zeros allowed). */
  function DigitsValue(s: string): nat
    requires AllDigits(s)
    decreases |s|
  {
    if s == [] then 0
    else DigitsValue(s[..|s| - 1]) * 10 + (s[|s| - 1] as int - '0' as int)
  }

  /** Reading back a rendered number gives the number. */
  lemma {:induction false} DigitsValueOfNatToString(n: nat)
    ensures DigitsValue(NatToString(n)) == n
    decreases n
  {
    if n >= 10 {
      var s := NatToString(n);
      assert s[..|s| - 1] == NatToString(n / 10);
      DigitsValueOfNatToString(n / 10);
    }
  }

  /** A leading zero does not change the value. */
  lemma {:induction false} DigitsValueLeadingZero(s: string)
    requires AllDigits(s)
    ensures AllDigits("0" + s) && DigitsValue("0" + s) == DigitsValue(s)
    decreases |s|
  {
    if s != [] {
      var z := "0" + s;
      assert z[..|z| - 1] == "0" + s[..|s| - 1];
      DigitsValueLeadingZero(s[..|s| - 1]);
    }
  }

  /** Whitespace that PHP skips before a number: " \t\n\r\v\f". */
  predicate IsNumericSpace(c: char) {
    c == ' ' || c == '\t' || c == '\n' || c == '\r' || c == '\U{0B}' || c == '\U{0C}'
  }

  function SkipNumericSpace(s: string): (r: string)
    ensures |r| <= |s| && r == s[|s| - |r|..]
    ensures r == [] || !IsNumericSpace(r[0])
    decreases |s|
  {
    if s != [] && IsNumericSpace(s[0]) then SkipNumericSpace(s[1..]) else s
  }

  /** The longest prefix made of digits. */
  function LeadingDigits(s: string): (r: string)
    ensures AllDigits(r) && |r| <= |s| && r == s[..|r|]
    ensures |r| < |s| ==> !IsDigit(s[|r|])
    decreases |s|
  {
    if s != [] && IsDigit(s[0]) then [s[0]] + LeadingDigits(s[1..]) else []
  }

  lemma {:induction false} LeadingDigitsOfDigits(s: string)
    requires AllDigits(s)
    ensures LeadingDigits(s) == s
    decreases |s|
  {
    if s != [] {
      LeadingDigitsOfDigits(s[1..]);
    }
  }

  /**
   * `absint( $s )`, that is `abs( (int) $s )`: optional leading whitespace, an
   * optional sign, then as many digits as there are; anything else gives 0.
   */
  function AbsInt(s: string): nat {
    var t := SkipNumericSpace(s);
    if t != [] && (t[0] == '-' || t[0] == '+') then DigitsValue(LeadingDigits(t[1..]))
    else DigitsValue(LeadingDigits(t))
  }

  /** `absint` reads back any rendered number, and gives 0 without digits. */
  lemma AbsIntOfNatToString(n: nat)
    ensures AbsInt(NatToString(n)) == n
  {
    var s := NatToString(n);
    assert !IsNumericSpace(s[0]) && s[0] != '-' && s[0] != '+';
    assert SkipNumericSpace(s) == s;
    LeadingDigitsOfDigits(s);
    DigitsValueOfNatToString(n);
  }

  lemma AbsIntNoDigits(s: string)
    requires s != [] && !IsDigit(s[0]) && !IsNumericSpace(s[0]) && s[0] != '-' && s[0] != '+'
    ensures AbsInt(s) == 0
  {
    assert SkipNumericSpace(s) == s;
    assert LeadingDigits(s) == [];
  }

  // ---------------------------------------------------------------------
  // wp_trim_words( $text, $n, '' )
  // ---------------------------------------------------------------------

  /** The characters `wp_trim_words` splits on: /[\n\r\t ]+/. */
  predicate IsWordSeparator(c: char) {
    c == ' ' || c == '\t' || c == '\n' || c == '\r'
  }

  predicate IsWord(w: string) {
    w != [] && forall k :: 0 <= k < |w| ==> !IsWordSeparator(w[k])
  }

  function LeadingWordLength(s: string): (n: nat)
    ensures n <= |s|
    ensures forall k :: 0 <= k < n ==> !IsWordSeparator(s[k])
    ensures n < |s| ==> IsWordSeparator(s[n])
    decreases |s|
  {
    if s == [] || IsWordSeparator(s[0]) then 0 else 1 + LeadingWordLength(s[1..])
  }

  /** The non-empty pieces of `preg_split( "/[\n\r\t ]+/", $s )`, in order. */
  function Words(s: string): (ws: seq<string>)
    ensures forall k :: 0 <= k < |ws| ==> IsWord(ws[k])
    decreases |s|
  {
    if s == [] then []
    else if IsWordSeparator(s[0]) then Words(s[1..])
    else
      var n := LeadingWordLength(s);
      [s[..n]] + Words(s[n..])
  }

  /** `implode( ' ', $ws )` */
  function JoinWords(ws: seq<string>): string
    decreases |ws|
  {
    if ws == [] then ""
    else if |ws| == 1 then ws[0]
    else ws[0] + " " + JoinWords(ws[1..])
  }

  function Take<T>(s: seq<T>, n: nat): (r: seq<T>)
    ensures |r| == if n < |s| then n else |s|
    ensures r == s[..|r|]
  {
    if n < |s| then s[..n] else s
  }

  /** `wp_trim_words( $s, $n, '' )`: the first n words joined by single spaces. */
  function TrimWords(s: string, n: nat): string {
    JoinWords(Take(Words(s), n))
  }

  lemma {:induction false} LeadingWordLengthOfWord(w: string, rest: string)
    requires forall k :: 0 <= k < |w| ==> !IsWordSeparator(w[k])
    requires rest == [] || IsWordSeparator(rest[0])
    ensures LeadingWordLength(w + rest) == |w|
    decreases |w|
  {
    if w != [] {
      assert (w + rest)[1..] == w[1..] + rest;
      LeadingWordLengthOfWord(w[1..], rest);
    }
  }

  /** Splitting joined words gives the words back. */
  lemma {:induction false} WordsOfJoin(ws: seq<string>)
    requires forall k :: 0 <= k < |ws| ==> IsWord(ws[k])
    ensures Words(JoinWords(ws)) == ws
    decreases |ws|
  {
    if ws == [] {
    } else if |ws| == 1 {
      var w := ws[0];
      LeadingWordLengthOfWord(w, []);
      assert w + [] == w;
      assert w[|w|..] == [];
    } else {
      var w := ws[0];
      var rest := JoinWords(ws[1..]);
      var s := w + " " + rest;
      assert s == w + (" " + rest);
      LeadingWordLengthOfWord(w, " " + rest);
      assert s[..|w|] == w;
      assert s[|w|..] == " " + rest;
      assert (" " + rest)[1..] == rest;
      WordsOfJoin(ws[1..]);
    }
  }

  /** The limited text holds exactly the first n words of the original. */
  lemma TrimWordsKeepsFirstWords(s: string, n: nat)
    ensures Words(TrimWords(s, n)) == Take(Words(s), n)
  {
    var ws := Take(Words(s), n);
    assert forall k :: 0 <= k < |ws| ==> ws[k] == Words(s)[k];
    WordsOfJoin(ws);
  }

  lemma {:induction false} JoinWordsEnds(ws: seq<string>)
    requires ws != [] && forall k :: 0 <= k < |ws| ==> IsWord(ws[k])
    requires ws[0] != [] && ws[|ws| - 1] != []
    ensures JoinWords(ws) != []
    ensures JoinWords(ws)[0] == ws[0][0]
    ensures JoinWords(ws)[|JoinWords(ws)| - 1] == ws[|ws| - 1][|ws[|ws| - 1]| - 1]
    decreases |ws|
  {
    if |ws| > 1 {
      JoinWordsEnds(ws[1..]);
    }
  }
}
