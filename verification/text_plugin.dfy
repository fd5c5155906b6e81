/** The text plugin: which updates are text messages, when a text rule
    matches one, and how specific one text rule is compared to another. */
module TextPlugin {
  import opened Base
  import opened Strings
  import opened Comparators
  import opened Model
  import opened Sorting

  /** An update is a text update when it has a message and the message has text. */
  predicate Resolves(u: Update) {
    u.message.Some? && u.message.value.text.Some?
  }

  /** `String.matches(pattern)`: whether the whole text matches a regular
      expression. The regex engine itself is not modelled, so it is a parameter. */
  type RegexEngine = (string, string) -> bool

  /** The rule kinds that decide alone when they are declared. */
  datatype CaseMatcher = EqualsMatcher | RegexMatcher

  /** The deciding rule kinds in priority order. */
  const CaseMatchers: seq<CaseMatcher> := [EqualsMatcher, RegexMatcher]

  /** Whether rule kind `m` is declared in `t`. */
  predicate IsCase(m: CaseMatcher, t: TextRule) {
    match m
    case EqualsMatcher => t.equals != ""
    case RegexMatcher => t.regex != ""
  }

  /** The first rule kind of `ms` that is declared in `t`, if any. */
  function FirstCase(ms: seq<CaseMatcher>, t: TextRule): (r: Option<CaseMatcher>)
    ensures r.Some? ==> r.value in ms && IsCase(r.value, t)
    ensures r.Some? ==> exists i :: 0 <= i < |ms| && ms[i] == r.value
                                    && forall j :: 0 <= j < i ==> !IsCase(ms[j], t)
    ensures r.None? <==> forall i :: 0 <= i < |ms| ==> !IsCase(ms[i], t)
  {
    if ms == [] then None
    else if IsCase(ms[0], t) then Some(ms[0])
    else
      var r := FirstCase(ms[1..], t);
      assert forall i :: 1 <= i < |ms| ==> ms[i] == ms[1..][i - 1];
      if r.Some? then
        var i :| 0 <= i < |ms[1..]| && ms[1..][i] == r.value
                 && forall j :: 0 <= j < i ==> !IsCase(ms[1..][j], t);
        assert ms[i + 1] == r.value;
        r
      else
        r
  }

  /** Applies a deciding rule kind to the message text; a missing text is
      dereferenced and fails. */
  function CaseTest(m: CaseMatcher, t: TextRule, text: Option<string>, fullMatch: RegexEngine): (r: Result<bool>)
    ensures text.None? <==> r == Err(NullPointer)
    ensures text.Some? && m == EqualsMatcher ==> r == Ok(text.value == t.equals)
    ensures text.Some? && m == RegexMatcher ==> r == Ok(fullMatch(text.value, t.regex))
  {
    if text.None? then Err(NullPointer)
    else
      match m
      case EqualsMatcher => Ok(text.value == t.equals)
      case RegexMatcher => Ok(fullMatch(text.value, t.regex))
  }

  /** The rule kinds that are combined when neither equals nor regex is declared. */
  datatype GeneralMatcher = StartsWithMatcher | EndsWithMatcher | ContainsMatcher

  /** The combined rule kinds declared in `t`, in the order startsWith,
      endsWith, contains. */
  function CollectGeneralMatchers(t: TextRule): (r: seq<GeneralMatcher>)
    ensures StartsWithMatcher in r <==> t.startsWith != ""
    ensures EndsWithMatcher in r <==> t.endsWith != ""
    ensures ContainsMatcher in r <==> t.contains != ""
    ensures forall i, j :: 0 <= i < j < |r| ==> r[i] != r[j]
  {
    (if t.startsWith != "" then [StartsWithMatcher] else [])
    + (if t.endsWith != "" then [EndsWithMatcher] else [])
    + (if t.contains != "" then [ContainsMatcher] else [])
  }

  /** Applies one combined rule kind to a present message text. */
  predicate GeneralTest(m: GeneralMatcher, t: TextRule, s: string) {
    match m
    case StartsWithMatcher => IsPrefix(t.startsWith, s)
    case EndsWithMatcher => IsSuffix(t.endsWith, s)
    case ContainsMatcher => Contains(s, t.contains)
  }

  /** `allMatch` over the collected rule kinds: stops at the first that fails;
      the first one evaluated dereferences the text. */
  function AllMatch(ms: seq<GeneralMatcher>, t: TextRule, text: Option<string>): (r: Result<bool>)
    ensures ms == [] ==> r == Ok(true)
    ensures ms != [] && text.None? ==> r == Err(NullPointer)
    ensures text.Some? ==> r == Ok(forall i :: 0 <= i < |ms| ==> GeneralTest(ms[i], t, text.value))
  {
    if ms == [] then Ok(true)
    else if text.None? then Err(NullPointer)
    else if !GeneralTest(ms[0], t, text.value) then Ok(false)
    else
      var r := AllMatch(ms[1..], t, text);
      assert forall i :: 1 <= i < |ms| ==> ms[i] == ms[1..][i - 1];
      r
  }

  /** Whether any of startsWith, endsWith, contains is declared. */
  predicate HasGeneral(t: TextRule) {
    t.startsWith != "" || t.endsWith != "" || t.contains != ""
  }

  /** The intended meaning of the combined rules: every declared one holds of
      the text, and undeclared ones impose nothing. */
  predicate Conjunction(t: TextRule, s: string) {
    && (t.startsWith != "" ==> IsPrefix(t.startsWith, s))
    && (t.endsWith != "" ==> IsSuffix(t.endsWith, s))
    && (t.contains != "" ==> Contains(s, t.contains))
  }

  /** Every collected rule kind holds exactly when the conjunction does. */
  lemma CollectedMeansConjunction(t: TextRule, s: string)
    ensures var ms := CollectGeneralMatchers(t);
            (forall i :: 0 <= i < |ms| ==> GeneralTest(ms[i], t, s)) <==> Conjunction(t, s)
  {
    var ms := CollectGeneralMatchers(t);
    if t.startsWith != "" {
      assert GeneralTest(StartsWithMatcher, t, s) <==> IsPrefix(t.startsWith, s);
    }
    if t.endsWith != "" {
      assert GeneralTest(EndsWithMatcher, t, s) <==> IsSuffix(t.endsWith, s);
    }
    if t.contains != "" {
      assert GeneralTest(ContainsMatcher, t, s) <==> Contains(s, t.contains);
    }
  }

  /** The combined rules hold exactly when their conjunction does; with none
      declared every update matches, even one without text. */
  function MatchGeneral(t: TextRule, text: Option<string>): (r: Result<bool>)
    ensures !HasGeneral(t) ==> r == Ok(true)
    ensures HasGeneral(t) && text.None? ==> r == Err(NullPointer)
    ensures text.Some? ==> r == Ok(Conjunction(t, text.value))
  {
    var r := AllMatch(CollectGeneralMatchers(t), t, text);
    if text.Some? then
      CollectedMeansConjunction(t, text.value);
      r
    else
      r
  }

  /** Matches a text rule against an update. The message is read first, so a
      missing message fails; a missing rule fails too. A declared equals
      decides alone by exact, case-sensitive equality; otherwise a declared
      regex decides alone by a whole-text match; otherwise the declared
      startsWith, endsWith and contains must all hold. */
  function Match(rule: Option<TextRule>, u: Update, fullMatch: RegexEngine): (r: Result<bool>)
    ensures u.message.None? || rule.None? ==> r == Err(NullPointer)
    ensures u.message.Some? && rule.Some? && u.message.value.text.None? ==>
              (r == Err(NullPointer) <==> rule.value.equals != "" || rule.value.regex != "" || HasGeneral(rule.value))
    ensures u.message.Some? && rule.Some? && u.message.value.text.Some? ==>
              var t, s := rule.value, u.message.value.text.value;
              r == Ok(if t.equals != "" then s == t.equals
                      else if t.regex != "" then fullMatch(s, t.regex)
                      else Conjunction(t, s))
    ensures rule.Some? && rule.value == TextRule("", "", "", "", "") && u.message.Some? ==> r == Ok(true)
  {
    if u.message.None? || rule.None? then Err(NullPointer)
    else
      var text := u.message.value.text;
      var t := rule.value;
      match FirstCase(CaseMatchers, t)
      case Some(m) => CaseTest(m, t, text, fullMatch)
      case None =>
        assert !IsCase(CaseMatchers[0], t) && !IsCase(CaseMatchers[1], t);
        MatchGeneral(t, text)
  }

  /** Rules declaring startsWith "foo" and endsWith "bar" match "foobar" and
      "foo...bar" but neither "foobaz" nor "xbar". */
  lemma PrefixSuffixScenario(fullMatch: RegexEngine)
    ensures var t := TextRule("", "", "foo", "bar", "");
            && Match(Some(t), Update(Some(Message(Some("foobar"), false)), None), fullMatch) == Ok(true)
            && Match(Some(t), Update(Some(Message(Some("foo...bar"), false)), None), fullMatch) == Ok(true)
            && Match(Some(t), Update(Some(Message(Some("foobaz"), false)), None), fullMatch) == Ok(false)
            && Match(Some(t), Update(Some(Message(Some("xbar"), false)), None), fullMatch) == Ok(false)
  {
    assert "foobaz"[3..] == "baz";
    assert "xbar"[..3] == "xba";
  }

  /** `compareProperty`: a declared field beats an undeclared one, and two
      declared fields compare by Java length. This is exactly `Integer.compare`
      of the two lengths in UTF-16 code units. */
  function CompareProperty(s1: string, s2: string): (r: int)
    ensures r == IntegerCompare(JavaLength(s1), JavaLength(s2))
    ensures s1 != "" && s2 == "" ==> r == 1
    ensures s1 == "" && s2 != "" ==> r == -1
  {
    if s1 != "" && s2 == "" then 1
    else if s1 == "" && s2 != "" then -1
    else if s1 != "" then IntegerCompare(JavaLength(s1), JavaLength(s2))
    else 0
  }

  /** Compares two text rules by specificity: a differing equals decides,
      then a differing regex; otherwise startsWith and endsWith weigh three
      times as much as contains. Only the Java lengths of the fields matter. */
  function Compare(t1: TextRule, t2: TextRule): (r: int)
    ensures -7 <= r <= 7
    ensures JavaLength(t1.equals) != JavaLength(t2.equals) ==> r == IntegerCompare(JavaLength(t1.equals), JavaLength(t2.equals))
    ensures JavaLength(t1.equals) == JavaLength(t2.equals) && JavaLength(t1.regex) != JavaLength(t2.regex) ==>
              r == IntegerCompare(JavaLength(t1.regex), JavaLength(t2.regex))
    ensures JavaLength(t1.equals) == JavaLength(t2.equals) && JavaLength(t1.regex) == JavaLength(t2.regex) ==>
              r == 3 * IntegerCompare(JavaLength(t1.startsWith), JavaLength(t2.startsWith))
                   + 3 * IntegerCompare(JavaLength(t1.endsWith), JavaLength(t2.endsWith))
                   + IntegerCompare(JavaLength(t1.contains), JavaLength(t2.contains))
  {
    var compareEquals := CompareProperty(t1.equals, t2.equals);
    if compareEquals != 0 then compareEquals
    else
      var compareRegex := CompareProperty(t1.regex, t2.regex);
      if compareRegex != 0 then compareRegex
      else
        var compareStarts := CompareProperty(t1.startsWith, t2.startsWith);
        var compareEnds := CompareProperty(t1.endsWith, t2.endsWith);
        var compareContains := CompareProperty(t1.contains, t2.contains);
        var starts := if compareStarts != 0 then compareStarts * 3 else compareStarts;
        var ends := if compareEnds != 0 then compareEnds * 3 else compareEnds;
        starts + ends + compareContains
  }

  /** The five field lengths of a rule, in UTF-16 code units: all `Compare` looks at. */
  function Lengths(t: TextRule): seq<nat> {
    [JavaLength(t.equals), JavaLength(t.contains), JavaLength(t.startsWith), JavaLength(t.endsWith), JavaLength(t.regex)]
  }

  /** Swapping the arguments negates the result, and a rule ties with itself. */
  lemma CompareAntisymmetric(t1: TextRule, t2: TextRule)
    ensures Compare(t1, t2) == -Compare(t2, t1)
    ensures Compare(t1, t1) == 0
  {
  }

  /** Rules whose fields have the same lengths are interchangeable: the
      contents of the fields never matter, so such rules tie. */
  lemma CompareLengthsOnly(t1: TextRule, t2: TextRule, t3: TextRule)
    requires Lengths(t1) == Lengths(t2)
    ensures Compare(t1, t3) == Compare(t2, t3)
    ensures Compare(t1, t2) == 0
  {
    assert JavaLength(t1.equals) == Lengths(t1)[0] == Lengths(t2)[0] == JavaLength(t2.equals);
    assert JavaLength(t1.contains) == Lengths(t1)[1] == Lengths(t2)[1] == JavaLength(t2.contains);
    assert JavaLength(t1.startsWith) == Lengths(t1)[2] == Lengths(t2)[2] == JavaLength(t2.startsWith);
    assert JavaLength(t1.endsWith) == Lengths(t1)[3] == Lengths(t2)[3] == JavaLength(t2.endsWith);
    assert JavaLength(t1.regex) == Lengths(t1)[4] == Lengths(t2)[4] == JavaLength(t2.regex);
  }

  /** Ties are not consistent: a = {startsWith "x"} ties with b = {endsWith "x"},
      b ties with c = {startsWith "xx"}, yet a is less than c. So the text
      comparator breaks the general contract of a comparator. */
  lemma CompareNotConsistent()
    ensures var a := TextRule("", "", "x", "", "");
            var b := TextRule("", "", "", "x", "");
            var c := TextRule("", "", "xx", "", "");
            && Compare(a, b) == 0 && Compare(b, c) == 0 && Compare(a, c) == -3
            && !IsComparator(Compare, {a, b, c})
  {
    var a := TextRule("", "", "x", "", "");
    var b := TextRule("", "", "", "x", "");
    var c := TextRule("", "", "xx", "", "");
    var S := {a, b, c};
    assert a in S && b in S && c in S;
    assert Compare(a, b) == 0 && Sign(Compare(a, c)) != Sign(Compare(b, c));
  }

  /** {endsWith "!"} is more specific than {contains "!"}, so the greatest-first
      sort puts it first whatever the input order. */
  lemma EndsWithBeforeContains()
    ensures var e := TextRule("", "", "", "!", "");
            var k := TextRule("", "!", "", "", "");
            && Compare(e, k) > 0
            && StableSort([e, k], Reversed(Compare)) == [e, k]
            && StableSort([k, e], Reversed(Compare)) == [e, k]
  {
    var e := TextRule("", "", "", "!", "");
    var k := TextRule("", "!", "", "", "");
    assert [e, k][..1] == [e] && [k, e][..1] == [k];
    assert StableSort([e], Reversed(Compare)) == [e] && StableSort([k], Reversed(Compare)) == [k];
    assert Compare(e, k) == 2 && Compare(k, e) == -2;
  }
}
