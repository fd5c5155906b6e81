/** The callback plugin: which updates are button presses, how the key is cut
    out of the callback data, and how callback declarations are compared. */
module CallbackPlugin {
  import opened Base
  import opened Strings
  import opened Comparators
  import opened Model

  /** An update is a callback update when it carries a callback query, with
      or without data. */
  predicate Resolves(u: Update) {
    u.callbackQuery.Some?
  }

  /** The character that separates a key from its data. */
  const DataDelimiter: char := ':'

  /** An update carrying a button press with the given data. */
  function CallbackUpdate(data: string): Update {
    Update(None, Some(CallbackQuery(Some(data))))
  }

  /** The key of a button press: the data before its first ':' (all of it
      when there is none). The data is split on ':' and the first piece taken,
      so data made of ':' only leaves no piece and indexing fails; missing
      data is dereferenced and fails. */
  function ExtractCallbackKey(u: Update): (r: Result<string>)
    ensures u.callbackQuery.None? || u.callbackQuery.value.data.None? ==> r == Err(NullPointer)
    ensures u.callbackQuery.Some? && u.callbackQuery.value.data.Some? ==>
              var d := u.callbackQuery.value.data.value;
              && (r.Err? <==> DataDelimiter in d && AllDelimiters(d, DataDelimiter))
              && (r.Err? ==> r.error == IndexOutOfBounds)
              && (r.Ok? ==> r.value == Before(d, DataDelimiter))
              && (DataDelimiter !in d ==> r == Ok(d))
  {
    if u.callbackQuery.None? || u.callbackQuery.value.data.None? then Err(NullPointer)
    else
      var d := u.callbackQuery.value.data.value;
      if DataDelimiter in d then
        var parts := Split(d, DataDelimiter);
        SplitEmptyIff(d, DataDelimiter);
        if parts == [] then Err(IndexOutOfBounds)
        else
          SplitHead(d, DataDelimiter);
          Ok(parts[0])
      else
        assert Before(d, DataDelimiter) == d;
        Ok(d)
  }

  /** Matches a callback declaration against an update. An empty key matches
      every update without reading it; otherwise the key of the button press
      must equal the declared key, case-sensitively. A declared key holding
      ':' can never match. */
  function Match(value: Option<string>, u: Update): (r: Result<bool>)
    ensures value.None? ==> r == Err(NullPointer)
    ensures value == Some("") ==> r == Ok(true)
    ensures value.Some? && value.value != "" ==>
              && (r.Err? <==> ExtractCallbackKey(u).Err?)
              && (r.Ok? ==> (r.value <==> ExtractCallbackKey(u) == Ok(value.value)))
    ensures value.Some? && DataDelimiter in value.value ==> r != Ok(true)
  {
    if value.None? then Err(NullPointer)
    else if value.value == "" then Ok(true)
    else
      match ExtractCallbackKey(u)
      case Err(e) => Err(e)
      case Ok(key) => Ok(key == value.value)
  }

  /** Compares two callback keys by Java length (UTF-16 code units) only. */
  function Compare(k1: string, k2: string): (r: int)
    ensures r < 0 <==> JavaLength(k1) < JavaLength(k2)
    ensures r == 0 <==> JavaLength(k1) == JavaLength(k2)
    ensures r > 0 <==> JavaLength(k1) > JavaLength(k2)
  {
    IntegerCompare(JavaLength(k1), JavaLength(k2))
  }

  /** The callback comparator meets the general contract of a comparator on
      every set of keys. */
  lemma CompareIsComparator(S: set<string>)
    ensures IsComparator(Compare, S)
  {
  }

  /** The comparator on the keys its tests use. */
  lemma CompareScenarios()
    ensures Compare("value1", "value2") == 0
    ensures Compare("value1", "short") > 0
    ensures Compare("s", "short") < 0
  {
  }

  /** Keys are measured as Java measures them: an emoji outside the Basic
      Multilingual Plane is two code units long, so it ties with a
      two-letter key and beats a one-letter key. */
  lemma CompareCountsCodeUnits()
    ensures Compare("\U{1F600}", "ab") == 0
    ensures Compare("\U{1F600}", "a") > 0
  {
  }

  /** The wildcard key is less than every other key, so it is placed after
      them in a greatest-first group. */
  lemma WildcardLeast(k: string)
    ensures Compare("", k) <= 0
    ensures k != "" ==> Compare("", k) < 0
  {
  }

  /** Data made of a key without ':' followed by ':' and anything yields the
      key. */
  lemma {:induction false} KeyOfEncoded(key: string, data: string)
    requires key != [] && DataDelimiter !in key
    ensures ExtractCallbackKey(CallbackUpdate(key + [DataDelimiter] + data)) == Ok(key)
  {
    var d := key + [DataDelimiter] + data;
    assert d[|key|] == DataDelimiter && d[0] == key[0];
    var b := Before(d, DataDelimiter);
    assert b == d[..|b|];
    assert b == key;
  }

  /** Data without ':' is its own key. */
  lemma KeyOfPlain(key: string)
    requires DataDelimiter !in key
    ensures ExtractCallbackKey(CallbackUpdate(key)) == Ok(key)
  {
  }

  /** "next-page:42" carries the key "next-page", which a declaration of
      "next-page" matches and one of "next" does not. */
  lemma NextPageScenario()
    ensures Match(Some("next-page"), CallbackUpdate("next-page" + ":" + "42")) == Ok(true)
    ensures Match(Some("next"), CallbackUpdate("next-page" + ":" + "42")) == Ok(false)
  {
    assert DataDelimiter !in "next-page";
    KeyOfEncoded("next-page", "42");
  }
}
