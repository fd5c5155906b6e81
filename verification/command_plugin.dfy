/** The command plugin: which updates are bot commands, how the command token
    is cut out of a message (dropping a mention of this bot), and how command
    declarations are compared. */
module CommandPlugin {
  import opened Base
  import opened Strings
  import opened Comparators
  import opened Model

  /** An update is a command update when it has a message flagged as a command. */
  predicate Resolves(u: Update) {
    u.message.Some? && u.message.value.isCommand
  }

  /** The first `\s`-separated token of the trimmed text: the longest prefix
      of the trimmed text without a `\s` character. Blank text gives "". */
  function FirstToken(text: string): (r: string)
    ensures IsPrefix(r, Trim(text))
    ensures forall k :: 0 <= k < |r| ==> !IsRegexSpace(r[k])
    ensures |r| < |Trim(text)| ==> IsRegexSpace(Trim(text)[|r|])
    ensures Trim(text) != [] ==> r != []
  {
    var t := Trim(text);
    t[..SpaceIndex(t)]
  }

  /** The configured username without one leading '@'. */
  function BotName(username: string): (r: string)
    ensures username == r || username == "@" + r
    ensures username != [] && username[0] == '@' <==> username == "@" + r
  {
    if username != [] && username[0] == '@' then username[1..] else username
  }

  /** The part of `token` after its first '@'. */
  function AfterAt(token: string): (r: string)
    requires '@' in token
    ensures token == Before(token, '@') + "@" + r
  {
    var b := Before(token, '@');
    assert token == b + [token[|b|]] + token[|b| + 1..];
    token[|b| + 1..]
  }

  /** The command an update's text invokes: its first token, with a trailing
      "@name" removed when the name is this bot's username ignoring ASCII
      case. A token with '@' reads the username, which fails when none is
      configured. */
  function ExtractCommand(text: string, username: Option<string>): (r: Result<string>)
    ensures r.Err? <==> '@' in FirstToken(text) && username.None?
    ensures r.Err? ==> r.error == NullPointer
    ensures '@' !in FirstToken(text) ==> r == Ok(FirstToken(text))
    ensures r.Ok? && r.value != FirstToken(text) ==>
              && '@' !in r.value
              && exists m :: FirstToken(text) == r.value + "@" + m
                             && EqualsIgnoreCase(m, BotName(username.value))
    ensures r.Ok? && '@' in FirstToken(text) && r.value == FirstToken(text) ==>
              !EqualsIgnoreCase(AfterAt(FirstToken(text)), BotName(username.value))
  {
    var token := FirstToken(text);
    if '@' !in token then Ok(token)
    else if username.None? then Err(NullPointer)
    else
      var before := Before(token, '@');
      var after := AfterAt(token);
      if EqualsIgnoreCase(after, BotName(username.value)) then
        assert before != token by {
          assert |after| + 1 + |before| == |token|;
        }
        Ok(before)
      else
        Ok(token)
  }

  /** Matches a command declaration against an update: the trimmed literal
      must equal the command the text invokes. The declaration is read
      first, then the message and its text; any of them missing fails. */
  function Match(value: Option<string>, u: Update, username: Option<string>): (r: Result<bool>)
    ensures value.None? || u.message.None? || u.message.value.text.None? ==> r == Err(NullPointer)
    ensures value.Some? && u.message.Some? && u.message.value.text.Some? ==>
              var c := ExtractCommand(u.message.value.text.value, username);
              && (r.Err? <==> c.Err?)
              && (r.Ok? ==> (r.value <==> c == Ok(Trim(value.value))))
  {
    if value.None? || u.message.None? || u.message.value.text.None? then Err(NullPointer)
    else
      var expected := Trim(value.value);
      match ExtractCommand(u.message.value.text.value, username)
      case Err(e) => Err(e)
      case Ok(c) => Ok(expected == c)
  }

  /** Compares two command literals by Java length (UTF-16 code units) only. */
  function Compare(v1: string, v2: string): (r: int)
    ensures r < 0 <==> JavaLength(v1) < JavaLength(v2)
    ensures r == 0 <==> JavaLength(v1) == JavaLength(v2)
    ensures r > 0 <==> JavaLength(v1) > JavaLength(v2)
  {
    IntegerCompare(JavaLength(v1), JavaLength(v2))
  }

  /** The command comparator meets the general contract of a comparator on
      every set of literals: it is a total preorder on length. */
  lemma CompareIsComparator(S: set<string>)
    ensures IsComparator(Compare, S)
  {
  }

  /** Trimming blanks, a token and a remainder keeps the token at the front
      and, after it, the start of the remainder. */
  lemma TrimAroundToken(lead: string, token: string, rest: string)
    requires AllTrimSpace(lead) && token != [] && NoTrimSpace(token)
    ensures var t := Trim(lead + token + rest);
            && IsPrefix(token, t)
            && (|t| > |token| ==> t[|token|] == rest[0])
  {
    var s := lead + token + rest;
    var n := |lead|;
    var m := n + |token|;
    assert s[n] == token[0] && s[m - 1] == token[|token| - 1];
    var st := LeadCount(s);
    assert st == n by {
      assert !IsTrimSpace(s[n]);
    }
    var t := Trim(s);
    assert m <= n + |t| by {
      assert !IsTrimSpace(s[m - 1]);
    }
    assert t[..|token|] == s[n..m] == token;
    if |t| > |token| {
      assert t[|token|] == s[m] == rest[0];
    }
  }

  /** Leading blanks, a token and then nothing or a `\s`-led remainder:
      the token is the first token. */
  lemma FirstTokenOf(lead: string, token: string, rest: string)
    requires AllTrimSpace(lead) && token != [] && NoTrimSpace(token)
    requires rest == [] || IsRegexSpace(rest[0])
    ensures FirstToken(lead + token + rest) == token
  {
    var s := lead + token + rest;
    var t := Trim(s);
    TrimAroundToken(lead, token, rest);
    var j := SpaceIndex(t);
    assert FirstToken(s) == t[..j];
    forall k | 0 <= k < |token|
      ensures !IsRegexSpace(t[k])
    {
      assert t[k] == token[k];
    }
    assert |t| > |token| ==> IsRegexSpace(t[|token|]);
    assert j == |token|;
  }

  /** The token of a command and a mention splits at the '@' into the two. */
  lemma MentionSplit(command: string, m: string)
    requires '@' !in command
    ensures var token := command + "@" + m;
            && '@' in token && Before(token, '@') == command && AfterAt(token) == m
  {
    var token := command + "@" + m;
    assert token[|command|] == '@';
    var b := Before(token, '@');
    assert b == command by {
      assert b == token[..|b|];
    }
    assert token == command + "@" + AfterAt(token);
  }

  /** A command followed by a mention has no trim space when neither has. */
  lemma MentionNoTrimSpace(command: string, m: string)
    requires NoTrimSpace(command) && NoTrimSpace(m)
    ensures NoTrimSpace(command + "@" + m)
  {
    var token := command + "@" + m;
    forall k | 0 <= k < |token|
      ensures !IsTrimSpace(token[k])
    {
      if k > |command| {
        assert token[k] == m[k - |command| - 1];
      }
    }
  }

  /** The token a user types to invoke `command`, mentioning a bot or not. */
  function Invocation(command: string, mention: Option<string>): string {
    if mention.Some? then command + "@" + mention.value else command
  }

  /** Round trip: a message made of blanks, a command, an optional mention of
      this bot in any ASCII case, and then nothing or arguments after a `\s`
      character, invokes that command. */
  lemma ExtractComposed(lead: string, command: string, mention: Option<string>, rest: string, username: string)
    requires AllTrimSpace(lead) && command != [] && NoTrimSpace(command) && '@' !in command
    requires mention.Some? ==> NoTrimSpace(mention.value) && EqualsIgnoreCase(mention.value, BotName(username))
    requires rest == [] || IsRegexSpace(rest[0])
    ensures ExtractCommand(lead + Invocation(command, mention) + rest, Some(username)) == Ok(command)
  {
    var token := Invocation(command, mention);
    var text := lead + token + rest;
    if mention.Some? {
      MentionNoTrimSpace(command, mention.value);
      FirstTokenOf(lead, token, rest);
      MentionSplit(command, mention.value);
      assert FirstToken(text) == token;
    } else {
      FirstTokenOf(lead, command, rest);
      assert FirstToken(text) == command;
    }
  }

  /** The round trip for a message that is just the typed token. */
  lemma ExtractInvocation(command: string, mention: Option<string>, username: string)
    requires command != [] && NoTrimSpace(command) && '@' !in command
    requires mention.Some? ==> NoTrimSpace(mention.value) && EqualsIgnoreCase(mention.value, BotName(username))
    ensures ExtractCommand(Invocation(command, mention), Some(username)) == Ok(command)
  {
    var token := Invocation(command, mention);
    assert [] + token + [] == token;
    ExtractComposed([], command, mention, [], username);
  }

  /** A mention of another bot is kept, so the token stays whole. */
  lemma OtherBotKept(command: string, other: string, username: string)
    requires command != [] && NoTrimSpace(command) && '@' !in command
    requires NoTrimSpace(other) && !EqualsIgnoreCase(other, BotName(username))
    ensures ExtractCommand(command + "@" + other, Some(username)) == Ok(command + "@" + other)
  {
    var token := command + "@" + other;
    MentionNoTrimSpace(command, other);
    FirstTokenOf([], token, []);
    assert [] + token + [] == token;
    MentionSplit(command, other);
  }

  /** An update carrying a command message with the given text. */
  function CommandMessage(text: string): Update {
    Update(Some(Message(Some(text), true)), None)
  }

  /** "/start foo" invokes "/start": arguments after the token are ignored. */
  lemma ArgumentsIgnored()
    ensures Match(Some("/start"), CommandMessage("/start" + " foo"), Some("@testbot")) == Ok(true)
  {
    assert NoTrimSpace("/start");
    TrimUnchanged("/start");
    ExtractComposed([], "/start", None, " foo", "@testbot");
    assert [] + Invocation("/start", None) + " foo" == "/start" + " foo";
  }

  /** "/start@TestBot" invokes "/start" on the bot "@testbot", and
      "/start@otherbot" invokes the whole token. */
  lemma MentionScenarios()
    ensures ExtractCommand("/start" + "@" + "TestBot", Some("@testbot")) == Ok("/start")
    ensures ExtractCommand("/start" + "@" + "otherbot", Some("@testbot")) == Ok("/start" + "@" + "otherbot")
  {
    assert NoTrimSpace("/start") && NoTrimSpace("TestBot") && NoTrimSpace("otherbot");
    assert BotName("@testbot") == "testbot";
    assert EqualsIgnoreCase("TestBot", "testbot");
    assert "otherbot"[0] != "testbot"[0];
    ExtractInvocation("/start", Some("TestBot"), "@testbot");
    OtherBotKept("/start", "otherbot", "@testbot");
  }

  /** A token with '@' reads the username, which fails when none is configured. */
  lemma MentionWithoutUsername(command: string, m: string)
    requires command != [] && NoTrimSpace(command) && '@' !in command && NoTrimSpace(m)
    ensures ExtractCommand(command + "@" + m, None) == Err(NullPointer)
  {
    MentionNoTrimSpace(command, m);
    FirstTokenOf([], command + "@" + m, []);
    assert [] + (command + "@" + m) + [] == command + "@" + m;
    MentionSplit(command, m);
  }

  /** The literal is compared case-sensitively: "/Start" is not "/start". */
  lemma LiteralCaseSensitive()
    ensures Match(Some("/start"), CommandMessage("/Start"), Some("@testbot")) == Ok(false)
  {
    assert NoTrimSpace("/Start") && NoTrimSpace("/start");
    TrimUnchanged("/start");
    ExtractInvocation("/Start", None, "@testbot");
    assert ExtractCommand("/Start", Some("@testbot")) == Ok("/Start");
  }

  /** Blank text yields the empty token, which only a blank literal matches. */
  lemma BlankText()
    ensures Match(Some(" "), CommandMessage("  "), Some("@testbot")) == Ok(true)
    ensures Match(Some("/start"), CommandMessage("  "), Some("@testbot")) == Ok(false)
  {
    assert LeadCount("  ") == 2;
    assert LeadCount(" ") == 1;
  }
}
