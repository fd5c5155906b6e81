/** The three plugins as one table from category to resolver, matcher and
    declaration comparator, and what a matcher reads off an action. */
module Plugins {
  import opened Base
  import opened Model
  import TextPlugin
  import CommandPlugin
  import CallbackPlugin

  /** What matching needs besides the action and the update: the configured
      bot username (possibly unset) and the regular expression engine. */
  datatype BotEnv = BotEnv(username: Option<string>, fullMatch: TextPlugin.RegexEngine)

  /** The resolver of category `c`. */
  predicate Resolves(c: Category, u: Update) {
    match c
    case TextCategory => TextPlugin.Resolves(u)
    case CommandCategory => CommandPlugin.Resolves(u)
    case CallbackCategory => CallbackPlugin.Resolves(u)
  }

  /** A command message also has text, so it satisfies both the command and
      the text resolver; a button press satisfies neither. */
  lemma ResolversOverlap(u: Update)
    requires WellFormed(u)
    ensures Resolves(CommandCategory, u) ==> Resolves(TextCategory, u)
    ensures u.message.None? && u.callbackQuery.Some? ==>
              Resolves(CallbackCategory, u) && !Resolves(TextCategory, u) && !Resolves(CommandCategory, u)
  {
  }

  /** The resolvers on typical updates: an empty update, a message without
      text, a text message, a command message and a button press without
      data. */
  lemma ResolverScenarios()
    ensures var empty := Update(None, None);
            !Resolves(TextCategory, empty) && !Resolves(CommandCategory, empty) && !Resolves(CallbackCategory, empty)
    ensures !Resolves(TextCategory, Update(Some(Message(None, false)), None))
    ensures Resolves(TextCategory, Update(Some(Message(Some("hello"), false)), None))
    ensures !Resolves(CommandCategory, Update(Some(Message(Some("hello"), false)), None))
    ensures Resolves(CommandCategory, Update(Some(Message(Some("/start"), true)), None))
    ensures Resolves(CallbackCategory, Update(None, Some(CallbackQuery(None))))
  {
  }

  /** The declaration a matcher reads: the one of category `c` on the
      action's own class. Superclasses are not searched, since none of the
      rule annotations is inherited. */
  function MatcherDeclaration(a: Action, c: Category): (r: Option<Declaration>)
    ensures r.Some? ==> r.value in a.own && CategoryOf(r.value) == c
    ensures r.None? <==> forall i :: 0 <= i < |a.own| ==> CategoryOf(a.own[i]) != c
  {
    FindDeclaration(a.own, c)
  }

  /** The text rule of a declaration, if it is one. */
  function TextRuleOf(d: Option<Declaration>): Option<TextRule> {
    if d.Some? && d.value.Text? then Some(d.value.rule) else None
  }

  /** The command literal of a declaration, if it is one. */
  function CommandOf(d: Option<Declaration>): Option<string> {
    if d.Some? && d.value.Command? then Some(d.value.value) else None
  }

  /** The callback key of a declaration, if it is one. */
  function CallbackOf(d: Option<Declaration>): Option<string> {
    if d.Some? && d.value.Callback? then Some(d.value.key) else None
  }

  /** The matcher of category `c` applied to an action and an update: the
      category's matcher on the declaration the action's own class carries,
      which fails when there is none. */
  function MatchAction(env: BotEnv, c: Category, a: Action, u: Update): (r: Result<bool>)
    ensures MatcherDeclaration(a, c).None? ==> r == Err(NullPointer)
    ensures r.Err? ==> r.error == NullPointer || r.error == IndexOutOfBounds
    ensures c == TextCategory ==> r == TextPlugin.Match(TextRuleOf(MatcherDeclaration(a, c)), u, env.fullMatch)
    ensures c == CommandCategory ==> r == CommandPlugin.Match(CommandOf(MatcherDeclaration(a, c)), u, env.username)
    ensures c == CallbackCategory ==> r == CallbackPlugin.Match(CallbackOf(MatcherDeclaration(a, c)), u)
  {
    var d := MatcherDeclaration(a, c);
    match c
    case TextCategory => TextPlugin.Match(TextRuleOf(d), u, env.fullMatch)
    case CommandCategory => CommandPlugin.Match(CommandOf(d), u, env.username)
    case CallbackCategory => CallbackPlugin.Match(CallbackOf(d), u)
  }

  /** An action whose class carries no declaration but whose superclass does
      is grouped under the superclass's category, yet its matcher finds no
      declaration and fails on every update. */
  lemma InheritedDeclarationNeverMatches(env: BotEnv, a: Action, u: Update)
    requires a.own == [] && a.inherited != []
    ensures ExtractCategory(a) == Ok(CategoryOf(a.inherited[0]))
    ensures MatchAction(env, CategoryOf(a.inherited[0]), a, u) == Err(NullPointer)
  {
    assert Declarations(a) == a.inherited;
  }

  /** The declaration comparator of the table: the comparator of the
      declarations' category. It is only ever given two declarations of the
      same category; for two of different categories it answers 0. */
  function CompareDeclarations(d1: Declaration, d2: Declaration): (r: int)
    ensures d1.Text? && d2.Text? ==> r == TextPlugin.Compare(d1.rule, d2.rule)
    ensures d1.Command? && d2.Command? ==> r == CommandPlugin.Compare(d1.value, d2.value)
    ensures d1.Callback? && d2.Callback? ==> r == CallbackPlugin.Compare(d1.key, d2.key)
    ensures CategoryOf(d1) != CategoryOf(d2) ==> r == 0
  {
    match (d1, d2)
    case (Text(t1), Text(t2)) => TextPlugin.Compare(t1, t2)
    case (Command(v1), Command(v2)) => CommandPlugin.Compare(v1, v2)
    case (Callback(k1), Callback(k2)) => CallbackPlugin.Compare(k1, k2)
    case _ => 0
  }

  /** Swapping two declarations negates their comparison. */
  lemma CompareDeclarationsAntisymmetric(d1: Declaration, d2: Declaration)
    ensures CompareDeclarations(d1, d2) == -CompareDeclarations(d2, d1)
  {
    if d1.Text? && d2.Text? {
      TextPlugin.CompareAntisymmetric(d1.rule, d2.rule);
    }
  }
}
