/** The action container: resolves the category of an update with the first
    resolver that accepts it, then picks the first action of that category's
    group whose matcher accepts the update. */
module Container {
  import opened Base
  import opened Model
  import Plugins
  import Collector
  import ComparatorService

  /** The resolvers in their list order, the categories that have a matcher,
      and the collected groups of actions. */
  datatype Container = Container(
    resolvers: seq<Category>,
    matchers: set<Category>,
    actions: map<Category, seq<Action>>)

  /** Builds the container from the resolver list, the categories of the
      listed matchers and the collected groups; two matchers of one category
      are a configuration error. */
  function NewContainer(resolvers: seq<Category>, matchers: seq<Category>, actions: map<Category, seq<Action>>): (r: Result<Container>)
    ensures r.Err? <==> !Distinct(matchers)
    ensures r.Err? ==> r.error == IllegalState
    ensures r.Ok? ==> r.value.resolvers == resolvers && r.value.actions == actions
    ensures r.Ok? ==> forall c :: c in r.value.matchers <==> c in matchers
  {
    match KeySet(matchers)
    case Err(e) => Err(e)
    case Ok(keys) => Ok(Container(resolvers, keys, actions))
  }

  /** The category of the first resolver, in list order, that accepts the
      update; none accepting it is an unknown update type. */
  function ResolveUpdateType(resolvers: seq<Category>, u: Update): (r: Result<Category>)
    ensures r.Err? <==> forall i :: 0 <= i < |resolvers| ==> !Plugins.Resolves(resolvers[i], u)
    ensures r.Err? ==> r.error == UnknownUpdateType
    ensures r.Ok? ==> Plugins.Resolves(r.value, u)
    ensures r.Ok? ==> exists i :: 0 <= i < |resolvers| && resolvers[i] == r.value
                                  && forall j :: 0 <= j < i ==> !Plugins.Resolves(resolvers[j], u)
  {
    if resolvers == [] then Err(UnknownUpdateType)
    else if Plugins.Resolves(resolvers[0], u) then Ok(resolvers[0])
    else
      var r := ResolveUpdateType(resolvers[1..], u);
      assert forall i :: 1 <= i < |resolvers| ==> resolvers[i] == resolvers[1..][i - 1];
      if r.Ok? then
        var i :| 0 <= i < |resolvers[1..]| && resolvers[1..][i] == r.value
                 && forall j :: 0 <= j < i ==> !Plugins.Resolves(resolvers[1..][j], u);
        assert resolvers[i + 1] == r.value;
        r
      else
        r
  }

  /** `f` applied to each element of `s`, in order. */
  function Apply<A, B>(f: A -> B, s: seq<A>): (r: seq<B>)
    ensures |r| == |s| && forall i :: 0 <= i < |s| ==> r[i] == f(s[i])
  {
    seq(|s|, i requires 0 <= i < |s| => f(s[i]))
  }

  /** Applying `f` to two sequences in a row gives the two results in a row. */
  lemma ApplyAppend<A, B>(f: A -> B, s: seq<A>, t: seq<A>)
    ensures Apply(f, s + t) == Apply(f, s) + Apply(f, t)
  {
    var all := s + t;
    forall k | 0 <= k < |all|
      ensures Apply(f, all)[k] == (Apply(f, s) + Apply(f, t))[k]
    {
      if k < |s| {
        assert all[k] == s[k];
      } else {
        assert all[k] == t[k - |s|];
      }
    }
  }

  /** The matcher of category `c` on the update, as a function of the action. */
  function Matcher(env: Plugins.BotEnv, c: Category, u: Update): Action -> Result<bool> {
    (a: Action) => Plugins.MatchAction(env, c, a, u)
  }

  /** The matcher's verdict on each action of `group`, in group order. */
  function Verdicts(env: Plugins.BotEnv, c: Category, group: seq<Action>, u: Update): (r: seq<Result<bool>>)
    ensures |r| == |group|
    ensures forall i :: 0 <= i < |group| ==> r[i] == Plugins.MatchAction(env, c, group[i], u)
  {
    Apply(Matcher(env, c, u), group)
  }

  /** The index of the first verdict that is not a rejection (an acceptance
      or a failure), or `|vs|` when all are rejections. */
  function FirstDecisive(vs: seq<Result<bool>>): (i: nat)
    ensures i <= |vs|
    ensures forall j :: 0 <= j < i ==> vs[j] == Ok(false)
    ensures i < |vs| ==> vs[i] != Ok(false)
  {
    if vs == [] then 0
    else if vs[0] != Ok(false) then 0
    else
      var i := FirstDecisive(vs[1..]);
      assert forall j :: 1 <= j < |vs| ==> vs[j] == vs[1..][j - 1];
      1 + i
  }

  /** Scans the group in order: the first action the matcher accepts is the
      result, the first failure of the matcher is the result, and when every
      action is rejected no action is found. */
  function FindMatching(env: Plugins.BotEnv, c: Category, group: seq<Action>, u: Update): (r: Result<Action>)
    ensures r == Err(ActionNotFound) <==> forall i :: 0 <= i < |group| ==> Plugins.MatchAction(env, c, group[i], u) == Ok(false)
    ensures r.Ok? ==> exists i :: 0 <= i < |group| && group[i] == r.value
                                  && Plugins.MatchAction(env, c, group[i], u) == Ok(true)
                                  && forall j :: 0 <= j < i ==> Plugins.MatchAction(env, c, group[j], u) == Ok(false)
    ensures r.Err? && r.error != ActionNotFound ==>
              exists i :: 0 <= i < |group| && Plugins.MatchAction(env, c, group[i], u) == Err(r.error)
                          && forall j :: 0 <= j < i ==> Plugins.MatchAction(env, c, group[j], u) == Ok(false)
  {
    var i := FirstDecisive(Verdicts(env, c, group, u));
    if i == |group| then Err(ActionNotFound)
    else
      match Plugins.MatchAction(env, c, group[i], u)
      case Ok(_) => Ok(group[i])
      case Err(e) => Err(e)
  }

  /** Picks the matching action of a category's group. An absent or empty
      group has no action, whether or not a matcher exists; a non-empty group
      without a matcher is a configuration error. */
  function GetMatchingAction(env: Plugins.BotEnv, group: Option<seq<Action>>, matchers: set<Category>, c: Category, u: Update): (r: Result<Action>)
    ensures group.None? || group.value == [] ==> r == Err(ActionNotFound)
    ensures group.Some? && group.value != [] && c !in matchers ==> r == Err(IllegalState)
    ensures group.Some? && group.value != [] && c in matchers ==> r == FindMatching(env, c, group.value, u)
  {
    if group.None? || group.value == [] then Err(ActionNotFound)
    else if c !in matchers then Err(IllegalState)
    else FindMatching(env, c, group.value, u)
  }

  /** The group stored for a category, if any. */
  function GroupFor(k: Container, c: Category): Option<seq<Action>> {
    if c in k.actions then Some(k.actions[c]) else None
  }

  /** The action that handles an update: the matching action of the group of
      the update's category. */
  function FindByUpdate(env: Plugins.BotEnv, k: Container, u: Update): (r: Result<Action>)
    ensures ResolveUpdateType(k.resolvers, u).Err? ==> r == Err(UnknownUpdateType)
    ensures ResolveUpdateType(k.resolvers, u).Ok? ==>
              var c := ResolveUpdateType(k.resolvers, u).value;
              && (r.Ok? ==> c in k.actions && r.value in k.actions[c]
                            && Plugins.MatchAction(env, c, r.value, u) == Ok(true)
                            && Plugins.MatcherDeclaration(r.value, c).Some?)
              && (r == Err(ActionNotFound) <==>
                    GroupFor(k, c).None? || k.actions[c] == []
                    || (c in k.matchers
                        && forall i :: 0 <= i < |k.actions[c]| ==> Plugins.MatchAction(env, c, k.actions[c][i], u) == Ok(false)))
              && (r == Err(IllegalState) <==> GroupFor(k, c).Some? && k.actions[c] != [] && c !in k.matchers)
  {
    match ResolveUpdateType(k.resolvers, u)
    case Err(e) => Err(e)
    case Ok(c) => GetMatchingAction(env, GroupFor(k, c), k.matchers, c, u)
  }

  /** A command message also has text, so the order of the resolvers alone
      decides whether it is routed as a command or as text. */
  lemma ResolverOrderDecides(u: Update)
    requires u.message.Some? && u.message.value.isCommand && u.message.value.text.Some?
    ensures ResolveUpdateType([CommandCategory, TextCategory, CallbackCategory], u) == Ok(CommandCategory)
    ensures ResolveUpdateType([TextCategory, CommandCategory, CallbackCategory], u) == Ok(TextCategory)
  {
  }

  /** The scan stops at the first decisive verdict, so verdicts appended
      behind it do not move it. */
  lemma {:induction false} FirstDecisiveAppend(vs: seq<Result<bool>>, ws: seq<Result<bool>>)
    requires FirstDecisive(vs) < |vs|
    ensures FirstDecisive(vs + ws) == FirstDecisive(vs)
  {
    assert (vs + ws)[0] == vs[0];
    if vs[0] == Ok(false) {
      assert (vs + ws)[1..] == vs[1..] + ws;
      FirstDecisiveAppend(vs[1..], ws);
    }
  }

  /** Actions behind the first accepted one, or the first failing one, are
      never consulted: appending actions to the group does not change the
      result unless no action was found. */
  lemma EarlierMatchWins(env: Plugins.BotEnv, c: Category, group: seq<Action>, extra: seq<Action>, u: Update)
    requires FindMatching(env, c, group, u) != Err(ActionNotFound)
    ensures FindMatching(env, c, group + extra, u) == FindMatching(env, c, group, u)
  {
    var vs := Verdicts(env, c, group, u);
    var i := FirstDecisive(vs);
    ApplyAppend(Matcher(env, c, u), group, extra);
    FirstDecisiveAppend(vs, Verdicts(env, c, extra, u));
    assert (group + extra)[i] == group[i];
  }

  /** An action reached in the scan whose own class carries no declaration of
      the category makes its matcher fail, so the lookup fails with it and
      the actions behind it are never reached. */
  lemma UndeclaredActionBlocks(env: Plugins.BotEnv, k: Container, u: Update, a: Action, rest: seq<Action>)
    requires ResolveUpdateType(k.resolvers, u).Ok?
    requires var c := ResolveUpdateType(k.resolvers, u).value;
             c in k.actions && c in k.matchers && k.actions[c] == [a] + rest
             && Plugins.MatcherDeclaration(a, c).None?
    ensures FindByUpdate(env, k, u) == Err(NullPointer)
  {
  }

  /** In a container over collected groups, the action found for an update
      is one of the collected actions, of the category the update resolves to. */
  lemma FoundActionIsCollected(env: Plugins.BotEnv, k: Container, u: Update, beans: seq<Collector.Bean>, service: ComparatorService.Service)
    requires Collector.Collect(beans, service).Ok? && k.actions == Collector.Collect(beans, service).value
    requires FindByUpdate(env, k, u).Ok?
    ensures Collector.ActionBean(FindByUpdate(env, k, u).value) in beans
    ensures ExtractCategory(FindByUpdate(env, k, u).value) == ResolveUpdateType(k.resolvers, u)
  {
    var a := FindByUpdate(env, k, u).value;
    var c := ResolveUpdateType(k.resolvers, u).value;
    Collector.GroupMember(beans, service, c, a);
  }
}
