/** The update service: runs the action found for an update, and falls back to
    the optional default action when there is no action for it. */
module UpdateService {
  import opened Base
  import opened Model
  import Plugins
  import Container

  /** One run of a handler with the update: the found action or the default
      action. */
  datatype Run = ActionRun(action: Action) | DefaultRun

  /** What handling an update did: the runs, in order, and the exception that
      escaped the service, if any. */
  datatype Outcome = Outcome(ran: seq<Run>, escaped: Option<Exception>)

  /** Handles an update, given the lookup's result, whether a default action
      is configured, and what each run throws (`None` when it returns). A
      missing action or unknown update type, from the lookup or from the
      action's own run, runs the default action; every other failure is
      swallowed. The default action runs inside the handler of the first
      failure, so its own failure escapes. */
  function HandleUpdate(found: Result<Action>, hasDefault: bool, throws: Run -> Option<Exception>): (r: Outcome)
    ensures |r.ran| <= 2
    ensures found.Ok? ==> r.ran != [] && r.ran[0] == ActionRun(found.value)
    ensures found.Err? ==> r.ran == if hasDefault && IsNotFound(found.error) then [DefaultRun] else []
    ensures multiset(r.ran)[DefaultRun] <= 1
    ensures forall i :: 0 <= i < |r.ran| && r.ran[i].ActionRun? ==> i == 0 && found == Ok(r.ran[i].action)
    ensures DefaultRun in r.ran <==>
              hasDefault && ((found.Err? && IsNotFound(found.error))
                             || (found.Ok? && throws(ActionRun(found.value)).Some?
                                 && IsNotFound(throws(ActionRun(found.value)).value)))
    ensures DefaultRun in r.ran ==> r.ran[|r.ran| - 1] == DefaultRun && r.escaped == throws(DefaultRun)
    ensures DefaultRun !in r.ran ==> r.escaped.None?
  {
    var first := if found.Ok? then [ActionRun(found.value)] else [];
    var failure := if found.Ok? then throws(ActionRun(found.value)) else Some(found.error);
    if failure.Some? && IsNotFound(failure.value) && hasDefault then
      Outcome(first + [DefaultRun], throws(DefaultRun))
    else
      Outcome(first, None)
  }

  /** An update no resolver accepts runs the default action alone, or
      nothing without one. */
  lemma UnknownUpdateRunsDefault(env: Plugins.BotEnv, k: Container.Container, u: Update, hasDefault: bool, throws: Run -> Option<Exception>)
    requires Container.ResolveUpdateType(k.resolvers, u).Err?
    ensures HandleUpdate(Container.FindByUpdate(env, k, u), hasDefault, throws).ran
         == if hasDefault then [DefaultRun] else []
  {
  }

  /** A group without a matcher is a configuration error: nothing runs and
      nothing escapes, even when a default action is configured. */
  lemma MissingMatcherSilent(env: Plugins.BotEnv, k: Container.Container, u: Update, throws: Run -> Option<Exception>)
    requires Container.ResolveUpdateType(k.resolvers, u).Ok?
    requires var c := Container.ResolveUpdateType(k.resolvers, u).value;
             c in k.actions && k.actions[c] != [] && c !in k.matchers
    ensures HandleUpdate(Container.FindByUpdate(env, k, u), true, throws) == Outcome([], None)
  {
  }

  /** A found action runs exactly once; when it returns normally nothing else
      runs and nothing escapes. */
  lemma FoundActionRunsOnce(a: Action, hasDefault: bool, throws: Run -> Option<Exception>)
    requires throws(ActionRun(a)).None?
    ensures HandleUpdate(Ok(a), hasDefault, throws) == Outcome([ActionRun(a)], None)
  {
  }
}
