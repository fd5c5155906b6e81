/** The values the routing engine works on: the three rule declarations an
    action can carry, the categories they stand for, the part of a Telegram
    update the engine reads, and actions with their declarations. */
module Model {
  import opened Base

  /** An update category: the join key between resolvers, matchers,
      comparators and the groups of actions. */
  datatype Category = TextCategory | CommandCategory | CallbackCategory

  /** The five attributes of a text rule; each defaults to "" and is
      "declared" when non-empty. */
  datatype TextRule = TextRule(
    equals: string,
    contains: string,
    startsWith: string,
    endsWith: string,
    regex: string)

  /** A rule declaration (annotation value) attached to an action. A command
      carries its literal, a callback its key; both default to "". */
  datatype Declaration =
    | Text(rule: TextRule)
    | Command(value: string)
    | Callback(key: string)

  /** The category a declaration belongs to. */
  function CategoryOf(d: Declaration): Category {
    match d
    case Text(_) => TextCategory
    case Command(_) => CommandCategory
    case Callback(_) => CallbackCategory
  }

  /** The text part of a message and whether the message is a bot command. */
  datatype Message = Message(text: Option<string>, isCommand: bool)

  /** A button press, with the callback data of the pressed button. */
  datatype CallbackQuery = CallbackQuery(data: Option<string>)

  /** The parts of a Telegram update the routing engine reads. */
  datatype Update = Update(message: Option<Message>, callbackQuery: Option<CallbackQuery>)

  /** The Telegram library only reports a message as a command when it has
      text (a bot-command entity at offset 0 lies inside the text). */
  predicate WellFormed(u: Update) {
    u.message.Some? && u.message.value.isCommand ==> u.message.value.text.Some?
  }

  /** An action: its identity, the rule declarations on its own class, and
      those on its superclasses, nearest superclass first. */
  datatype Action = Action(id: nat, own: seq<Declaration>, inherited: seq<Declaration>)

  /** Every declaration of an action in scan order: its class, then each
      superclass up to `Object`. */
  function Declarations(a: Action): seq<Declaration> {
    a.own + a.inherited
  }

  /** The first declaration of category `c` in `decls`, if any: what looking
      an annotation class up finds. */
  function FindDeclaration(decls: seq<Declaration>, c: Category): (r: Option<Declaration>)
    ensures r.Some? ==> r.value in decls && CategoryOf(r.value) == c
    ensures r.Some? ==> exists i :: 0 <= i < |decls| && decls[i] == r.value
                                    && forall j :: 0 <= j < i ==> CategoryOf(decls[j]) != c
    ensures r.None? <==> forall i :: 0 <= i < |decls| ==> CategoryOf(decls[i]) != c
  {
    if decls == [] then None
    else if CategoryOf(decls[0]) == c then
      Some(decls[0])
    else
      var r := FindDeclaration(decls[1..], c);
      assert forall i :: 1 <= i < |decls| ==> decls[i] == decls[1..][i - 1];
      if r.Some? then
        var i :| 0 <= i < |decls[1..]| && decls[1..][i] == r.value
                 && forall j :: 0 <= j < i ==> CategoryOf(decls[1..][j]) != c;
        assert decls[i + 1] == r.value;
        assert forall j :: 0 <= j < i + 1 ==> CategoryOf(decls[j]) != c;
        r
      else
        r
  }

  /** Looking up a category in two lists in a row finds it in the first
      list when it is there, and in the second list otherwise. */
  lemma {:induction false} FindDeclarationAppend(xs: seq<Declaration>, ys: seq<Declaration>, c: Category)
    ensures FindDeclaration(xs + ys, c)
         == if FindDeclaration(xs, c).Some? then FindDeclaration(xs, c) else FindDeclaration(ys, c)
  {
    if xs != [] {
      assert (xs + ys)[0] == xs[0];
      assert (xs + ys)[1..] == xs[1..] + ys;
      FindDeclarationAppend(xs[1..], ys, c);
    } else {
      assert xs + ys == ys;
    }
  }

  /** The category of an action is that of the first declaration found
      scanning its class and then its superclasses; an action without any
      declaration is a configuration error. */
  function ExtractCategory(a: Action): (r: Result<Category>)
    ensures r.Err? <==> Declarations(a) == []
    ensures r.Err? ==> r.error == IllegalState
    ensures r.Ok? ==> FindDeclaration(Declarations(a), r.value) == Some(Declarations(a)[0])
  {
    var ds := Declarations(a);
    if ds == [] then Err(IllegalState) else Ok(CategoryOf(ds[0]))
  }

  /** No category occurs twice in `keys`. */
  ghost predicate Distinct(keys: seq<Category>) {
    forall i, j :: 0 <= i < j < |keys| ==> keys[i] != keys[j]
  }

  /** `Collectors.toMap` keyed by category: the categories of a list of
      plugin components, or a failure when two components share one. */
  function KeySet(keys: seq<Category>): (r: Result<set<Category>>)
    ensures r.Err? <==> !Distinct(keys)
    ensures r.Err? ==> r.error == IllegalState
    ensures r.Ok? ==> forall c :: c in r.value <==> c in keys
  {
    if keys == [] then Ok({})
    else
      var rest := KeySet(keys[1..]);
      assert forall i :: 1 <= i < |keys| ==> keys[i] == keys[1..][i - 1];
      if rest.Err? then
        assert !Distinct(keys[1..]);
        Err(IllegalState)
      else if keys[0] in rest.value then
        assert keys[0] in keys[1..];
        Err(IllegalState)
      else
        Ok(rest.value + {keys[0]})
  }
}
