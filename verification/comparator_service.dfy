/** The comparator service: the registered declaration comparators, by
    category, and their lifting to a comparison of two actions by the
    declarations they carry. */
module ComparatorService {
  import opened Base
  import opened Model
  import Plugins

  /** The categories that have a registered declaration comparator. The
      comparator registered for a category is the plugin table's. */
  datatype Service = Service(registered: set<Category>)

  /** Builds the service from the categories of the listed comparators; two
      comparators of one category are a configuration error. */
  function NewService(comparators: seq<Category>): (r: Result<Service>)
    ensures r.Err? <==> !Distinct(comparators)
    ensures r.Err? ==> r.error == IllegalState
    ensures r.Ok? ==> forall c :: c in r.value.registered <==> c in comparators
  {
    match KeySet(comparators)
    case Err(e) => Err(e)
    case Ok(keys) => Ok(Service(keys))
  }

  /** A comparator of actions by their declarations of one category. */
  datatype ActionComparator = ActionComparator(category: Category)

  /** The action comparator of a category. A missing category is rejected
      first; a category without a registered comparator has none. */
  function GetActionComparator(s: Service, c: Option<Category>): (r: Result<ActionComparator>)
    ensures c.None? ==> r == Err(NullPointer)
    ensures c.Some? ==> (r.Ok? <==> c.value in s.registered)
    ensures c.Some? && r.Err? ==> r.error == NoSuchElement
    ensures r.Ok? ==> r.value.category == c.value
  {
    if c.None? then Err(NullPointer)
    else if c.value !in s.registered then Err(NoSuchElement)
    else Ok(ActionComparator(c.value))
  }

  /** The nearest declaration of category `c`: the one on the action's own
      class, else the one on the nearest superclass carrying one. An action
      without one is rejected. Declarations on interfaces are not modelled. */
  function ExtractAnnotation(a: Action, c: Category): (r: Result<Declaration>)
    ensures r.Err? <==> forall i :: 0 <= i < |Declarations(a)| ==> CategoryOf(Declarations(a)[i]) != c
    ensures r.Err? ==> r.error == IllegalArgument
    ensures r.Ok? ==> r.value in Declarations(a) && CategoryOf(r.value) == c
    ensures r.Ok? ==> FindDeclaration(Declarations(a), c) == Some(r.value)
    ensures Plugins.MatcherDeclaration(a, c).Some? ==> r == Ok(Plugins.MatcherDeclaration(a, c).value)
    ensures Plugins.MatcherDeclaration(a, c).None? ==>
              (r.Ok? <==> FindDeclaration(a.inherited, c).Some?)
              && (r.Ok? ==> r.value == FindDeclaration(a.inherited, c).value)
  {
    FindDeclarationAppend(a.own, a.inherited, c);
    match FindDeclaration(Declarations(a), c)
    case None => Err(IllegalArgument)
    case Some(d) => Ok(d)
  }

  /** Compares two actions: the category's declaration comparator applied
      to the declarations of that category the two actions carry. The first
      action's declaration is looked up first. */
  function Compare(ac: ActionComparator, a1: Action, a2: Action): (r: Result<int>)
    ensures r.Err? <==> ExtractAnnotation(a1, ac.category).Err? || ExtractAnnotation(a2, ac.category).Err?
    ensures r.Err? ==> r.error == IllegalArgument
    ensures r.Ok? ==>
              && CategoryOf(ExtractAnnotation(a1, ac.category).value) == ac.category
              && CategoryOf(ExtractAnnotation(a2, ac.category).value) == ac.category
              && r.value == Plugins.CompareDeclarations(ExtractAnnotation(a1, ac.category).value,
                                                        ExtractAnnotation(a2, ac.category).value)
  {
    match ExtractAnnotation(a1, ac.category)
    case Err(e) => Err(e)
    case Ok(d1) =>
      match ExtractAnnotation(a2, ac.category)
      case Err(e) => Err(e)
      case Ok(d2) => Ok(Plugins.CompareDeclarations(d1, d2))
  }

  /** Two actions of the comparator's category never fail to compare: each
      carries, first of all, a declaration of that category, and that is the
      one compared. */
  lemma CompareWithinCategory(c: Category, a1: Action, a2: Action)
    requires ExtractCategory(a1) == Ok(c) && ExtractCategory(a2) == Ok(c)
    ensures Compare(ActionComparator(c), a1, a2)
         == Ok(Plugins.CompareDeclarations(Declarations(a1)[0], Declarations(a2)[0]))
  {
  }

  /** Swapping the two actions negates the comparison, or fails alike. */
  lemma CompareAntisymmetric(ac: ActionComparator, a1: Action, a2: Action)
    ensures Compare(ac, a1, a2).Err? <==> Compare(ac, a2, a1).Err?
    ensures Compare(ac, a1, a2).Ok? ==> Compare(ac, a2, a1).value == -Compare(ac, a1, a2).value
  {
    if Compare(ac, a1, a2).Ok? {
      Plugins.CompareDeclarationsAntisymmetric(ExtractAnnotation(a1, ac.category).value,
                                               ExtractAnnotation(a2, ac.category).value);
    }
  }
}
