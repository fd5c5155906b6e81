/** The action collector: keeps the action beans, groups them by category and
    sorts each group greatest-first with the category's action comparator. */
module Collector {
  import opened Base
  import opened Comparators
  import opened Sorting
  import opened Model
  import Strings
  import ComparatorService

  /** A bean carrying the bot-action marker: an action, or some other object. */
  datatype Bean = ActionBean(action: Action) | OtherBean

  /** The actions among the beans, in bean order; other objects are dropped. */
  function ActionsOf(beans: seq<Bean>): (r: seq<Action>)
    ensures forall a :: multiset(r)[a] == multiset(beans)[ActionBean(a)]
    ensures |r| <= |beans|
  {
    if beans == [] then []
    else
      assert beans == [beans[0]] + beans[1..];
      var rest := ActionsOf(beans[1..]);
      if beans[0].ActionBean? then [beans[0].action] + rest else rest
  }

  /** The actions of a bean followed by more beans. */
  lemma ActionsOfCons(b: Bean, rest: seq<Bean>)
    ensures ActionsOf([b] + rest) == (if b.ActionBean? then [b.action] else []) + ActionsOf(rest)
  {
    assert ([b] + rest)[1..] == rest;
  }

  /** The actions of two action beans around another bean. */
  lemma ActionsOfThree(a1: Action, a2: Action)
    ensures ActionsOf([ActionBean(a1), OtherBean, ActionBean(a2)]) == [a1, a2]
  {
    var tail2: seq<Bean> := [ActionBean(a2)];
    var tail1: seq<Bean> := [OtherBean] + tail2;
    assert tail2 == [ActionBean(a2)] + [];
    ActionsOfCons(ActionBean(a2), []);
    ActionsOfCons(OtherBean, tail2);
    ActionsOfCons(ActionBean(a1), tail1);
  }

  /** Some action carries no declaration at all. */
  predicate HasUndeclared(actions: seq<Action>) {
    exists a :: a in actions && Declarations(a) == []
  }

  /** The actions of category `c`, in input order. */
  function GroupOf(actions: seq<Action>, c: Category): (r: seq<Action>)
    ensures forall a :: multiset(r)[a] == if ExtractCategory(a) == Ok(c) then multiset(actions)[a] else 0
    ensures forall i :: 0 <= i < |r| ==> ExtractCategory(r[i]) == Ok(c)
  {
    if actions == [] then []
    else
      assert actions == [actions[0]] + actions[1..];
      var rest := GroupOf(actions[1..], c);
      if ExtractCategory(actions[0]) == Ok(c) then [actions[0]] + rest else rest
  }

  /** Two actions of one category form its whole group. */
  lemma GroupOfPair(a1: Action, a2: Action, c: Category)
    requires ExtractCategory(a1) == Ok(c) && ExtractCategory(a2) == Ok(c)
    ensures GroupOf([a1, a2], c) == [a1, a2]
  {
    assert [a1, a2][1..] == [a2] && [a2][1..] == [];
    assert GroupOf([a2], c) == [a2];
  }

  /** Every category. */
  const AllCategories: set<Category> := {TextCategory, CommandCategory, CallbackCategory}

  /** `AllCategories` lists every category. */
  lemma AllCategoriesComplete()
    ensures forall c: Category :: c in AllCategories
  {
    forall c: Category
      ensures c in AllCategories
    {
      match c
      case TextCategory =>
      case CommandCategory =>
      case CallbackCategory =>
    }
  }

  /** The categories that some action belongs to: the keys of the grouping. */
  function Categories(actions: seq<Action>): (r: set<Category>)
    ensures forall c :: c in r <==> GroupOf(actions, c) != []
  {
    AllCategoriesComplete();
    set c | c in AllCategories && GroupOf(actions, c) != []
  }

  /** The action comparator of `ac` as the `int`-valued comparator the sort
      calls. A failing comparison would abort the collection; it never fails
      on the actions of a group (`OrderWithinGroup`), so the value it is
      given here is never used. */
  function Order(ac: ComparatorService.ActionComparator): (Action, Action) -> int {
    (a1: Action, a2: Action) =>
      match ComparatorService.Compare(ac, a1, a2)
      case Ok(v) => v
      case Err(_) => 0
  }

  /** Within a group the sort's comparator is the declaration comparator on
      the actions' first declarations. */
  lemma OrderWithinGroup(c: Category, a1: Action, a2: Action)
    requires ExtractCategory(a1) == Ok(c) && ExtractCategory(a2) == Ok(c)
    ensures ComparatorService.Compare(ComparatorService.ActionComparator(c), a1, a2).Ok?
    ensures Order(ComparatorService.ActionComparator(c))(a1, a2)
         == ComparatorService.Compare(ComparatorService.ActionComparator(c), a1, a2).value
  {
    ComparatorService.CompareWithinCategory(c, a1, a2);
  }

  /** Sorts one group with the reversed action comparator of its category,
      which the service must have. */
  function SortGroup(service: ComparatorService.Service, c: Category, group: seq<Action>): (r: Result<seq<Action>>)
    ensures r.Err? <==> c !in service.registered
    ensures r.Err? ==> r.error == NoSuchElement
    ensures r.Ok? ==> multiset(r.value) == multiset(group)
    ensures r.Ok? ==> r.value == StableSort(group, Reversed(Order(ComparatorService.ActionComparator(c))))
  {
    match ComparatorService.GetActionComparator(service, Some(c))
    case Err(e) => Err(e)
    case Ok(ac) => Ok(StableSort(group, Reversed(Order(ac))))
  }

  /** Collects the actions among the beans into sorted groups by category.
      An action without any declaration fails the whole collection; so does a
      category without a registered comparator. */
  function Collect(beans: seq<Bean>, service: ComparatorService.Service): (r: Result<map<Category, seq<Action>>>)
    ensures HasUndeclared(ActionsOf(beans)) ==> r == Err(IllegalState)
    ensures !HasUndeclared(ActionsOf(beans)) ==>
              && (r.Err? <==> !(Categories(ActionsOf(beans)) <= service.registered))
              && (r.Err? ==> r.error == NoSuchElement)
    ensures r.Ok? ==> forall c :: c in r.value <==> GroupOf(ActionsOf(beans), c) != []
    ensures r.Ok? ==> forall c :: c in r.value ==> r.value[c] != []
    ensures r.Ok? ==> forall c, a :: c in r.value ==>
              multiset(r.value[c])[a] == if ExtractCategory(a) == Ok(c) then multiset(beans)[ActionBean(a)] else 0
  {
    var actions := ActionsOf(beans);
    if HasUndeclared(actions) then Err(IllegalState)
    else
      var cats := Categories(actions);
      if exists c :: c in cats && SortGroup(service, c, GroupOf(actions, c)).Err? then Err(NoSuchElement)
      else
        var m := map c | c in cats :: SortGroup(service, c, GroupOf(actions, c)).value;
        assert forall c :: c in m ==> multiset(m[c]) == multiset(GroupOf(actions, c));
        Ok(m)
  }

  /** What a command or callback action is ranked by: the Java length (in
      UTF-16 code units) of the literal or key of its first declaration. */
  function Specificity(a: Action): nat {
    var ds := Declarations(a);
    if ds == [] then 0
    else
      match ds[0]
      case Text(_) => 0
      case Command(v) => Strings.JavaLength(v)
      case Callback(k) => Strings.JavaLength(k)
  }

  /** In a command or callback group the sort's comparator compares the
      actions' specificities. */
  lemma OrderByLength(c: Category, a1: Action, a2: Action)
    requires c != TextCategory
    requires ExtractCategory(a1) == Ok(c) && ExtractCategory(a2) == Ok(c)
    ensures Order(ComparatorService.ActionComparator(c))(a1, a2) == IntegerCompare(Specificity(a1), Specificity(a2))
  {
    OrderWithinGroup(c, a1, a2);
    ComparatorService.CompareWithinCategory(c, a1, a2);
  }

  /** On command or callback actions the sort's comparator meets the general
      contract of a comparator. */
  lemma OrderIsComparator(c: Category, S: set<Action>)
    requires c != TextCategory
    requires forall a :: a in S ==> ExtractCategory(a) == Ok(c)
    ensures IsComparator(Order(ComparatorService.ActionComparator(c)), S)
  {
    var o := Order(ComparatorService.ActionComparator(c));
    forall a, b | a in S && b in S
      ensures o(a, b) == IntegerCompare(Specificity(a), Specificity(b))
    {
      OrderByLength(c, a, b);
    }
  }

  /** The group of category `c` before sorting, and the comparator it is
      sorted with. */
  lemma GroupFacts(beans: seq<Bean>, service: ComparatorService.Service, c: Category)
    requires Collect(beans, service).Ok? && c in Collect(beans, service).value
    ensures var group := GroupOf(ActionsOf(beans), c);
            && Collect(beans, service).value[c]
               == StableSort(group, Reversed(Order(ComparatorService.ActionComparator(c))))
            && forall a :: a in Elements(group) ==> ExtractCategory(a) == Ok(c)
  {
    var group := GroupOf(ActionsOf(beans), c);
    forall a | a in Elements(group)
      ensures ExtractCategory(a) == Ok(c)
    {
      assert multiset(group)[a] > 0;
    }
  }

  /** The sorted command or callback group of any actions is ordered
      greatest first: by non-increasing length of literal or key. */
  lemma SortedGroupOrdered(actions: seq<Action>, c: Category)
    requires c != TextCategory
    ensures var g := StableSort(GroupOf(actions, c), Reversed(Order(ComparatorService.ActionComparator(c))));
            forall i, j :: 0 <= i < j < |g| ==> Specificity(g[j]) <= Specificity(g[i])
  {
    var group := GroupOf(actions, c);
    var o := Order(ComparatorService.ActionComparator(c));
    var S := Elements(group);
    OrderIsComparator(c, S);
    ReversedIsComparator(o, S);
    SortSorted(group, Reversed(o), S);
    SortElements(group, Reversed(o));
    var g := StableSort(group, Reversed(o));
    forall i, j | 0 <= i < j < |g|
      ensures Specificity(g[j]) <= Specificity(g[i])
    {
      assert Reversed(o)(g[i], g[j]) <= 0;
      assert g[i] in Elements(g) && g[j] in Elements(g);
      OrderByLength(c, g[j], g[i]);
    }
  }

  /** Sorting a command or callback group is stable: the actions that tie
      with any `k` of the category keep their input order. */
  lemma SortedGroupStable(actions: seq<Action>, c: Category, k: Action)
    requires c != TextCategory && ExtractCategory(k) == Ok(c)
    ensures var rc := Reversed(Order(ComparatorService.ActionComparator(c)));
            Ties(StableSort(GroupOf(actions, c), rc), rc, k) == Ties(GroupOf(actions, c), rc, k)
  {
    var group := GroupOf(actions, c);
    var o := Order(ComparatorService.ActionComparator(c));
    var S := Elements(group) + {k};
    OrderIsComparator(c, S);
    ReversedIsComparator(o, S);
    SortStable(group, Reversed(o), S, k);
  }

  /** A collected command or callback group is ordered greatest first. */
  lemma GroupOrdered(beans: seq<Bean>, service: ComparatorService.Service, c: Category)
    requires Collect(beans, service).Ok? && c in Collect(beans, service).value
    requires c != TextCategory
    ensures var g := Collect(beans, service).value[c];
            forall i, j :: 0 <= i < j < |g| ==> Specificity(g[j]) <= Specificity(g[i])
  {
    GroupFacts(beans, service, c);
    SortedGroupOrdered(ActionsOf(beans), c);
  }

  /** The sort of a collected command or callback group is stable. */
  lemma GroupStable(beans: seq<Bean>, service: ComparatorService.Service, c: Category, k: Action)
    requires Collect(beans, service).Ok? && c in Collect(beans, service).value
    requires c != TextCategory && k in Collect(beans, service).value[c]
    ensures var rc := Reversed(Order(ComparatorService.ActionComparator(c)));
            Ties(Collect(beans, service).value[c], rc, k) == Ties(GroupOf(ActionsOf(beans), c), rc, k)
  {
    GroupFacts(beans, service, c);
    GroupMember(beans, service, c, k);
    SortedGroupStable(ActionsOf(beans), c, k);
  }

  /** Every collected action lies in the group of its category and in no
      other group. */
  lemma EveryActionGrouped(beans: seq<Bean>, service: ComparatorService.Service, a: Action)
    requires Collect(beans, service).Ok? && ActionBean(a) in beans
    ensures ExtractCategory(a).Ok? && ExtractCategory(a).value in Collect(beans, service).value
    ensures forall c :: c in Collect(beans, service).value ==>
              (a in Collect(beans, service).value[c] <==> ExtractCategory(a) == Ok(c))
  {
    var m := Collect(beans, service).value;
    assert multiset(beans)[ActionBean(a)] > 0;
    assert a in ActionsOf(beans) by {
      assert multiset(ActionsOf(beans))[a] > 0;
    }
    var c := ExtractCategory(a).value;
    assert multiset(GroupOf(ActionsOf(beans), c))[a] > 0;
    forall c' | c' in m
      ensures a in m[c'] <==> ExtractCategory(a) == Ok(c')
    {
      assert a in m[c'] <==> multiset(m[c'])[a] > 0;
    }
  }

  /** Every member of a group is a collected action of the group's category. */
  lemma GroupMember(beans: seq<Bean>, service: ComparatorService.Service, c: Category, a: Action)
    requires Collect(beans, service).Ok? && c in Collect(beans, service).value
    requires a in Collect(beans, service).value[c]
    ensures ActionBean(a) in beans && ExtractCategory(a) == Ok(c)
  {
    assert multiset(Collect(beans, service).value[c])[a] > 0;
  }

  /** With a comparator for every category, collecting fails only for an
      action without any declaration. */
  lemma CollectWithEveryComparator(beans: seq<Bean>)
    ensures Collect(beans, ComparatorService.Service(AllCategories)).Ok? <==> !HasUndeclared(ActionsOf(beans))
  {
    AllCategoriesComplete();
    assert Categories(ActionsOf(beans)) <= AllCategories;
  }

  /** Two actions of a command or callback category, the less specific
      one first: sorting puts the more specific one first. */
  lemma LongerFirst(c: Category, a1: Action, a2: Action)
    requires c != TextCategory && ExtractCategory(a1) == Ok(c) && ExtractCategory(a2) == Ok(c)
    requires Specificity(a1) < Specificity(a2)
    ensures StableSort([a1, a2], Reversed(Order(ComparatorService.ActionComparator(c)))) == [a2, a1]
  {
    OrderByLength(c, a1, a2);
    SortPair(a1, a2, Reversed(Order(ComparatorService.ActionComparator(c))));
  }

  /** Two actions of one command or callback category, with another bean
      between them: whatever their order, the collected group holds the more
      specific one first. */
  lemma MoreSpecificFirst(c: Category, a1: Action, a2: Action)
    requires c != TextCategory && ExtractCategory(a1) == Ok(c) && ExtractCategory(a2) == Ok(c)
    requires Specificity(a1) < Specificity(a2)
    ensures var r := Collect([ActionBean(a1), OtherBean, ActionBean(a2)], ComparatorService.Service(AllCategories));
            r.Ok? && c in r.value && r.value[c] == [a2, a1]
  {
    var beans := [ActionBean(a1), OtherBean, ActionBean(a2)];
    var service := ComparatorService.Service(AllCategories);
    ActionsOfThree(a1, a2);
    assert !HasUndeclared([a1, a2]) by {
      forall a | a in [a1, a2]
        ensures Declarations(a) != []
      {
        assert a == a1 || a == a2;
      }
    }
    assert !HasUndeclared(ActionsOf(beans));
    CollectWithEveryComparator(beans);
    assert Collect(beans, service).Ok?;
    GroupOfPair(a1, a2, c);
    GroupFacts(beans, service, c);
    LongerFirst(c, a1, a2);
  }
}
