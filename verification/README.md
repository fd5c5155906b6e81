# javagram routing engine in Dafny

This project models the routing engine of javagram, a Java framework for Telegram bots. The engine takes an incoming update and picks the one registered action (handler) that should run. The model covers each stage:

- **Classification.** Three resolvers, tried in list order, decide whether an update is text, a command or a button press (callback).
- **Matching.** Each category's matcher tests an action's rule declaration against the update.
  - A text rule has five attributes: `equals`, `regex`, `startsWith`, `endsWith` and `contains`.
  - A command rule has a literal.
  - A callback rule has a key.
- **Specificity comparators.** One comparator per category ranks declarations of that category.
- **Comparator service.** It lifts a declaration comparator to a comparison of two actions.
- **Collector.** It groups the actions by category and sorts each group greatest first.
- **Container.** It resolves the category of an update, then scans that category's group for the first matching action.
- **Update service.** It runs the found action, or falls back to the optional default action.
- **Inline keyboard builder.** It writes callback data as `key:data`, which the callback matcher reads back.

Java exceptions become `Base.Result` values that name the exception class the Java code throws at that point. `null` and `Optional` become `Base.Option`. Strings are `seq<char>`; where Java measures a string with `length()`, the model counts UTF-16 code units (`Strings.JavaLength`), so a character outside the Basic Multilingual Plane counts twice. `String.trim` and the regular-expression class `\s` are modelled with their exact character sets. `List.sort` is a stable insertion sort (`Sorting.StableSort`), and a Java `Comparator` is a function to `int` (`Comparators`).

Reflection is replaced by explicit data. An action (`Model.Action`) carries two lists of rule declarations: those on its own class, and those on its superclasses, nearest first.

- The collector and the comparator service search both lists: the own class, then the superclasses. This is the collector's superclass walk exactly. Spring's `findAnnotation`, which the comparator service calls, also searches implemented interfaces; the model has no interfaces (see "## Left out").
- A matcher reads only the action's own class, as `Class.getAnnotation` does for these non-inherited annotations (`Plugins.MatcherDeclaration`).

Three inputs are parameters:

- the regular-expression engine (`TextPlugin.RegexEngine`);
- the configured bot username (`Plugins.BotEnv`);
- what running an action throws (`UpdateService.HandleUpdate`).

The resolver order is a parameter too. The plugins register their resolvers without an explicit order, and `Container.ResolverOrderDecides` shows that this order alone decides whether a command message is routed as a command or as text.

Some behaviours of the code are easy to misread. The model follows the code:

- **Text comparator.** It has no case-sensitivity setting and never compares field contents. It compares `equals`, then `regex`, then the weighted sum 3·startsWith + 3·endsWith + contains, and inside each field it looks only at emptiness and Java length (`TextPlugin.Compare`, `TextPlugin.CompareLengthsOnly`).
- **Text rule with nothing declared.** `allMatch` over no matchers accepts every message, even one without text (`TextPlugin.Match`).
- **Several declarations on one action.** This is not rejected: the collector and the comparator service use the first declaration found, searching the own class and then the superclasses (`Model.ExtractCategory`, `ComparatorService.ExtractAnnotation`).
- **Handler failures.** The update service catches what a handler throws. A not-found failure runs the default action; any other exception is logged and goes no further (`UpdateService.HandleUpdate`).
- **Combined text rules.** The matcher's doc comment says "at least one" of startsWith/endsWith/contains must hold. The code requires all of them (`allMatch`).
- **Collector test order.** The collector's test asserts ascending order within a group. The code sorts with `comparator.reversed()`, so groups are greatest first (`Collector.GroupOrdered`, `Collector.MoreSpecificFirst`).

## Model

| member | source | states |
|---|---|---|
| Model.FindDeclaration | src/main/java/com/rainett/javagram/action/container/impl/ActionCollectorImpl.java:97-103 | finds the first declaration of a category in scan order; the result is None exactly when no declaration has that category |
| Model.FindDeclarationAppend | src/main/java/com/rainett/javagram/action/container/impl/ActionCollectorImpl.java:97-103 | searching the own class and then the superclasses finds the own class's declaration when it has one, else the superclasses' first |
| Model.ExtractCategory | src/main/java/com/rainett/javagram/action/container/impl/ActionCollectorImpl.java:94-109 | fails with IllegalState exactly when the action has no declaration on its class or its superclasses; otherwise the category is that of the first declaration found, and looking that category up finds the same declaration |
| Model.KeySet | src/main/java/com/rainett/javagram/action/comparator/impl/ActionComparatorServiceImpl.java:36-38 | building a map keyed by category fails with IllegalState exactly when a category repeats; otherwise the keys are exactly the listed categories |
| Strings.Contains | src/main/java/com/rainett/javagram/action/plugin/impl/text/TextUpdateMatcher.java:63 | true exactly when the pattern occurs at some index of the text |
| Strings.Trim | src/main/java/com/rainett/javagram/action/plugin/impl/command/CommandUpdateMatcher.java:56 | the result neither starts nor ends with a character ≤ U+0020, and it is the input with its leading such characters removed and cut before its trailing run of them |
| Strings.TrimUnchanged | src/main/java/com/rainett/javagram/action/plugin/impl/command/CommandUpdateMatcher.java:28 | trimming text without any character ≤ U+0020 leaves it unchanged |
| Strings.Before | src/main/java/com/rainett/javagram/action/plugin/impl/callback/CallbackUpdateMatcher.java:35 | the result is a prefix without the delimiter, followed in the input by the delimiter unless it is the whole input |
| Strings.SplitEmptyIff | src/main/java/com/rainett/javagram/action/plugin/impl/callback/CallbackUpdateMatcher.java:35 | `split` returns an empty array exactly when the string consists of delimiters only and holds at least one |
| Strings.SplitHead | src/main/java/com/rainett/javagram/action/plugin/impl/callback/CallbackUpdateMatcher.java:35 | a non-empty `split` result starts with the text before the first delimiter |
| Strings.JavaLength | src/main/java/com/rainett/javagram/action/plugin/impl/callback/CallbackComparator.java:20 | `length()` is the length of the string's UTF-16 encoding: between the number of characters and twice it, zero only for the empty string, and the number of characters when none lies outside the Basic Multilingual Plane |
| Comparators.IntegerCompare | src/main/java/com/rainett/javagram/action/plugin/impl/command/CommandComparator.java:21 | the result is -1, 0 or 1, with sign equal to the sign of x - y |
| Comparators.ReversedIsComparator | src/main/java/com/rainett/javagram/action/container/impl/ActionCollectorImpl.java:83 | `reversed()` of a comparator that meets the general contract meets it too |
| Comparators.NotGreaterTransitive | src/main/java/com/rainett/javagram/action/container/impl/ActionCollectorImpl.java:83 | under a comparator that meets the contract, "not greater" is transitive |
| Sorting.StableSort | src/main/java/com/rainett/javagram/action/container/impl/ActionCollectorImpl.java:83 | sorting is a permutation: it keeps the multiset of elements |
| Sorting.SortSorted | src/main/java/com/rainett/javagram/action/container/impl/ActionCollectorImpl.java:83 | under a comparator that meets the contract, every pair of the output is in order |
| Sorting.SortStable | src/main/java/com/rainett/javagram/action/container/impl/ActionCollectorImpl.java:83 | the sort is stable: the elements that tie with any k keep their input order |
| TextPlugin.FirstCase | src/main/java/com/rainett/javagram/action/plugin/impl/text/TextUpdateMatcher.java:32-36 | returns the first rule kind in priority order (equals, then regex) that the rule declares; None exactly when neither is declared |
| TextPlugin.AllMatch | src/main/java/com/rainett/javagram/action/plugin/impl/text/TextUpdateMatcher.java:49-52 | over no matchers the result is true; otherwise missing text fails, and present text gives whether every matcher holds |
| TextPlugin.CollectedMeansConjunction | src/main/java/com/rainett/javagram/action/plugin/impl/text/TextUpdateMatcher.java:54-66 | the collected matchers all hold exactly when every declared one of startsWith/endsWith/contains holds |
| TextPlugin.MatchGeneral | src/main/java/com/rainett/javagram/action/plugin/impl/text/TextUpdateMatcher.java:49-66 | the combined rules give the conjunction of the declared ones; with none declared every update matches, even one without text |
| TextPlugin.Match | src/main/java/com/rainett/javagram/action/plugin/impl/text/TextUpdateMatcher.java:30-38 | a declared equals decides alone, then a declared regex, else the conjunction; a missing message or rule fails; missing text fails exactly when something is declared; an all-empty rule matches every message |
| TextPlugin.PrefixSuffixScenario | src/main/java/com/rainett/javagram/action/plugin/impl/text/TextUpdateMatcher.java:56-61 | startsWith "foo" with endsWith "bar" accepts "foobar" and "foo...bar" and rejects "foobaz" and "xbar" |
| TextPlugin.CompareProperty | src/main/java/com/rainett/javagram/action/plugin/impl/text/TextComparator.java:57-68 | a declared field beats an empty one, two empty fields tie, and two declared fields compare by Java length (UTF-16 code units): Integer.compare of the lengths |
| TextPlugin.Compare | src/main/java/com/rainett/javagram/action/plugin/impl/text/TextComparator.java:26-46 | a difference in the Java length of equals decides; then one in regex; otherwise the result is 3·startsWith + 3·endsWith + contains of the field comparisons; always within [-7, 7] |
| TextPlugin.CompareAntisymmetric | src/main/java/com/rainett/javagram/action/plugin/impl/text/TextComparator.java:26-68 | compare(a, b) = -compare(b, a) and compare(t, t) = 0 |
| TextPlugin.CompareLengthsOnly | src/main/java/com/rainett/javagram/action/plugin/impl/text/TextComparator.java:64-66 | rules whose fields have equal Java lengths compare equal and compare alike against any third rule |
| TextPlugin.CompareNotConsistent | src/main/java/com/rainett/javagram/action/plugin/impl/text/TextComparator.java:36-45 | {startsWith x} ties {endsWith x}, which ties {startsWith xx}, yet the first is less than the third, so the comparator breaks the general contract |
| TextPlugin.EndsWithBeforeContains | src/main/java/com/rainett/javagram/action/plugin/impl/text/TextComparator.java:36-45 | {endsWith "!"} is greater than {contains "!"}, so the greatest-first sort places it first from either input order |
| CommandPlugin.FirstToken | src/main/java/com/rainett/javagram/action/plugin/impl/command/CommandUpdateMatcher.java:56-57 | the token is the longest `\s`-free prefix of the trimmed text; it is empty only for blank text |
| CommandPlugin.BotName | src/main/java/com/rainett/javagram/action/plugin/impl/command/CommandUpdateMatcher.java:68-71 | one leading '@' of the configured username is dropped, and nothing else changes |
| CommandPlugin.AfterAt | src/main/java/com/rainett/javagram/action/plugin/impl/command/CommandUpdateMatcher.java:59 | a token with '@' is the part before the first '@', then '@', then the result |
| CommandPlugin.ExtractCommand | src/main/java/com/rainett/javagram/action/plugin/impl/command/CommandUpdateMatcher.java:55-73 | a token without '@' is the command; with '@' and no configured username it fails; the mention is stripped exactly when it equals the bot name ignoring ASCII case, and a kept '@' token names another bot |
| CommandPlugin.Match | src/main/java/com/rainett/javagram/action/plugin/impl/command/CommandUpdateMatcher.java:27-32 | the trimmed literal must equal the extracted command; a missing declaration, message or text fails |
| CommandPlugin.Compare | src/main/java/com/rainett/javagram/action/plugin/impl/command/CommandComparator.java:20-22 | the sign of the result is the sign of the difference of the literals' Java lengths in UTF-16 code units |
| CommandPlugin.FirstTokenOf | src/main/java/com/rainett/javagram/action/plugin/impl/command/CommandUpdateMatcher.java:56-57 | blanks, a token and then nothing or a `\s`-led remainder: the token is the first token |
| CommandPlugin.ExtractComposed | src/main/java/com/rainett/javagram/action/plugin/impl/command/CommandUpdateMatcher.java:55-73 | round trip: blanks, a command, an optional mention of this bot in any ASCII case, and then arguments, extract to that command |
| CommandPlugin.OtherBotKept | src/main/java/com/rainett/javagram/action/plugin/impl/command/CommandUpdateMatcher.java:58-64 | a mention of another bot is kept, so the token stays whole |
| CommandPlugin.ArgumentsIgnored | src/main/java/com/rainett/javagram/action/plugin/impl/command/CommandUpdateMatcher.java:55-57 | "/start foo" matches the literal "/start" |
| CommandPlugin.MentionScenarios | src/main/java/com/rainett/javagram/action/plugin/impl/command/CommandUpdateMatcher.java:58-73 | "/start@TestBot" extracts to "/start" for username "@testbot"; "/start@otherbot" stays whole |
| CommandPlugin.MentionWithoutUsername | src/main/java/com/rainett/javagram/action/plugin/impl/command/CommandUpdateMatcher.java:67-71 | a token with a mention fails with NullPointer when no username is configured |
| CommandPlugin.LiteralCaseSensitive | src/main/java/com/rainett/javagram/action/plugin/impl/command/CommandUpdateMatcher.java:31 | "/Start" does not match the literal "/start" |
| CommandPlugin.BlankText | src/main/java/com/rainett/javagram/action/plugin/impl/command/CommandUpdateMatcher.java:28-31 | blank text matches only a literal that trims to empty |
| CallbackPlugin.ExtractCallbackKey | src/main/java/com/rainett/javagram/action/plugin/impl/callback/CallbackUpdateMatcher.java:32-38 | the key is the data before its first ':', or all of it without ':'; data of ':' only fails with IndexOutOfBounds; missing query or data fails with NullPointer |
| CallbackPlugin.Match | src/main/java/com/rainett/javagram/action/plugin/impl/callback/CallbackUpdateMatcher.java:23-30 | an empty key matches without reading the update; otherwise the extracted key must equal the declared key; a key containing ':' never matches |
| CallbackPlugin.Compare | src/main/java/com/rainett/javagram/action/plugin/impl/callback/CallbackComparator.java:19-21 | the sign of the result is the sign of the difference of the keys' Java lengths in UTF-16 code units |
| CallbackPlugin.CompareScenarios | src/main/java/com/rainett/javagram/action/plugin/impl/callback/CallbackComparator.java:20 | "value1" ties "value2", beats "short", and "s" is less than "short" |
| CallbackPlugin.CompareCountsCodeUnits | src/main/java/com/rainett/javagram/action/plugin/impl/callback/CallbackComparator.java:20 | an emoji key (two UTF-16 code units) ties with "ab" and beats "a" |
| CallbackPlugin.WildcardLeast | src/main/java/com/rainett/javagram/action/plugin/impl/callback/CallbackComparator.java:20 | the empty key is not greater than any key, and less than every non-empty one |
| CallbackPlugin.KeyOfEncoded | src/main/java/com/rainett/javagram/action/plugin/impl/callback/CallbackUpdateMatcher.java:34-35 | a non-empty key without ':' followed by ':' and any data yields that key |
| CallbackPlugin.KeyOfPlain | src/main/java/com/rainett/javagram/action/plugin/impl/callback/CallbackUpdateMatcher.java:36-37 | data without ':' is its own key |
| CallbackPlugin.NextPageScenario | src/main/java/com/rainett/javagram/action/plugin/impl/callback/CallbackUpdateMatcher.java:27-35 | "next-page:42" matches the key "next-page" and not "next" |
| Plugins.ResolversOverlap | src/main/java/com/rainett/javagram/action/plugin/impl/command/CommandResolver.java:20-22 | a command message also satisfies the text resolver; a button press satisfies only the callback resolver |
| Plugins.ResolverScenarios | src/main/java/com/rainett/javagram/action/plugin/impl/text/TextResolver.java:24-26 | the resolvers reject an empty update; a message without text is not text; a text message is text and not a command; a command message is a command; a button press without data is a callback |
| Plugins.MatcherDeclaration | src/main/java/com/rainett/javagram/action/actionmatcher/AbstractActionUpdateMatcher.java:17-20 | the matcher reads the first declaration of its category on the action's own class; None exactly when the class has none |
| Plugins.MatchAction | src/main/java/com/rainett/javagram/action/actionmatcher/AbstractActionUpdateMatcher.java:17-20 | the category's matcher applied to that declaration; without one it fails with NullPointer; matchers fail only with NullPointer or IndexOutOfBounds |
| Plugins.InheritedDeclarationNeverMatches | src/main/java/com/rainett/javagram/action/actionmatcher/AbstractActionUpdateMatcher.java:18 | an action declared only through a superclass is grouped under that category, yet its matcher fails on every update |
| Plugins.CompareDeclarationsAntisymmetric | src/main/java/com/rainett/javagram/action/comparator/impl/ActionComparatorServiceImpl.java:93-97 | swapping two declarations negates their comparison |
| ComparatorService.NewService | src/main/java/com/rainett/javagram/action/comparator/impl/ActionComparatorServiceImpl.java:34-39 | two comparators of one category fail with IllegalState; otherwise exactly the listed categories have a comparator |
| ComparatorService.ExtractAnnotation | src/main/java/com/rainett/javagram/action/comparator/impl/ActionComparatorServiceImpl.java:111-120 | over the class and its superclasses (interfaces are not modelled), fails with IllegalArgument exactly when no declaration of the category is on them; otherwise the nearest one: the own class's declaration (the one the matcher reads) when it has one, else the first found on the superclasses |
| ComparatorService.Compare | src/main/java/com/rainett/javagram/action/comparator/impl/ActionComparatorServiceImpl.java:91-98 | fails with IllegalArgument exactly when either action lacks the declaration; otherwise the declaration comparator on the two declarations of the category |
| ComparatorService.CompareWithinCategory | src/main/java/com/rainett/javagram/action/comparator/impl/ActionComparatorServiceImpl.java:91-98 | two actions of the comparator's category never fail and are compared by their first declarations |
| ComparatorService.CompareAntisymmetric | src/main/java/com/rainett/javagram/action/comparator/impl/ActionComparatorServiceImpl.java:91-98 | swapping the actions negates the comparison, or fails alike |
| Collector.ActionsOf | src/main/java/com/rainett/javagram/action/container/impl/ActionCollectorImpl.java:45-46 | non-action beans are dropped and every action bean is kept with its multiplicity |
| Collector.GroupOf | src/main/java/com/rainett/javagram/action/container/impl/ActionCollectorImpl.java:47 | a group holds exactly the actions of its category, with their multiplicity |
| Collector.Categories | src/main/java/com/rainett/javagram/action/container/impl/ActionCollectorImpl.java:47 | the grouping's keys are exactly the categories with a non-empty group |
| Collector.SortGroup | src/main/java/com/rainett/javagram/action/container/impl/ActionCollectorImpl.java:80-84 | a category without a registered comparator fails with NoSuchElement; otherwise the group is permuted by the reversed action comparator |
| Collector.Collect | src/main/java/com/rainett/javagram/action/container/impl/ActionCollectorImpl.java:40-51 | an action without declaration fails the collection with IllegalState, a missing comparator with NoSuchElement; otherwise no group is empty, the keys are the categories present, and each action bean appears in the group of its category with its multiplicity |
| Collector.OrderWithinGroup | src/main/java/com/rainett/javagram/action/container/impl/ActionCollectorImpl.java:83 | on the actions of a group the sort's comparator never fails |
| Collector.OrderIsComparator | src/main/java/com/rainett/javagram/action/container/impl/ActionCollectorImpl.java:83 | on command or callback actions the sort's comparator meets the general contract |
| Collector.SortedGroupOrdered | src/main/java/com/rainett/javagram/action/container/impl/ActionCollectorImpl.java:80-84 | sorting the command or callback group of any actions with the reversed action comparator orders it by non-increasing Java length of literal or key |
| Collector.SortedGroupStable | src/main/java/com/rainett/javagram/action/container/impl/ActionCollectorImpl.java:83 | that sort keeps the input order of the actions that tie with any action of the category |
| Collector.GroupOrdered | src/main/java/com/rainett/javagram/action/container/impl/ActionCollectorImpl.java:80-84 | a command or callback group is ordered by non-increasing Java length (UTF-16 code units) of literal or key |
| Collector.GroupStable | src/main/java/com/rainett/javagram/action/container/impl/ActionCollectorImpl.java:83 | in a command or callback group, the actions that tie keep their input order |
| Collector.EveryActionGrouped | src/main/java/com/rainett/javagram/action/container/impl/ActionCollectorImpl.java:41-47 | every collected action lies in the group of its category and in no other |
| Collector.GroupMember | src/main/java/com/rainett/javagram/action/container/impl/ActionCollectorImpl.java:41-47 | every member of a group is a collected action of the group's category |
| Collector.MoreSpecificFirst | src/main/java/com/rainett/javagram/action/container/impl/ActionCollectorImpl.java:40-51 | two actions of one command or callback category, with another bean between them, are collected into a group holding the one with the longer literal or key first, whatever their input order |
| Collector.LongerFirst | src/main/java/com/rainett/javagram/action/container/impl/ActionCollectorImpl.java:83 | sorting two actions of a command or callback category with the reversed comparator puts the one with the longer literal or key first |
| Collector.CollectWithEveryComparator | src/main/java/com/rainett/javagram/action/container/impl/ActionCollectorImpl.java:40-51 | with a comparator registered for every category, collecting succeeds exactly when every action carries a declaration |
| Container.NewContainer | src/main/java/com/rainett/javagram/action/container/impl/ActionContainerImpl.java:39-47 | two matchers of one category fail with IllegalState; otherwise exactly the listed categories have a matcher |
| Container.ResolveUpdateType | src/main/java/com/rainett/javagram/action/container/impl/ActionContainerImpl.java:82-89 | the category of the first resolver in list order that accepts the update; UnknownUpdateType exactly when none does |
| Container.FirstDecisive | src/main/java/com/rainett/javagram/action/container/impl/ActionContainerImpl.java:114-116 | the scan passes exactly the leading rejections and stops at the first acceptance or failure |
| Container.FindMatching | src/main/java/com/rainett/javagram/action/container/impl/ActionContainerImpl.java:114-118 | the result is an action of the group that its matcher accepts after every earlier one was rejected; ActionNotFound exactly when all are rejected; otherwise the first matcher failure |
| Container.FindByUpdate | src/main/java/com/rainett/javagram/action/container/impl/ActionContainerImpl.java:58-62 | an unknown update type propagates; a found action is in the resolved category's group and its own class's declaration matches; states exactly when ActionNotFound and IllegalState arise |
| Container.ResolverOrderDecides | src/main/java/com/rainett/javagram/action/container/impl/ActionContainerImpl.java:82-88 | a command message is routed as a command when the command resolver comes first and as text when the text resolver does |
| Container.FirstDecisiveAppend | src/main/java/com/rainett/javagram/action/container/impl/ActionContainerImpl.java:114-116 | verdicts behind the first decisive one do not move it |
| Container.EarlierMatchWins | src/main/java/com/rainett/javagram/action/container/impl/ActionContainerImpl.java:114-118 | once an action is found, or a matcher fails, actions appended behind it change nothing |
| Container.UndeclaredActionBlocks | src/main/java/com/rainett/javagram/action/container/impl/ActionContainerImpl.java:114-116 | a scanned action whose class lacks the declaration makes the lookup fail with NullPointer |
| Container.FoundActionIsCollected | src/main/java/com/rainett/javagram/action/container/impl/ActionContainerImpl.java:58-70 | over collected groups, the found action is a collected action of the resolved category |
| UpdateService.HandleUpdate | src/main/java/com/rainett/javagram/update/service/impl/UpdateServiceImpl.java:50-64 | a found action runs once and first; a failed lookup runs nothing but the default, once, and only after ActionNotFound or UnknownUpdateType; the default never runs twice and runs exactly when a default is configured and the lookup or the action's run failed with ActionNotFound or UnknownUpdateType; only the default's failure escapes |
| UpdateService.UnknownUpdateRunsDefault | src/main/java/com/rainett/javagram/update/service/impl/UpdateServiceImpl.java:56-59 | an update no resolver accepts runs the default alone, or nothing without one |
| UpdateService.MissingMatcherSilent | src/main/java/com/rainett/javagram/update/service/impl/UpdateServiceImpl.java:61-63 | a missing matcher runs nothing and lets nothing escape, even with a default action |
| UpdateService.FoundActionRunsOnce | src/main/java/com/rainett/javagram/update/service/impl/UpdateServiceImpl.java:52-55 | a found action that returns normally runs once and nothing else happens |
| Keyboard.NewBuilder | src/main/java/com/rainett/javagram/keyboard/InlineKeyboardBuilder.java:17-19 | a new builder builds the empty keyboard |
| Keyboard.Row | src/main/java/com/rainett/javagram/keyboard/InlineKeyboardBuilder.java:25-27 | a row starts as a new, empty, unattached list; the keyboard is unchanged |
| Keyboard.AddButton | src/main/java/com/rainett/javagram/keyboard/InlineKeyboardBuilder.java:72 | the button is appended to its row, every attached copy of that row shows it, and nothing else changes |
| Keyboard.ButtonWithData | src/main/java/com/rainett/javagram/keyboard/InlineKeyboardBuilder.java:68-74 | the new last button of the row carries callback data key + ":" + data |
| Keyboard.ButtonWithKey | src/main/java/com/rainett/javagram/keyboard/InlineKeyboardBuilder.java:83-89 | the new last button of the row carries the key as its callback data |
| Keyboard.EndRow | src/main/java/com/rainett/javagram/keyboard/InlineKeyboardBuilder.java:95-98 | the row is attached after the rows attached before |
| Keyboard.EndRowTwice | src/main/java/com/rainett/javagram/keyboard/InlineKeyboardBuilder.java:39-41 | ending a row twice attaches it twice |
| Keyboard.ButtonAfterEndRow | src/main/java/com/rainett/javagram/keyboard/InlineKeyboardBuilder.java:48 | a button added after its row ended still shows in the keyboard |
| Keyboard.ButtonKeyRoundTrip | src/main/java/com/rainett/javagram/keyboard/InlineKeyboardBuilder.java:71 | pressing a button with a non-empty key without ':' yields that key and matches its callback declaration, with data or without |
| Keyboard.NextPreviousRow | src/main/java/com/rainett/javagram/keyboard/InlineKeyboardBuilder.java:68-97 | "Next" with "next-page" and "42" then "Previous" with "prev-page" build one row with data "next-page:42" and "prev-page" |

## Left out

- Transport and configuration: long polling, webhook, controller, auto-configuration and property binding are I/O. The configured username is a parameter.
- Spring wiring of the plugins: modelled only as the fixed table in `Plugins` (resolver, matcher and comparator per category). Bean discovery order is an arbitrary input sequence.
- ComparatorService.ExtractAnnotation: declarations on implemented interfaces are not modelled. Spring's `findAnnotation` searches a class's interfaces before its superclass, so an action whose own class has no declaration but whose interface and superclass both have one is compared by the interface's declaration in Java and by the superclass's in the model; a declaration found only on an interface makes Java succeed where the model fails with IllegalArgument.
- Reflection: annotation lookup is replaced by the two declaration lists of `Model.Action`. Meta-annotation search is not modelled; the three rule declarations are the only bot-action annotations.
- The Java regular-expression engine: an uninterpreted parameter. A malformed pattern's exception is not modelled.
- CommandPlugin.ExtractCommand: `equalsIgnoreCase` is modelled with ASCII folding only (A-Z to a-z). Java also folds other characters, e.g. 'ſ' (U+017F) upper-cases to 'S', so Java strips "/start@teſtbot" for the username "@testbot" while the model keeps the token whole.
- `List.sort` is TimSort. The model uses a stable insertion sort, which gives the same result for a comparator that meets the general contract (command and callback groups). The text comparator does not meet it (`TextPlugin.CompareNotConsistent`), so the order TimSort gives a text group may differ from the model's.
- Collector.SortGroup: for a text group of 32 or more actions, TimSort merges runs and may throw IllegalArgumentException ("Comparison method violates its general contract!") because the text comparator breaks that contract. The model has no such failure: its sort of a text group always succeeds.
- Collector.Collect: for the same reason, a collection with a text group of 32 or more actions may abort with IllegalArgumentException in Java, where the model reports success.
- Collector.GroupOrdered: stated for command and callback groups only, because the text comparator is not a total preorder; text groups are proved to be permutations (`Collector.Collect`).
- Container.FindByUpdate: that a lookup leaves the groups and matchers unchanged holds by construction, since the container is an immutable value.
- UpdateService.HandleUpdate: Java `Error`s and logging are not modelled; only exceptions are.
- Null strings inside declarations and button arguments, which Java would turn into "null" or a NullPointerException, are not modelled: strings are always present.
- Lone surrogates cannot occur in a `seq<char>`, so Java strings holding an unpaired surrogate are not modelled; for well-formed strings, prefix, suffix, substring and split tests agree whether counted in characters or in code units.
- The Telegram client library's `Message.hasText` and `isCommand` are not part of this model: a message has text when the text is present, and the command flag is an input.
- The legacy annotations under `annotations/` are dead code and are not part of this model.
