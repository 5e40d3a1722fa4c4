# Card lifecycle of the team navigation dashboard

This project models the card lifecycle core of the team navigation backend:

- the **card type handler registry** (`CardTypeServiceFactory`), which maps every card type enum
  constant to the handler service that declares it and resolves a card's type string to its
  handler in two stages;
- the **card service** (`CardService`), which assembles the home-page tree of categories and
  cards, lists the cards of one category, saves a card (icon caching, id and sort defaults,
  the type's save hook), persists the changes of a reordering, and deletes a card (the type's
  delete hook after the removal).

Modules: `Wrappers` (Option/Result/Outcome), `ServiceErrors` (one constructor per exception
path), `JavaText` (isBlank, startsWith, toLowerCase, joining), `Sorting` (the stable sort of
`List.sort`/`Stream.sorted`), `CardTypes` (the registry, a class whose `Init` fills its map in
nested loops), `Cards` (entities and view objects; `CardIconDto` is a class because `saveIcon`
rewrites its `src` in place), `CardTree` (the `tree` stream pipeline as functions),
`CardIcons` (the decision logic and path format of `saveIcon`) and `CardServices` (the
`CardRepository` and `CardService` classes).

Inputs from outside the core are parameters: `CardTypeEnum.getEnum` is a function stored in
the factory; the handlers' `formatCardVo` and `supplySave` hooks are functions in
`CardTypeHooks`, and each `supplyDelete` call is recorded in `supplyDeleteCalls`; repository
queries (`findAll`, `findByKeywords`, `findByCategoryOrderBySortAsc`, `getMaxSort`), the
category service, the reordering of `commonService.changeSort`, today's date, the generated
ids, the file extension and the outcomes of directory creation and download are arguments.

Behaviours of the code that the model keeps as written:

- `getService` raises two distinct errors: `InvalidCardType` from `Assert.notNull` when the
  type string names no enum constant, and `CardTypeNotImplemented` from
  `Objects.requireNonNull` when no handler is registered for the constant.
- `init` runs no completeness check against the enum, so a type without a handler is noticed
  only when it is looked up.
- `delete` removes the card before it resolves the card's type: a card whose type does not
  resolve is deleted, the call then raises, and no delete hook runs.
- A missing card on `delete` raises a `NullPointerException` (`CardNotFound` here).
- Sorting by a null `sort` raises (`NullSortKey`) whenever two or more elements are sorted,
  since every element then takes part in a comparison; a single element is never compared.
- `save` fills a null sort with `getMaxSort + 1`. `Card.sort` and the result of `getMaxSort`
  are taken to be `java.lang.Integer` (their declarations are not part of this model), so the
  sum wraps to `Integer.MIN_VALUE` when the maximum is `Integer.MAX_VALUE`.

## Model

| member | source | states |
|---|---|---|
| CardTypes.Registered | backend/src/main/java/com/dash/navigation/service/cardtype/CardTypeServiceFactory.java:33-43 | the map the startup registration builds, every annotated handler put under each of its declared types in list order; RegisteredDomain, RegisteredOwner and RegisteredValues state its keys, owners and values |
| CardTypes.CardTypeServiceFactory.Init | backend/src/main/java/com/dash/navigation/service/cardtype/CardTypeServiceFactory.java:33-43 | the nested loops leave exactly the map that registering every annotated handler under each declared type, in list order, produces |
| CardTypes.CardTypeServiceFactory.constructor | backend/src/main/java/com/dash/navigation/service/cardtype/CardTypeServiceFactory.java:33-43 | after injection and the startup call the map is the registration of the injected list |
| CardTypes.CardTypeServiceFactory.GetService | backend/src/main/java/com/dash/navigation/service/cardtype/CardTypeServiceFactory.java:51-56 | the lookup returns the two-stage resolution of the type string and modifies nothing |
| CardTypes.Resolve | backend/src/main/java/com/dash/navigation/service/cardtype/CardTypeServiceFactory.java:51-56 | invalid-type error exactly when the string does not parse, not-implemented error exactly when the constant has no handler, otherwise success with exactly the map's entry |
| CardTypes.PutAllSpec | backend/src/main/java/com/dash/navigation/service/cardtype/CardTypeServiceFactory.java:38-40 | putting a handler under a list of types maps every listed type to it and leaves other keys as they were |
| CardTypes.RegisteredDomain | backend/src/main/java/com/dash/navigation/service/cardtype/CardTypeServiceFactory.java:35-40 | a type is a key of the map if and only if some annotated handler in the list declares it |
| CardTypes.RegisteredOwner | backend/src/main/java/com/dash/navigation/service/cardtype/CardTypeServiceFactory.java:35-40 | a type is mapped to the last handler in the list that declares it |
| CardTypes.RegisteredValues | backend/src/main/java/com/dash/navigation/service/cardtype/CardTypeServiceFactory.java:36-40 | every value of the map is a handler whose annotation declares the key it is stored under |
| CardTypes.UnannotatedNeverRegistered | backend/src/main/java/com/dash/navigation/service/cardtype/CardTypeServiceFactory.java:36-37 | a handler without a @CardType annotation is never a value of the map |
| CardTypes.EveryDeclaredTypeRegistered | backend/src/main/java/com/dash/navigation/service/cardtype/CardTypeServiceFactory.java:38-40 | a handler declaring several types is registered under every one of them unless a later handler declares the same type |
| CardTypes.LaterDeclarationWins | backend/src/main/java/com/dash/navigation/service/cardtype/CardTypeServiceFactory.java:35-40 | when two handlers declare one type, the later one in the list owns it because put overwrites |
| CardTree.NonBlank | backend/src/main/java/com/dash/navigation/service/CardService.java:94-95 | the kept values are exactly the non-blank non-null ones, and none is blank |
| CardTree.NonBlankAppend | backend/src/main/java/com/dash/navigation/service/CardService.java:94-95 | the filter keeps encounter order: filtering a concatenation is the concatenation of the filtered parts |
| CardTree.NonBlankCount | backend/src/main/java/com/dash/navigation/service/CardService.java:94-95 | every non-blank value is kept as often as it occurs, and no blank one |
| CardTree.Distinct | backend/src/main/java/com/dash/navigation/service/CardService.java:95 | the result holds the same values as the input, each once |
| CardTree.DistinctKeepsFirstOccurrenceOrder | backend/src/main/java/com/dash/navigation/service/CardService.java:95 | distinct lists the values in the order of their first occurrences |
| CardTree.SegmentsSpec | backend/src/main/java/com/dash/navigation/service/CardService.java:94-95 | the filtered, de-duplicated values are exactly the non-blank ones, none repeated, in the order of their first occurrences, and empty exactly when every value is blank |
| CardTree.WithTip | backend/src/main/java/com/dash/navigation/service/CardService.java:94-96 | the tip setter: only the tip changes, to the tooltip lines joined by a line feed; TipSpec states what those lines are |
| CardTree.TipSpec | backend/src/main/java/com/dash/navigation/service/CardService.java:94-96 | a tooltip's lines are exactly the non-blank values among title, content and url, in that order, none blank and none repeated; the tooltip is empty exactly when all three are blank |
| JavaText.JoinEmpty | backend/src/main/java/com/dash/navigation/service/CardService.java:96 | joining non-empty parts with a line feed gives the empty string exactly when there are no parts |
| CardTree.FormatCard | backend/src/main/java/com/dash/navigation/service/CardService.java:92-96 | one card's formatting: its type resolved through the registry, the formatCardVo hook applied, the tooltip set; FormatAll, CardChildrenMembers and TreeShape state its use |
| CardTree.FormatAll | backend/src/main/java/com/dash/navigation/service/CardService.java:91-98 | formatting succeeds exactly when every card's type resolves, then position by position holds each formatted card; otherwise it raises the error of the first card that fails |
| CardTree.FormattedMembers | backend/src/main/java/com/dash/navigation/service/CardService.java:91-98 | the formatted list holds exactly the formatted cards |
| Sorting.Insert | backend/src/main/java/com/dash/navigation/service/CardService.java:99 | inserting into a sorted list keeps it sorted and adds exactly the one element |
| Sorting.SortByKey | backend/src/main/java/com/dash/navigation/service/CardService.java:99 | the sorted list is ordered by the key and is a permutation of the input |
| Sorting.InsertStable | backend/src/main/java/com/dash/navigation/service/CardService.java:99 | inserting keeps the elements of every key in their order, the new element last among those of its key |
| Sorting.SortByKeyStable | backend/src/main/java/com/dash/navigation/service/CardService.java:99 | the sort is stable: the elements of every key keep their encounter order |
| CardTree.SortChildren | backend/src/main/java/com/dash/navigation/service/CardService.java:99 | sorting children raises exactly when two or more are sorted and one has a null sort; otherwise it returns a permutation in non-decreasing sort order |
| CardTree.SortNodes | backend/src/main/java/com/dash/navigation/service/CardService.java:83 | sorting categories raises exactly when two or more are sorted and one has a null sort; otherwise it returns a permutation in non-decreasing sort order |
| CardTree.CardChildren | backend/src/main/java/com/dash/navigation/service/CardService.java:86-101 | an empty card list yields no children; it fails exactly when some card's type does not resolve, or when there are two or more cards and a formatted one has a null sort; a type failure raises the first failing card's error, otherwise the failure is the null-sort error; a successful result has one child per card, in sort order, and is a permutation of the formatted cards |
| CardTree.CardChildrenFormatted | backend/src/main/java/com/dash/navigation/service/CardService.java:86-101 | once every card of a non-empty list formats, the children are exactly those formatted values sorted by sort |
| CardTree.CardChildrenMembers | backend/src/main/java/com/dash/navigation/service/CardService.java:86-101 | the children are exactly the formatted cards |
| CardServices.CardService.SetCardChildren | backend/src/main/java/com/dash/navigation/service/CardService.java:86-101 | the loop that formats each card, sets its tip and appends it, followed by the in-place sort, yields exactly the children of the specification |
| CardTree.GroupOf | backend/src/main/java/com/dash/navigation/service/CardService.java:78 | every card of a category's group belongs to that category |
| CardTree.GroupOfAppend | backend/src/main/java/com/dash/navigation/service/CardService.java:78 | grouping keeps encounter order: the group of a concatenation is the concatenation of the groups |
| CardTree.GroupOfCount | backend/src/main/java/com/dash/navigation/service/CardService.java:78 | a group holds every card of its category as often as the card list does, and no other card |
| CardTree.GroupOfMembers | backend/src/main/java/com/dash/navigation/service/CardService.java:78 | a category's group holds exactly the cards of that category |
| CardTree.BuildNodes | backend/src/main/java/com/dash/navigation/service/CardService.java:79-81 | succeeds exactly when every category's children succeed, then one node per category, in category order, each carrying the category's fields and that category's children; otherwise it raises the failure of the first category whose children fail |
| CardTree.NonEmptyNodes | backend/src/main/java/com/dash/navigation/service/CardService.java:82 | keeps exactly the nodes with children |
| CardTree.NonEmptyNodesAppend | backend/src/main/java/com/dash/navigation/service/CardService.java:82 | the filter keeps encounter order: filtering a concatenation is the concatenation of the filtered parts |
| CardTree.NonEmptyNodesCount | backend/src/main/java/com/dash/navigation/service/CardService.java:82 | every node with children is kept as often as it occurs, and no node without |
| CardTree.TreeCards | backend/src/main/java/com/dash/navigation/service/CardService.java:73-74 | the cards the tree shows: all cards for blank keywords, else the keyword query on the lower-cased keywords; TreeShape and TreeComplete are stated over it |
| CardTree.Tree | backend/src/main/java/com/dash/navigation/service/CardService.java:68-84 | the tree itself; TreeShape, TreeComplete, TreeFailure and TreeFailsOnUnresolvedCard state its properties |
| CardTree.TreeShape | backend/src/main/java/com/dash/navigation/service/CardService.java:68-84 | no categories or no cards yield an empty tree; otherwise categories are in sort order, each has non-empty children in sort order, and every child is formatted from a card of exactly that category, so cards of unlisted categories appear nowhere |
| CardTree.NodeChildren | backend/src/main/java/com/dash/navigation/service/CardService.java:79-81 | the k-th node carries the k-th category and that category's children, sorted, each formatted from a card of that category |
| CardTree.TreeComplete | backend/src/main/java/com/dash/navigation/service/CardService.java:78-83 | every listed category that has cards appears in the tree with exactly its group's children, one per card of that category (GroupOfCount gives the group's size) |
| CardTree.TreeFailure | backend/src/main/java/com/dash/navigation/service/CardService.java:78-99 | a failing tree raises a null-sort error or the type error of a shown card of a listed category |
| CardTree.TreeFailsOnUnresolvedCard | backend/src/main/java/com/dash/navigation/service/CardService.java:78-99 | conversely, a shown card of a listed category whose type does not resolve makes the tree fail |
| JavaText.ToLower | backend/src/main/java/com/dash/navigation/service/CardService.java:74 | lower-casing keeps the length, maps each ASCII capital to its small letter and keeps every other character |
| CardServices.Select | backend/src/main/java/com/dash/navigation/service/CardService.java:109-116 | one view per queried card, in query order, each labelled with its category's name |
| CardServices.SelectKeepsOrder | backend/src/main/java/com/dash/navigation/service/CardService.java:110-115 | select keeps the ascending sort order of the query and labels one category's cards with that category's name |
| CardServices.AssignedId | backend/src/main/java/com/dash/navigation/service/CardService.java:127 | a blank id is replaced by the generated one; a non-blank id is kept exactly |
| CardServices.SavedCard | backend/src/main/java/com/dash/navigation/service/CardService.java:126-131 | the card save stores; SavedCardSpec states its properties |
| Cards.Wrap32 | backend/src/main/java/com/dash/navigation/service/CardService.java:130 | Integer arithmetic: the result is in the Integer range, congruent to the input modulo 2^32, and equal to it when it is in range |
| CardServices.SavedCardSpec | backend/src/main/java/com/dash/navigation/service/CardService.java:128-131 | the saved card fails exactly when the type does not resolve; otherwise it is the hook's card with a sort always present: the hook's own sort kept, a null sort set to getMaxSort + 1 in Integer arithmetic, which is max + 1 below Integer.MAX_VALUE and Integer.MIN_VALUE at it |
| CardServices.SavedCardKey | backend/src/main/java/com/dash/navigation/service/CardService.java:126-132 | when the supplySave hook keeps the id it is given, the saved card's key is the generated id for a blank given id and exactly the given id otherwise |
| CardServices.CardService.Save | backend/src/main/java/com/dash/navigation/service/CardService.java:124-133 | an icon-directory failure raises before anything is stored; a type failure stores nothing; otherwise exactly one entry is written, the card SavedCard gives, under the id the supplySave hook leaves on it, which is AssignedId's when the hook keeps the id (SavedCardKey) |
| CardServices.CardRepository.Save | backend/src/main/java/com/dash/navigation/service/CardService.java:132 | saving inserts or replaces the card under its id |
| CardIcons.ZeroPadded | backend/src/main/java/com/dash/navigation/service/CardService.java:140 | a padded number has exactly the requested width and only digits |
| CardIcons.ZeroPaddedRoundTrip | backend/src/main/java/com/dash/navigation/service/CardService.java:140 | reading a zero-padded number back gives the number |
| CardIcons.IconPath | backend/src/main/java/com/dash/navigation/service/CardService.java:139-141 | the cache path; IconPathParts states its layout |
| CardIcons.IconPathParts | backend/src/main/java/com/dash/navigation/service/CardService.java:139-141 | the cache path is the fixed prefix, eight digits reading back as the year, month and day, a slash, the unique id, a dot and the extension |
| CardIcons.SavedIconSrc | backend/src/main/java/com/dash/navigation/service/CardService.java:136-153 | the src saveIcon leaves, or its exception; SavedIconSrcSpec and SavedIconSrcIdempotent state its properties |
| CardIcons.SavedIconSrcSpec | backend/src/main/java/com/dash/navigation/service/CardService.java:136-153 | raises exactly when the src starts with "http" and the directory cannot be created; src changes exactly on a successful download of an "http" src, and then to exactly the cache path of today's date, the id and the extension, which lies in the icon directory and no longer starts with "http" |
| CardIcons.SavedIconSrcIdempotent | backend/src/main/java/com/dash/navigation/service/CardService.java:136-138 | saving an icon already rewritten to the cache path again changes nothing and raises nothing |
| CardServices.CardService.SaveIcon | backend/src/main/java/com/dash/navigation/service/CardService.java:135-154 | the icon's src afterwards, or the exception, is the one the decision logic gives; nothing else of the icon changes |
| CardServices.Upserted | backend/src/main/java/com/dash/navigation/service/CardService.java:169 | the store after saving a list card by card; UpsertedDomain, UpsertedLastWins and UpsertedUntouched state its contents |
| CardServices.UpsertedDomain | backend/src/main/java/com/dash/navigation/service/CardService.java:169 | after saving a list, an id is stored exactly when it was stored before or a card of the list has it |
| CardServices.UpsertedLastWins | backend/src/main/java/com/dash/navigation/service/CardService.java:169 | an id of the saved list holds the last card of the list with that id |
| CardServices.UpsertedUntouched | backend/src/main/java/com/dash/navigation/service/CardService.java:169 | every id no card of the saved list has keeps its card |
| CardServices.CardRepository.SaveAll | backend/src/main/java/com/dash/navigation/service/CardService.java:169 | saving a list writes each card in turn |
| CardServices.CardService.ChangeSort | backend/src/main/java/com/dash/navigation/service/CardService.java:163-170 | an empty update list leaves the store untouched; otherwise exactly the returned cards are saved |
| CardServices.CardRepository.FindById | backend/src/main/java/com/dash/navigation/service/CardService.java:178 | finds the card stored under the id, none when absent |
| CardServices.CardRepository.DeleteById | backend/src/main/java/com/dash/navigation/service/CardService.java:179 | removes exactly the id |
| CardServices.CardService.Delete | backend/src/main/java/com/dash/navigation/service/CardService.java:177-181 | an unknown id raises with the store and hooks untouched; otherwise the id is removed and all other cards kept, and the delete hook receives the card as loaded when its type resolves |

## Left out

- CardServices.CardService.Save: the key is the id on the card the supplySave hook returns, so a hook that changes the id changes the key; the generated-or-given key is promised only for a hook that keeps it (SavedCardKey).
- `Card.sort` and `getMaxSort` are taken to be `java.lang.Integer`; the `Card` entity and `CardRepository` declarations are not part of this model.
- `CardIconConverter`: the JSON conversion of the icon is a library call; the icon is kept as a value.
- The file system and network work of `saveIcon` (directory creation, the file stream, the download): their outcomes are boolean inputs.
- `LocalDate.now()`, `StringExtUtils.getUuid()` and `FilenameUtils.getExtension`: the date, the generated ids and the extension are inputs; that generated ids do not collide is the generator's promise, not modelled.
- CardIcons.BasicIsoDate: years above 9999, for which the formatter raises, are excluded by the date precondition.
- `StringExtUtils.format` is taken to fill its `{}` placeholders in order.
- The reordering algorithm of `commonService.changeSort`: its source is not part of this model, so it is a function argument returning the cards to save.
- The repository and category service implementations (`findAll`, `findByKeywords` and its keyword rules, `findByCategoryOrderBySortAsc`, `getMaxSort`, `categoryService.select` and `get`): their results are arguments; a failing `categoryService.get` is not modelled.
- The bodies of the per-type hooks `formatCardVo`, `supplySave` and `supplyDelete`: the first two are uninterpreted function values, the third is recorded as a call; exceptions raised inside them are not modelled.
- JavaText.ToLower: only ASCII letters are lower-cased; Java's full Unicode case mapping is not modelled.
- Spring's annotation discovery and injection: the handler list is an explicit sequence of (handler, declared types) pairs.
- Null card, null icon, null category of a card, null type strings and a null `getMaxSort` for a category without cards (Java NPE paths) are not modelled; a null icon `src` is.
- Concurrency between requests and transactions are not modelled.
